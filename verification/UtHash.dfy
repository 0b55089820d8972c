// The hash that an application sees: HASH_ADD, HASH_FIND, HASH_DELETE and HASH_SRT keep the
// application-order list, the bucket chains and the Bloom filter in step.
module UtHash {
  import opened Seqs
  import opened Bits
  import opened Bloom
  import opened HashChains
  import opened StableSort
  import opened UtList

  // The first item with the key in the chain of its bucket.
  ghost function FirstInBucket<K, D>(keyOf: D -> K, hashFn: K -> u32, chains: seq<seq<Node<D>>>, key: K): Node?<D> {
    if chains == [] then null else FirstWithKey(keyOf, chains[Rem(hashFn(key), |chains|)], key)
  }

  class Hash<!K(==), D(!new)> {
    const keyOf: D -> K
    const hashFn: K -> u32
    const hash: D -> u32        // the hash value of an element's key
    const bloomBits: nat        // HASH_BLOOM, 0 when it is not defined
    const app: List<D>          // the application's head variable
    var tbl: Table?<D>
    var bloom: Filter?

    ghost function Items(): seq<Node<D>>
      reads app`nodes
    {
      app.nodes
    }

    ghost function Chains(): seq<seq<Node<D>>>
      reads this`tbl, tbl
    {
      if tbl != null then tbl.chains else []
    }

    ghost predicate Valid()
      reads this, app, app.nodes, tbl, bloom
      reads if tbl != null then {tbl.buckets} + tbl.members else {}
      reads if bloom != null then {bloom.bv} else {}
    {
      Consistent(Elems(Items()))
    }

    // Everything agrees, and the Bloom filter has seen at least these items.
    ghost predicate Consistent(seen: set<Node<D>>)
      reads this, app, app.nodes, seen`hashv, tbl, bloom
      reads if tbl != null then {tbl.buckets} + tbl.members else {}
      reads if bloom != null then {bloom.bv} else {}
    {
      && (forall d :: hash(d) == hashFn(keyOf(d)))
      && app.Valid0()
      && (tbl == null <==> Items() == [])
      && (tbl != null ==>
            && InTable(tbl, Elems(Items())) && tbl.numItems == |Items()|
            && tbl.tail == Items()[|Items()| - 1]
            && (bloom == null <==> bloomBits == 0)
            && (bloom != null ==> Screened(bloom, seen) && bloom.bv as object != tbl.buckets))
    }

    // The chains hold exactly these items.
    ghost predicate InTable(t: Table<D>, items: set<Node<D>>)
      reads t`buckets, t`numBuckets, t`log2NumBuckets, t`chains, t`members, t.buckets
      reads items`hhNext, items`hhPrev, items`hashv
    {
      t.members == items && t.Valid(hash)
    }

    // The Bloom filter has the bit of every item set.
    ghost predicate Screened(f: Filter, items: set<Node<D>>)
      reads f, f.bv, items`hashv
    {
      && f.Valid()
      && forall e {:trigger e.hashv} :: e in items ==> f.Slot(e.hashv) in f.marked
    }

    constructor (keyOf: D -> K, hashFn: K -> u32, bloomBits: nat)
      ensures Valid() && Items() == []
      ensures this.keyOf == keyOf && this.hashFn == hashFn
    {
      this.keyOf, this.hashFn, this.bloomBits := keyOf, hashFn, bloomBits;
      hash := (d: D) => hashFn(keyOf(d));
      app := new List<D>();
      tbl, bloom := null, null;
    }

    // What a search for the key gives.
    ghost function Answer(key: K): Node?<D>
      reads this`tbl, tbl
    {
      FirstInBucket(keyOf, hashFn, Chains(), key)
    }

    ghost predicate Unique()
      reads app`nodes
    {
      UniqueKeys(keyOf, Items())
    }

    // With unique keys the hash is a map.
    ghost function Map(): map<K, Node<D>>
      reads app`nodes
    {
      AsMap(keyOf, Items())
    }

    // HASH_FIND
    method Find(key: K) returns (out: Node?<D>)
      requires Valid()
      ensures out == Answer(key)
      ensures out == null <==> forall e :: e in Items() ==> keyOf(e.data) != key
      ensures out != null ==> out in Items() && keyOf(out.data) == key
      ensures Unique() ==> out == if key in Map() then Map()[key] else null
    {
      out := Search(key);
      if Unique() {
        FindIsLookup(keyOf, Items(), key, out);
      }
    }

    method Search(key: K) returns (out: Node?<D>)
      requires Valid()
      ensures out == Answer(key)
      ensures out == null <==> forall e :: e in Items() ==> keyOf(e.data) != key
      ensures out != null ==> out in Items() && keyOf(out.data) == key
    {
      out := null;
      if app.head != null {
        var hashv := hashFn(key);
        var bkt := And(hashv, tbl.numBuckets - 1);
        BucketIs(hashv);
        AnswerIs(key);
        var maybe := Screen(hashv);
        if maybe {
          out := tbl.FindInBkt(hash, keyOf, bkt, key);
        }
      }
    }

    // The Bloom filter, if there is one.
    method Screen(hashv: u32) returns (maybe: bool)
      requires Valid() && tbl != null
      ensures Valid() && (!maybe ==> forall e {:trigger e.hashv} :: e in Items() ==> e.hashv != hashv)
    {
      maybe := true;
      if bloom != null {
        maybe := bloom.Test(hashv);
      }
    }

    lemma BucketIs(hashv: u32)
      requires tbl != null && tbl.Valid(hash)
      ensures And(hashv, tbl.numBuckets - 1) == Rem(hashv, tbl.numBuckets) < tbl.numBuckets == |tbl.chains|
    {
      AndMask(hashv, tbl.log2NumBuckets);
      QuoRem(hashv, tbl.numBuckets);
    }

    lemma AnswerIs(key: K)
      requires Valid() && tbl != null
      ensures Answer(key) == null <==> forall e :: e in Items() ==> keyOf(e.data) != key
      ensures var e := Answer(key); e != null ==> e in Items() && keyOf(e.data) == key && e.hashv == hashFn(key)
    {
      var hashv := hashFn(key);
      BucketIs(hashv);
      var chain := tbl.chains[Rem(hashv, tbl.numBuckets)];
      FirstWithKeyIs(keyOf, chain, key);
      forall e | e in Items() && keyOf(e.data) == key ensures e in chain && e.hashv == hashv {
        assert e in tbl.members && e.hashv == hash(e.data);
      }
      forall e | e in chain ensures e in Items() {
        var k :| 0 <= k < |chain| && chain[k] == e;
      }
    }

    // HASH_ADD_KEYPTR
    method Add(add: Node<D>)
      requires Valid() && add !in Items()
      modifies this, app, Elems(Items()), add, tbl, bloom
      modifies if tbl != null then {tbl.buckets} else {}, if bloom != null then {bloom.bv} else {}
      ensures Valid() && Items() == old(Items()) + [add]
      ensures tbl == old(tbl) || fresh(tbl)
      ensures old(Unique() && keyOf(add.data) !in Map()) ==> Unique() && Map() == old(Map())[keyOf(add.data) := add]
    {
      AddItem(add);
      if old(Unique() && keyOf(add.data) !in Map()) {
        AddIsInsert(keyOf, old(Items()), add);
      }
    }

    method AddItem(add: Node<D>)
      requires Valid() && add !in Items()
      modifies this, app, Elems(Items()), add, tbl, bloom
      modifies if tbl != null then {tbl.buckets} else {}, if bloom != null then {bloom.bv} else {}
      ensures Valid() && Items() == old(Items()) + [add]
      ensures tbl == old(tbl) || fresh(tbl)
    {
      if app.head == null {
        LinkFirst(add);
      } else {
        LinkBehind(add);
      }
      EnterAll(add, Elems(old(Items())));
    }

    method EnterAll(add: Node<D>, ghost items: set<Node<D>>)
      requires Entering(add, items)
      modifies tbl, tbl.buckets, items`hhNext, items`hhPrev, add`hhNext, add`hhPrev, add`hashv
      modifies bloom, if bloom != null then {bloom.bv} else {}
      ensures Valid() && tbl != null && (tbl.buckets == old(tbl.buckets) || fresh(tbl.buckets))
    {
      Enter(add, items);
      if bloom != null {
        EnterBloom(add, items);
      }
    }

    method LinkFirst(add: Node<D>)
      requires Valid() && Items() == []
      modifies this, app, add`next, add`prev
      ensures Items() == [add] && Entering(add, {}) && fresh(tbl) && fresh(tbl.buckets)
      ensures bloom != null ==> fresh(bloom) && fresh(bloom.bv)
    {
      app.AppendInOrder(add, null);
      tbl := new Table<D>(hash, add);
      bloom := null;
      if bloomBits != 0 {
        bloom := new Filter(bloomBits);
      }
    }

    method LinkBehind(add: Node<D>)
      requires Valid() && Items() != [] && add !in Items()
      modifies app, Elems(Items())`next, add`next, add`prev, tbl`tail
      ensures Items() == old(Items()) + [add] && Entering(add, Elems(old(Items())))
    {
      app.AppendInOrder(add, tbl.tail);
      tbl.tail := add;
    }

    // add is in the list and is the table's tail, and has not entered the table yet.
    ghost predicate Entering(add: Node<D>, items: set<Node<D>>)
      reads this, app, app.nodes, tbl, bloom, items
      reads if tbl != null then {tbl.buckets} else {}
      reads if bloom != null then {bloom.bv} else {}
    {
      && (forall d :: hash(d) == hashFn(keyOf(d)))
      && app.Valid0() && Items() != [] && Items()[|Items()| - 1] == add
      && add !in items && Elems(Items()) == items + {add}
      && tbl != null && InTable(tbl, items) && tbl.numItems + 1 == |Items()| && tbl.tail == add
      && (bloom == null <==> bloomBits == 0)
      && (bloom != null ==> Screened(bloom, items) && bloom.bv as object != tbl.buckets)
    }

    // The second half of HASH_ADD_KEYPTR: the item goes into its bucket.
    method Enter(add: Node<D>, ghost items: set<Node<D>>)
      requires Entering(add, items)
      modifies tbl, tbl.buckets, items`hhNext, items`hhPrev, add`hhNext, add`hhPrev, add`hashv
      ensures Consistent(items) && (tbl.buckets == old(tbl.buckets) || fresh(tbl.buckets))
      ensures add.hashv == hash(add.data) && tbl != null
    {
      tbl.numItems := tbl.numItems + 1;
      add.hashv := hashFn(keyOf(add.data));
      EnterBucket(add);
    }

    method EnterBucket(add: Node<D>)
      requires tbl != null && InTable(tbl, tbl.members) && add !in tbl.members && add.hashv == hash(add.data)
      requires tbl.numItems > 0
      modifies tbl, tbl.buckets, tbl.members`hhNext, tbl.members`hhPrev, add`hhNext, add`hhPrev
      ensures InTable(tbl, old(tbl.members) + {add}) && (tbl.buckets == old(tbl.buckets) || fresh(tbl.buckets))
      ensures tbl.numItems == old(tbl.numItems) && tbl.tail == old(tbl.tail)
    {
      var bkt := And(add.hashv, tbl.numBuckets - 1);
      BucketIs(add.hashv);
      tbl.AddToBkt(hash, bkt, add);
    }

    // HASH_BLOOM_ADD: and its bit is set.
    method EnterBloom(add: Node<D>, ghost items: set<Node<D>>)
      requires bloom != null && tbl != null && Consistent(items)
      modifies bloom, bloom.bv
      ensures Consistent(items + {add})
    {
      bloom.Add(add.hashv);
      assert Screened(bloom, items + {add});
    }

    // HASH_DELETE of the item at position k
    method Delete(del: Node<D>, ghost k: nat)
      requires Valid() && k < |Items()| && Items()[k] == del
      modifies this, app, Elems(Items()), tbl, if tbl != null then {tbl.buckets} else {}
      ensures Valid() && Items() == Remove(old(Items()), k)
      ensures old(Unique()) ==> Unique() && Map() == old(Map()) - {keyOf(del.data)}
    {
      if del.prev == null && del.next == null {
        Free(k);
      } else {
        UnlinkItem(del, k);
        Leave(del);
      }
      if old(Unique()) {
        DeleteIsRemove(keyOf, old(Items()), k);
      }
    }

    method Free(ghost k: nat)
      requires Valid() && k < |Items()| && Items()[k].prev == null && Items()[k].next == null
      modifies this, app
      ensures Valid() && Items() == [] == Remove(old(Items()), k)
    {
      assert k == 0 && |Items()| == 1;
      tbl, bloom := null, null;
      app.head := null;
      app.nodes := [];
    }

    method UnlinkItem(del: Node<D>, ghost k: nat)
      requires Valid() && k < |Items()| && Items()[k] == del && tbl != null
      requires !(del.prev == null && del.next == null)
      modifies app, Elems(Items())`next, Elems(Items())`prev, tbl`tail
      ensures Items() == Remove(old(Items()), k) && Leaving(del)
      ensures Elems(Items()) + {del} == Elems(old(Items()))
    {
      assert |Items()| > 1;
      ElemsRemove(app.nodes, k);
      assert del == tbl.tail <==> k == |Items()| - 1;
      if del == tbl.tail {
        tbl.tail := del.prev;
      }
      app.Unlink(del, k);
    }

    // del is out of the list, and the table still holds it.
    ghost predicate Leaving(del: Node<D>)
      reads this, app, app.nodes, del, tbl, bloom
      reads if tbl != null then {tbl.buckets} else {}
      reads if bloom != null then {bloom.bv} else {}
    {
      && (forall d :: hash(d) == hashFn(keyOf(d))) && app.Valid0() && Items() != []
      && tbl != null && InTable(tbl, Elems(Items()) + {del}) && del !in Items()
      && tbl.numItems == |Items()| + 1 && tbl.tail == Items()[|Items()| - 1]
      && (bloom == null <==> bloomBits == 0)
      && (bloom != null ==> Screened(bloom, Elems(Items())) && bloom.bv as object != tbl.buckets)
    }

    // The second half of HASH_DELETE: the item leaves its bucket.
    method Leave(del: Node<D>)
      requires Leaving(del)
      modifies tbl, tbl.buckets, Elems(Items())`hhNext, Elems(Items())`hhPrev, del`hhNext, del`hhPrev
      ensures Valid()
    {
      LeaveBucket(del);
      tbl.numItems := tbl.numItems - 1;
    }

    method LeaveBucket(del: Node<D>)
      requires tbl != null && InTable(tbl, tbl.members) && del in tbl.members
      modifies tbl`chains, tbl`members, tbl.buckets, tbl.members`hhNext, tbl.members`hhPrev
      ensures InTable(tbl, old(tbl.members) - {del})
    {
      assert del.hashv == hash(del.data);
      var bkt := And(del.hashv, tbl.numBuckets - 1);
      BucketIs(del.hashv);
      tbl.DelInBkt(hash, bkt, del);
    }

    // HASH_SRT
    method Sort(cmp: Cmp<D>)
      requires Valid() && TotalPreorder(cmp)
      modifies app, Elems(Items())`next, Elems(Items())`prev, tbl
      ensures Valid() && StableSortOf(cmp, DataOf, old(Items()), Items())
      ensures Chains() == old(Chains()) && forall key :: Answer(key) == FirstInBucket(keyOf, hashFn, old(Chains()), key)
      ensures old(Unique()) ==> Unique() && Map() == old(Map())
    {
      SortItems(cmp);
      BottomUpIsStableSort(cmp, DataOf, old(Items()));
      if old(Unique()) {
        SortKeepsMap(keyOf, old(Items()), Items());
      }
    }

    method SortItems(cmp: Cmp<D>)
      requires Valid()
      modifies app, Elems(Items())`next, Elems(Items())`prev, tbl
      ensures Valid() && Items() == BottomUp(cmp, DataOf, old(Items()), 1)
      ensures Chains() == old(Chains())
    {
      if app.head != null {
        var tail := app.SortInOrder(cmp);
        tbl.tail := tail;
        Reordered();
      }
    }

    // The same items in another order.
    twostate lemma Reordered()
      requires old(Valid()) && old(tbl) != null && app.Valid0() && Items() != []
      requires Elems(Items()) == old(Elems(Items())) && |Items()| == |old(Items())|
      requires unchanged(this) && unchanged(tbl`buckets, tbl`numBuckets, tbl`log2NumBuckets)
      requires unchanged(tbl`chains, tbl`members, tbl`numItems) && unchanged(tbl.buckets)
      requires tbl.tail == Items()[|Items()| - 1]
      requires unchanged(Elems(Items())`hhNext, Elems(Items())`hhPrev, Elems(Items())`hashv)
      requires bloom != null ==> unchanged(bloom) && unchanged(bloom.bv)
      ensures Valid()
    {
    }
  }

  lemma ElemsRemove<D>(s: seq<Node<D>>, k: nat)
    requires k < |s| && Distinct(s)
    ensures s[k] !in Remove(s, k)
    ensures Elems(s) == Elems(Remove(s, k)) + {s[k]}
  {
    forall n | n in s && n != s[k] ensures n in Remove(s, k) {
      var i :| 0 <= i < |s| && s[i] == n;
      assert Remove(s, k)[if i < k then i else i - 1] == n;
    }
  }

  // ---------- what the operations mean together ----------

  // The sum of the bucket counts.
  ghost function CountUpTo<D>(chains: seq<seq<Node<D>>>, n: nat): nat
    requires n <= |chains|
  {
    if n == 0 then 0 else CountUpTo(chains, n - 1) + |chains[n - 1]|
  }

  ghost function MembersUpTo<D>(chains: seq<seq<Node<D>>>, n: nat): set<Node<D>>
    requires n <= |chains|
  {
    if n == 0 then {} else MembersUpTo(chains, n - 1) + Elems(chains[n - 1])
  }

  lemma {:induction false} DistinctCard<D>(s: seq<Node<D>>)
    requires Distinct(s)
    ensures |Elems(s)| == |s|
  {
    if s == [] {
      assert Elems(s) == {};
    } else {
      var k := |s| - 1;
      DistinctCard(s[..k]);
      assert s == s[..k] + [s[k]];
      assert Elems(s) == Elems(s[..k]) + {s[k]};
      assert s[k] !in s[..k];
    }
  }

  lemma {:induction false} MembersAtHome<D>(hash: D -> u32, chains: seq<seq<Node<D>>>, members: set<Node<D>>, n: nat)
    requires n <= |chains| && AtHome(hash, chains, members)
    ensures forall e :: e in MembersUpTo(chains, n) ==> e in members && Rem(hash(e.data), |chains|) < n
  {
    if n > 0 {
      MembersAtHome(hash, chains, members, n - 1);
    }
  }

  lemma {:induction false} ChainIn<D>(chains: seq<seq<Node<D>>>, n: nat, b: nat)
    requires b < n <= |chains|
    ensures Elems(chains[b]) <= MembersUpTo(chains, n)
  {
    if b < n - 1 {
      ChainIn(chains, n - 1, b);
    }
  }

  lemma DisjointCard<T>(a: set<T>, b: set<T>)
    requires a !! b
    ensures |a + b| == |a| + |b|
  {
  }

  lemma ChainApart<D>(hash: D -> u32, chains: seq<seq<Node<D>>>, members: set<Node<D>>, b: nat)
    requires b < |chains| && AtHome(hash, chains, members)
    ensures MembersUpTo(chains, b) !! Elems(chains[b])
  {
    MembersAtHome(hash, chains, members, b);
    forall e | e in Elems(chains[b]) ensures e !in MembersUpTo(chains, b) {
      var k :| 0 <= k < |chains[b]| && chains[b][k] == e;
      assert Rem(hash(chains[b][k].data), |chains|) == b;
    }
  }

  lemma {:induction false} CountIsCard<D>(hash: D -> u32, chains: seq<seq<Node<D>>>, members: set<Node<D>>, n: nat)
    requires n <= |chains| && AtHome(hash, chains, members)
    requires forall b :: 0 <= b < |chains| ==> Distinct(chains[b])
    ensures CountUpTo(chains, n) == |MembersUpTo(chains, n)|
  {
    if n > 0 {
      CountIsCard(hash, chains, members, n - 1);
      DistinctCard(chains[n - 1]);
      ChainApart(hash, chains, members, n - 1);
      DisjointCard(MembersUpTo(chains, n - 1), Elems(chains[n - 1]));
    }
  }

  // HASH_FSCK: the bucket counts, the chains and the application order agree on the number of items.
  lemma CountsAgree<K, D(!new)>(h: Hash<K, D>)
    requires h.Valid() && h.tbl != null
    ensures CountUpTo(h.tbl.chains, h.tbl.numBuckets) == h.tbl.numItems == |h.Items()|
    ensures forall b :: 0 <= b < h.tbl.numBuckets ==> h.tbl.buckets[b].count == |h.tbl.chains[b]|
  {
    var t := h.tbl;
    CountIsCard(h.hash, t.chains, t.members, t.numBuckets);
    DistinctCard(h.Items());
    MembersAtHome(h.hash, t.chains, t.members, t.numBuckets);
    forall e: Node<D> | e in t.members ensures e in MembersUpTo(t.chains, t.numBuckets) {
      assert e.hashv == h.hash(e.data);
      ChainIn(t.chains, t.numBuckets, Rem(h.hash(e.data), |t.chains|));
    }
    assert MembersUpTo(t.chains, t.numBuckets) == t.members;
  }

  // The insertion-ordered map that a hash with unique keys stands for.
  ghost predicate UniqueKeys<K, D>(keyOf: D -> K, items: seq<Node<D>>) {
    forall i, j :: 0 <= i < j < |items| ==> keyOf(items[i].data) != keyOf(items[j].data)
  }

  ghost function AsMap<K, D>(keyOf: D -> K, items: seq<Node<D>>): map<K, Node<D>> {
    if items == [] then map[]
    else AsMap(keyOf, items[..|items| - 1])[keyOf(items[|items| - 1].data) := items[|items| - 1]]
  }

  // m has an entry for every item, and no others.
  ghost predicate Entries<K, D>(keyOf: D -> K, items: set<Node<D>>, m: map<K, Node<D>>) {
    && (forall e :: e in items ==> keyOf(e.data) in m && m[keyOf(e.data)] == e)
    && (forall k :: k in m ==> m[k] in items && keyOf(m[k].data) == k)
  }

  lemma SameEntries<K, D>(keyOf: D -> K, items: set<Node<D>>, m: map<K, Node<D>>, m': map<K, Node<D>>)
    requires Entries(keyOf, items, m) && Entries(keyOf, items, m')
    ensures m == m'
  {
    forall k | k in m ensures k in m' && m'[k] == m[k] {
      assert m[k] in items;
    }
    forall k | k in m' ensures k in m {
      assert m'[k] in items;
    }
  }

  lemma {:induction false} MapOfItems<K, D>(keyOf: D -> K, items: seq<Node<D>>)
    requires UniqueKeys(keyOf, items)
    ensures Entries(keyOf, Elems(items), AsMap(keyOf, items))
  {
    if items != [] {
      var n := |items| - 1;
      MapOfItems(keyOf, items[..n]);
      assert items == items[..n] + [items[n]];
      assert Elems(items) == Elems(items[..n]) + {items[n]};
      forall e | e in Elems(items[..n]) ensures keyOf(e.data) != keyOf(items[n].data) {
        var i :| 0 <= i < n && items[..n][i] == e;
        assert items[i] == e;
      }
    }
  }

  // With unique keys what HASH_FIND may return, by its contract, is the map's entry and nothing else.
  lemma {:induction false} FindIsLookup<K, D>(keyOf: D -> K, items: seq<Node<D>>, key: K, out: Node?<D>)
    requires UniqueKeys(keyOf, items)
    requires out == null <==> forall e :: e in items ==> keyOf(e.data) != key
    requires out != null ==> out in items && keyOf(out.data) == key
    ensures key in AsMap(keyOf, items) <==> out != null
    ensures out != null ==> AsMap(keyOf, items)[key] == out
  {
    var m := AsMap(keyOf, items);
    MapOfItems(keyOf, items);
    assert key in m ==> m[key] in Elems(items);
    if out != null {
      assert out in Elems(items);
    }
  }

  // HASH_ADD of a new key extends the map; HASH_DELETE removes one key.
  lemma {:induction false} AddIsInsert<K, D>(keyOf: D -> K, items: seq<Node<D>>, add: Node<D>)
    requires UniqueKeys(keyOf, items) && keyOf(add.data) !in AsMap(keyOf, items)
    ensures UniqueKeys(keyOf, items + [add])
    ensures AsMap(keyOf, items + [add]) == AsMap(keyOf, items)[keyOf(add.data) := add]
  {
    MapOfItems(keyOf, items);
    assert (items + [add])[..|items|] == items;
    forall i | 0 <= i < |items| ensures keyOf(items[i].data) != keyOf(add.data) {
      assert items[i] in Elems(items);
    }
  }

  lemma {:induction false} DeleteIsRemove<K, D>(keyOf: D -> K, items: seq<Node<D>>, k: nat)
    requires UniqueKeys(keyOf, items) && k < |items|
    ensures UniqueKeys(keyOf, Remove(items, k))
    ensures AsMap(keyOf, Remove(items, k)) == AsMap(keyOf, items) - {keyOf(items[k].data)}
  {
    var t := Remove(items, k);
    UniqueWithout(keyOf, items, k);
    MapOfItems(keyOf, items);
    MapOfItems(keyOf, t);
    ElemsRemove(items, k);
    EntriesWithout(keyOf, Elems(t), items[k], AsMap(keyOf, items));
    SameEntries(keyOf, Elems(t), AsMap(keyOf, t), AsMap(keyOf, items) - {keyOf(items[k].data)});
  }

  lemma UniqueWithout<K, D>(keyOf: D -> K, items: seq<Node<D>>, k: nat)
    requires UniqueKeys(keyOf, items) && k < |items|
    ensures UniqueKeys(keyOf, Remove(items, k)) && Distinct(items)
  {
    var t := Remove(items, k);
    forall i, j | 0 <= i < j < |t| ensures keyOf(t[i].data) != keyOf(t[j].data) {
      assert t[i] == items[if i < k then i else i + 1] && t[j] == items[if j < k then j else j + 1];
    }
    forall i, j | 0 <= i < j < |items| ensures items[i] != items[j] {
      assert keyOf(items[i].data) != keyOf(items[j].data);
    }
  }

  lemma EntriesWithout<K, D>(keyOf: D -> K, rest: set<Node<D>>, e: Node<D>, m: map<K, Node<D>>)
    requires e !in rest && Entries(keyOf, rest + {e}, m)
    ensures Entries(keyOf, rest, m - {keyOf(e.data)})
  {
    forall n | n in rest ensures keyOf(n.data) in m && keyOf(n.data) != keyOf(e.data) {
      assert n in rest + {e};
    }
  }

  // The map depends on the items alone, not on their order.
  lemma SortKeepsMap<K, D>(keyOf: D -> K, items: seq<Node<D>>, sorted: seq<Node<D>>)
    requires UniqueKeys(keyOf, items) && multiset(sorted) == multiset(items) && Distinct(sorted)
    ensures UniqueKeys(keyOf, sorted) && AsMap(keyOf, sorted) == AsMap(keyOf, items)
  {
    SameMultisetElems(sorted, items);
    MapOfItems(keyOf, items);
    forall i, j | 0 <= i < j < |sorted| ensures keyOf(sorted[i].data) != keyOf(sorted[j].data) {
      assert sorted[i] in Elems(sorted) && sorted[j] in Elems(sorted);
    }
    MapOfItems(keyOf, sorted);
    SameEntries(keyOf, Elems(items), AsMap(keyOf, sorted), AsMap(keyOf, items));
  }
}
