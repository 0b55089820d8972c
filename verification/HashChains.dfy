// The hash table of uthash.h: every item is in the application-order list and in the chain of its
// bucket at once. Buckets double when a chain grows too long; a Bloom filter may screen the searches.
module HashChains {
  import opened Seqs
  import opened Bits
  import opened UtList

  type u32 = x: nat | x < 0x1_0000_0000

  datatype Bucket<!D> = Bucket(hhHead: Node?<D>, count: nat, expandMult: nat)

  // A bucket and the chain of items that hangs off it.
  ghost predicate ChainOk<D>(bk: Bucket<D>, chain: seq<Node<D>>)
    reads Elems(chain)`hhNext, Elems(chain)`hhPrev
  {
    && Distinct(chain)
    && bk.hhHead == At(chain, 0)
    && bk.count == |chain|
    && (forall i {:trigger chain[i].hhNext} :: 0 <= i < |chain| ==> chain[i].hhNext == At(chain, i + 1))
    && (forall i {:trigger chain[i].hhPrev} :: 0 <= i < |chain| ==>
          chain[i].hhPrev == (if i == 0 then null else chain[i - 1]))
  }

  // Every item of a chain is a member and belongs to that bucket by its hash value.
  ghost predicate AtHome<D>(hash: D -> u32, chains: seq<seq<Node<D>>>, members: set<Node<D>>) {
    forall b, k {:trigger chains[b][k]} :: 0 <= b < |chains| && 0 <= k < |chains[b]| ==>
      chains[b][k] in members && Rem(hash(chains[b][k].data), |chains|) == b
  }

  ghost predicate Chained<D>(hash: D -> u32, buckets: array<Bucket<D>>, chains: seq<seq<Node<D>>>,
                             members: set<Node<D>>)
    reads buckets, members`hhNext, members`hhPrev
  {
    && |chains| == buckets.Length
    && AtHome(hash, chains, members)
    && (forall b :: 0 <= b < |chains| ==> Elems(chains[b]) <= members && ChainOk(buckets[b], chains[b]))
  }

  // Every member is in the chain of the bucket that its hash value names.
  ghost predicate Homed<D>(hash: D -> u32, chains: seq<seq<Node<D>>>, members: set<Node<D>>)
    requires |chains| > 0
    reads members`hashv
  {
    forall e {:trigger e.hashv} :: e in members ==>
      e.hashv == hash(e.data) && e in chains[Rem(hash(e.data), |chains|)]
  }

  lemma HomedPush<D>(hash: D -> u32, chains: seq<seq<Node<D>>>, members: set<Node<D>>, e: Node<D>)
    requires |chains| > 0 && Homed(hash, chains, members) && e.hashv == hash(e.data)
    ensures var b := Rem(hash(e.data), |chains|);
            Homed(hash, chains[b := [e] + chains[b]], members + {e})
  {
    var b := Rem(hash(e.data), |chains|);
    var chains' := chains[b := [e] + chains[b]];
    forall n | n in members + {e} ensures n.hashv == hash(n.data) && n in chains'[Rem(hash(n.data), |chains'|)] {
      assert n.hashv == hash(n.data);
      assert n == e ==> chains'[b][0] == n;
    }
  }

  // Put e at the head of the chain of bucket b.
  method PushFront<D>(ghost hash: D -> u32, buckets: array<Bucket<D>>, b: nat, e: Node<D>, mult: nat,
                      ghost chains: seq<seq<Node<D>>>, ghost members: set<Node<D>>)
    requires Chained(hash, buckets, chains, members) && b < buckets.Length
    requires e !in members && Rem(hash(e.data), buckets.Length) == b
    modifies buckets, e`hhNext, e`hhPrev, members`hhPrev
    ensures Chained(hash, buckets, chains[b := [e] + chains[b]], members + {e})
    ensures buckets[b].expandMult == mult && buckets[b].count == old(buckets[b].count) + 1
    ensures forall i :: 0 <= i < buckets.Length && i != b ==> buckets[i] == old(buckets[i])
  {
    var head := buckets[b].hhHead;
    e.hhPrev := null;
    e.hhNext := head;
    if head != null {
      head.hhPrev := e;
    }
    buckets[b] := Bucket(e, buckets[b].count + 1, mult);
    ghost var chains' := chains[b := [e] + chains[b]];
    forall c | 0 <= c < |chains'| ensures Elems(chains'[c]) <= members + {e} && ChainOk(buckets[c], chains'[c])
    {
      if c != b {
        assert forall k :: 0 <= k < |chains[c]| ==> chains[c][k] != e && chains[c][k] != head;
        assert old(ChainOk(buckets[c], chains[c]));
      }
    }
  }

  ghost function Remove<T>(s: seq<T>, k: nat): seq<T>
    requires k < |s|
  {
    s[..k] + s[k + 1..]
  }

  // Take the item at position k out of the chain of bucket b.
  method TakeOut<D>(ghost hash: D -> u32, buckets: array<Bucket<D>>, b: nat, del: Node<D>, ghost k: nat,
                    ghost chains: seq<seq<Node<D>>>, ghost members: set<Node<D>>)
    requires Chained(hash, buckets, chains, members)
    requires b < buckets.Length && k < |chains[b]| && chains[b][k] == del
    modifies buckets, members`hhNext, members`hhPrev
    ensures Chained(hash, buckets, chains[b := Remove(chains[b], k)], members - {del})
    ensures forall i :: 0 <= i < buckets.Length ==> buckets[i].expandMult == old(buckets[i].expandMult)
  {
    var bk := buckets[b];
    ghost var C := chains[b];
    var count := bk.count - 1;
    var first := bk.hhHead;
    if first == del {
      first := del.hhNext;
    }
    assert first == At(Remove(C, k), 0) by {
      assert C[0] == del <==> k == 0;
    }
    if del.hhPrev != null {
      del.hhPrev.hhNext := del.hhNext;
    }
    if del.hhNext != null {
      del.hhNext.hhPrev := del.hhPrev;
    }
    buckets[b] := Bucket(first, count, bk.expandMult);
    ghost var chains' := chains[b := Remove(C, k)];
    forall c | 0 <= c < |chains'| ensures Elems(chains'[c]) <= members - {del} && ChainOk(buckets[c], chains'[c])
    {
      if c != b {
        assert forall i, j {:trigger chains[c][i], C[j]} :: 0 <= i < |chains[c]| && 0 <= j < |C| ==>
               chains[c][i] != C[j];
        assert forall i {:trigger chains[c][i]} :: 0 <= i < |chains[c]| ==> chains[c][i] != C[k];
        assert old(ChainOk(buckets[c], chains[c]));
        assert k > 0 ==> forall i {:trigger chains[c][i]} :: 0 <= i < |chains[c]| ==> chains[c][i] != C[k - 1];
        assert k + 1 < |C| ==> forall i {:trigger chains[c][i]} :: 0 <= i < |chains[c]| ==> chains[c][i] != C[k + 1];
      } else {
        assert Distinct(Remove(C, k));
      }
    }
  }

  lemma HomedRemove<D>(hash: D -> u32, chains: seq<seq<Node<D>>>, members: set<Node<D>>, b: nat, k: nat)
    requires |chains| > 0 && Homed(hash, chains, members) && b < |chains| && k < |chains[b]|
    ensures Homed(hash, chains[b := Remove(chains[b], k)], members - {chains[b][k]})
  {
    var chains' := chains[b := Remove(chains[b], k)];
    forall e | e in members - {chains[b][k]}
      ensures e.hashv == hash(e.data) && e in chains'[Rem(hash(e.data), |chains'|)]
    {
      assert e.hashv == hash(e.data);
      if e in chains[b] {
        var i :| 0 <= i < |chains[b]| && chains[b][i] == e;
        assert Remove(chains[b], k)[if i < k then i else i - 1] == e;
      }
    }
  }

  // The first item of a chain with the key, null if there is none.
  ghost function FirstWithKey<K, D>(keyOf: D -> K, chain: seq<Node<D>>, key: K): Node?<D> {
    if chain == [] then null
    else if keyOf(chain[0].data) == key then chain[0]
    else FirstWithKey(keyOf, chain[1..], key)
  }

  lemma {:induction false} FirstWithKeyIs<K, D>(keyOf: D -> K, chain: seq<Node<D>>, key: K)
    ensures var e := FirstWithKey(keyOf, chain, key);
            && (e == null ==> forall n :: n in chain ==> keyOf(n.data) != key)
            && (e != null ==> e in chain && keyOf(e.data) == key)
  {
    if chain != [] {
      FirstWithKeyIs(keyOf, chain[1..], key);
      CutHead(chain);
    }
  }

  // ---------- rehashing ----------

  // How many of the items stand beyond position `ideal` in their chain.
  ghost function Excess<T>(chains: seq<seq<T>>, ideal: nat): nat {
    if chains == [] then 0
    else Excess(chains[1..], ideal) + (if |chains[0]| > ideal then |chains[0]| - ideal else 0)
  }

  lemma {:induction false} ExcessStep<T>(chains: seq<seq<T>>, ideal: nat, b: nat, e: T)
    requires b < |chains|
    ensures Excess(chains[b := [e] + chains[b]], ideal)
         == Excess(chains, ideal) + (if |chains[b]| >= ideal then 1 else 0)
  {
    var chains' := chains[b := [e] + chains[b]];
    if b == 0 {
      assert chains'[1..] == chains[1..];
    } else {
      ExcessStep(chains[1..], ideal, b - 1, e);
      assert chains'[1..] == chains[1..][b - 1 := [e] + chains[b]];
    }
  }

  lemma {:induction false} ExcessNone<T>(chains: seq<seq<T>>, ideal: nat)
    requires forall b :: 0 <= b < |chains| ==> chains[b] == []
    ensures Excess(chains, ideal) == 0
  {
    if chains != [] {
      ExcessNone(chains[1..], ideal);
    }
  }

  // The factor by which a bucket may outgrow the threshold before it asks for an expansion.
  function ExpandMult(count: nat, ideal: nat): nat {
    if count > ideal && ideal > 0 then Quo(count, ideal) else 0
  }

  ghost predicate Scaled<D>(buckets: array<Bucket<D>>, ideal: nat)
    reads buckets
  {
    forall b :: 0 <= b < buckets.Length ==> buckets[b].expandMult == ExpandMult(buckets[b].count, ideal)
  }

  class Table<D> {
    var buckets: array<Bucket<D>>
    var log2NumBuckets: nat
    var numBuckets: nat
    var numItems: nat
    var tail: Node<D>
    var idealChainMaxlen: nat
    var nonidealItems: nat
    var ineffExpands: nat
    var noexpand: bool
    ghost var chains: seq<seq<Node<D>>>
    ghost var members: set<Node<D>>

    ghost predicate Valid(hash: D -> u32)
      reads this`buckets, this`numBuckets, this`log2NumBuckets, this`chains, this`members, buckets
      reads members`hhNext, members`hhPrev, members`hashv
    {
      && numBuckets == buckets.Length == Pow2(log2NumBuckets)
      && Chained(hash, buckets, chains, members)
      && Homed(hash, chains, members)
    }

    // HASH_MAKE_TABLE
    constructor (hash: D -> u32, head: Node<D>)
      ensures Valid(hash) && fresh(buckets) && tail == head
      ensures members == {} && numItems == 0 && numBuckets == 32
    {
      tail := head;
      numBuckets, log2NumBuckets := 32, 5;
      buckets := new Bucket<D>[32](_ => Bucket(null, 0, 0));
      numItems, idealChainMaxlen, nonidealItems, ineffExpands, noexpand := 0, 0, 0, 0, false;
      chains, members := seq(32, _ => []), {};
      new;
      assert Pow2(5) == 32;
    }

    // HASH_ADD_TO_BKT, with the expansion that it may set off
    method AddToBkt(ghost hash: D -> u32, bkt: nat, add: Node<D>)
      requires Valid(hash) && add !in members && numItems > 0
      requires add.hashv == hash(add.data) && bkt == Rem(hash(add.data), numBuckets)
      modifies this, buckets, members`hhNext, members`hhPrev, add`hhNext, add`hhPrev
      ensures Valid(hash) && members == old(members) + {add} && numItems == old(numItems) && tail == old(tail)
      ensures buckets == old(buckets) || fresh(buckets)
      ensures var full := old(buckets[bkt].count) + 1 >= (old(buckets[bkt].expandMult) + 1) * 10;
              numBuckets == if full && !old(noexpand) then 2 * old(numBuckets) else old(numBuckets)
    {
      Attach(hash, bkt, add);
      if buckets[bkt].count >= (buckets[bkt].expandMult + 1) * 10 && !noexpand {
        Expand(hash);
      }
    }

    method Attach(ghost hash: D -> u32, bkt: nat, add: Node<D>)
      requires Valid(hash) && add !in members
      requires add.hashv == hash(add.data) && bkt == Rem(hash(add.data), numBuckets)
      modifies this`chains, this`members, buckets, members`hhNext, members`hhPrev, add`hhNext, add`hhPrev
      ensures Valid(hash) && members == old(members) + {add} && buckets == old(buckets)
      ensures buckets[bkt].count == old(buckets[bkt].count) + 1
      ensures buckets[bkt].expandMult == old(buckets[bkt].expandMult)
    {
      PushFront(hash, buckets, bkt, add, buckets[bkt].expandMult, chains, members);
      HomedPush(hash, chains, members, add);
      chains, members := chains[bkt := [add] + chains[bkt]], members + {add};
    }

    // HASH_DEL_IN_BKT
    method DelInBkt(ghost hash: D -> u32, bkt: nat, del: Node<D>)
      requires Valid(hash) && del in members && bkt == Rem(hash(del.data), numBuckets)
      modifies this`chains, this`members, buckets, members`hhNext, members`hhPrev
      ensures Valid(hash) && members == old(members) - {del}
    {
      assert del.hashv == hash(del.data);
      ghost var k :| 0 <= k < |chains[bkt]| && chains[bkt][k] == del;
      HomedRemove(hash, chains, members, bkt, k);
      TakeOut(hash, buckets, bkt, del, k, chains, members);
      chains, members := chains[bkt := Remove(chains[bkt], k)], members - {del};
    }

    // HASH_FIND_IN_BKT
    method FindInBkt<K(==)>(ghost hash: D -> u32, keyOf: D -> K, bkt: nat, key: K) returns (out: Node?<D>)
      requires Valid(hash) && bkt < numBuckets
      ensures out == FirstWithKey(keyOf, chains[bkt], key)
    {
      out := buckets[bkt].hhHead;
      ghost var i := 0;
      while out != null
        invariant i <= |chains[bkt]| && out == At(chains[bkt], i)
        invariant FirstWithKey(keyOf, chains[bkt][i..], key) == FirstWithKey(keyOf, chains[bkt], key)
        decreases |chains[bkt]| - i
      {
        if keyOf(out.data) == key {
          break;
        }
        out := out.hhNext;
        i := i + 1;
      }
    }

    // What an expansion records: how many items stand too far back, and for each bucket its factor.
    ghost predicate Measured(buckets: array<Bucket<D>>, chains: seq<seq<Node<D>>>)
      reads this`idealChainMaxlen, this`nonidealItems, buckets
    {
      && nonidealItems == Excess(chains, idealChainMaxlen)
      && Scaled(buckets, idealChainMaxlen)
    }

    // HASH_EXPAND_BUCKETS
    method Expand(ghost hash: D -> u32)
      requires Valid(hash) && numItems > 0
      modifies this, members`hhNext, members`hhPrev
      ensures Valid(hash) && fresh(buckets)
      ensures members == old(members) && numItems == old(numItems) && tail == old(tail)
      ensures numBuckets == 2 * old(numBuckets)
      ensures idealChainMaxlen == CeilDiv(numItems, numBuckets)
      ensures Measured(buckets, chains)
      ensures ineffExpands == (if nonidealItems > numItems / 2 then old(ineffExpands) + 1 else 0)
      ensures noexpand == (old(noexpand) || ineffExpands > 1)
    {
      Redistribute(hash);
      JudgeExpansion(hash);
    }

    method Redistribute(ghost hash: D -> u32)
      requires Valid(hash) && numItems > 0
      modifies this`buckets, this`numBuckets, this`log2NumBuckets, this`chains, this`idealChainMaxlen,
               this`nonidealItems
      modifies members`hhNext, members`hhPrev
      ensures Valid(hash) && fresh(buckets) && numBuckets == 2 * old(numBuckets)
      ensures idealChainMaxlen == CeilDiv(numItems, numBuckets)
      ensures Measured(buckets, chains)
    {
      var newBuckets := EmptyBuckets(2 * numBuckets);
      idealChainMaxlen := IdealChain();
      ghost var newChains;
      nonidealItems, newChains := MoveAll(hash, newBuckets);
      Adopt(hash, newBuckets, newChains);
    }

    // The new bucket array takes the place of the old one.
    method Adopt(ghost hash: D -> u32, newBuckets: array<Bucket<D>>, ghost newChains: seq<seq<Node<D>>>)
      requires numBuckets == Pow2(log2NumBuckets) && newBuckets.Length == 2 * numBuckets
      requires Chained(hash, newBuckets, newChains, members)
      requires Homed(hash, newChains, members)
      requires Measured(newBuckets, newChains)
      modifies this`buckets, this`numBuckets, this`log2NumBuckets, this`chains
      ensures Valid(hash) && buckets == newBuckets && numBuckets == 2 * old(numBuckets)
      ensures Measured(buckets, chains)
    {
      numBuckets := numBuckets * 2;
      log2NumBuckets := log2NumBuckets + 1;
      buckets := newBuckets;
      chains := newChains;
    }

    // Two expansions in a row that leave more than half of the items badly placed stop all further ones.
    method JudgeExpansion(ghost hash: D -> u32)
      requires Valid(hash) && Measured(buckets, chains)
      modifies this`ineffExpands, this`noexpand
      ensures Valid(hash) && Measured(buckets, chains)
      ensures ineffExpands == (if nonidealItems > numItems / 2 then old(ineffExpands) + 1 else 0)
      ensures noexpand == (old(noexpand) || ineffExpands > 1)
    {
      ineffExpands := if nonidealItems > Shr(numItems, 1) then ineffExpands + 1 else 0;
      if ineffExpands > 1 {
        noexpand := true;
      }
    }

    method EmptyBuckets(n: nat) returns (a: array<Bucket<D>>)
      ensures fresh(a) && a.Length == n && forall b :: 0 <= b < n ==> a[b] == Bucket(null, 0, 0)
    {
      a := new Bucket<D>[n](_ => Bucket(null, 0, 0));
    }

    // The ideal chain length after the expansion: the items spread evenly over twice the buckets.
    method IdealChain() returns (r: nat)
      requires numBuckets == Pow2(log2NumBuckets) && numItems > 0
      ensures r == CeilDiv(numItems, 2 * numBuckets) && r > 0
    {
      r := Shr(numItems, log2NumBuckets + 1) + (if And(numItems, numBuckets * 2 - 1) != 0 then 1 else 0);
      ShiftAndMaskCeil(numItems, log2NumBuckets + 1);
    }

    // The two loops of the expansion: every item of every chain moves to its new bucket.
    method MoveAll(ghost hash: D -> u32, newBuckets: array<Bucket<D>>)
      returns (nonideal: nat, ghost newChains: seq<seq<Node<D>>>)
      requires Valid(hash) && newBuckets.Length == 2 * numBuckets && newBuckets != buckets && idealChainMaxlen > 0
      requires forall b :: 0 <= b < newBuckets.Length ==> newBuckets[b] == Bucket(null, 0, 0)
      modifies newBuckets, members`hhNext, members`hhPrev
      ensures Chained(hash, newBuckets, newChains, members)
      ensures Homed(hash, newChains, members)
      ensures nonideal == Excess(newChains, idealChainMaxlen)
      ensures Scaled(newBuckets, idealChainMaxlen)
    {
      nonideal := 0;
      ghost var moved;
      newChains, moved := StartMoving(hash, newBuckets);
      var i := 0;
      while i < numBuckets
        invariant 0 <= i <= numBuckets
        invariant Moving(hash, newBuckets, newChains, moved, i, 0, nonideal)
      {
        moved, nonideal, newChains := MoveChain(hash, newBuckets, newChains, i, moved, nonideal);
        i := i + 1;
      }
      forall e | e in members ensures e in moved {
        assert e.hashv == hash(e.data);
      }
    }

    lemma StartMoving(hash: D -> u32, newBuckets: array<Bucket<D>>)
      returns (newChains: seq<seq<Node<D>>>, moved: set<Node<D>>)
      requires Valid(hash) && newBuckets.Length == 2 * numBuckets
      requires forall b :: 0 <= b < newBuckets.Length ==> newBuckets[b] == Bucket(null, 0, 0)
      ensures Moving(hash, newBuckets, newChains, moved, 0, 0, 0)
    {
      moved, newChains := {}, seq(newBuckets.Length, _ => []);
      ExcessNone(newChains, idealChainMaxlen);
    }

    method MoveChain(ghost hash: D -> u32, newBuckets: array<Bucket<D>>, ghost newChains: seq<seq<Node<D>>>, i: nat,
                     ghost moved: set<Node<D>>, nonideal: nat)
      returns (ghost moved': set<Node<D>>, nonideal': nat, ghost newChains': seq<seq<Node<D>>>)
      requires i < numBuckets == buckets.Length && Loading(hash, newBuckets)
      requires Moving(hash, newBuckets, newChains, moved, i, 0, nonideal)
      requires buckets[i].hhHead == At(chains[i], 0)
      requires Homed(hash, chains, members)
      modifies newBuckets, members`hhNext, members`hhPrev
      ensures Moving(hash, newBuckets, newChains', moved', i + 1, 0, nonideal')
    {
      moved', nonideal', newChains' := moved, nonideal, newChains;
      var thh := buckets[i].hhHead;
      ghost var j := 0;
      ghost var chain := chains[i];
      while thh != null
        invariant j <= |chain| && thh == At(chain, j)
        invariant Moving(hash, newBuckets, newChains', moved', i, j, nonideal')
        decreases |chain| - j
      {
        ghost var e: Node<D> := chain[j];
        var next := thh.hhNext;
        nonideal', newChains' := MoveOne(hash, newBuckets, newChains', thh, nonideal', moved', i, j);
        moved' := moved' + {e};
        thh := next;
        j := j + 1;
      }
    }

    ghost predicate Loading(hash: D -> u32, newBuckets: array<Bucket<D>>)
      reads this
    {
      && numBuckets == |chains| == Pow2(log2NumBuckets) && idealChainMaxlen > 0
      && AtHome(hash, chains, members)
      && (forall b :: 0 <= b < |chains| ==> Distinct(chains[b]))
      && newBuckets.Length == 2 * |chains| && newBuckets != buckets
    }

    // In the middle of the expansion: the items before position j of chain i have moved, and the others
    // still carry their links.
    ghost predicate Moving(hash: D -> u32, newBuckets: array<Bucket<D>>, newChains: seq<seq<Node<D>>>,
                           moved: set<Node<D>>, i: nat, j: nat, nonideal: nat)
      requires AtHome(hash, chains, members)
      reads this, newBuckets, members`hhNext, members`hhPrev, moved`hhNext, moved`hhPrev, moved`hashv
    {
      && moved <= members
      && Chained(hash, newBuckets, newChains, moved)
      && Scaled(newBuckets, idealChainMaxlen)
      && nonideal == Excess(newChains, idealChainMaxlen)
      && |newChains| > 0
      && Homed(hash, newChains, moved)
      && (forall b, k {:trigger chains[b][k]} :: 0 <= b < |chains| && 0 <= k < |chains[b]| ==>
            (chains[b][k] in moved <==> b < i || (b == i && k < j)))
      && (forall b, k {:trigger chains[b][k].hhNext} ::
            0 <= b < |chains| && 0 <= k < |chains[b]| && !(b < i || (b == i && k < j)) ==>
            chains[b][k].hhNext == At(chains[b], k + 1))
    }

    // One item moves to the head of its new chain.
    method MoveOne(ghost hash: D -> u32, newBuckets: array<Bucket<D>>, ghost newChains: seq<seq<Node<D>>>,
                   thh: Node<D>, nonideal: nat, ghost moved: set<Node<D>>,
                   ghost i: nat, ghost j: nat)
      returns (nonideal': nat, ghost newChains': seq<seq<Node<D>>>)
      requires Loading(hash, newBuckets)
      requires Moving(hash, newBuckets, newChains, moved, i, j, nonideal)
      requires i < |chains| && j < |chains[i]| && thh == chains[i][j] && thh.hashv == hash(thh.data)
      modifies newBuckets, members`hhNext, members`hhPrev
      ensures Moving(hash, newBuckets, newChains', moved + {thh}, i, j + 1, nonideal')
    {
      var bkt, mult;
      bkt, mult, nonideal' := NewPlace(hash, newBuckets, newChains, thh, nonideal);
      newChains' := newChains[bkt := [thh] + newChains[bkt]];
      PushFront(hash, newBuckets, bkt, thh, mult, newChains, moved);
      HomedPush(hash, newChains, moved, thh);
    }

    // The new bucket of an item, the bucket's new expand_mult, and the count of badly placed items.
    method NewPlace(ghost hash: D -> u32, newBuckets: array<Bucket<D>>, ghost newChains: seq<seq<Node<D>>>,
                    thh: Node<D>, nonideal: nat)
      returns (bkt: nat, mult: nat, nonideal': nat)
      requires numBuckets == Pow2(log2NumBuckets) && newBuckets.Length == 2 * numBuckets == |newChains|
      requires thh.hashv == hash(thh.data) && idealChainMaxlen > 0 && Scaled(newBuckets, idealChainMaxlen)
      requires forall b :: 0 <= b < |newChains| ==> newBuckets[b].count == |newChains[b]|
      requires nonideal == Excess(newChains, idealChainMaxlen)
      ensures bkt == Rem(hash(thh.data), newBuckets.Length)
      ensures mult == ExpandMult(newBuckets[bkt].count + 1, idealChainMaxlen)
      ensures nonideal' == Excess(newChains[bkt := [thh] + newChains[bkt]], idealChainMaxlen)
    {
      bkt := And(thh.hashv, numBuckets * 2 - 1);
      AndMask(thh.hashv, log2NumBuckets + 1);
      QuoRem(thh.hashv, newBuckets.Length);
      ExcessStep(newChains, idealChainMaxlen, bkt, thh);
      var count := newBuckets[bkt].count + 1;
      mult := newBuckets[bkt].expandMult;
      nonideal' := nonideal;
      if count > idealChainMaxlen {
        nonideal' := nonideal' + 1;
        mult := count / idealChainMaxlen;
        QuoRem(count, idealChainMaxlen);
      }
    }
  }
}
