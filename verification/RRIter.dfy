// Going through the answer records of a reply: dns_initparse, dns_rewind and dns_nextrr.
module RRIter {
  import opened Seqs
  import opened DomainNames
  import opened DnText
  import opened Packets

  const T_CNAME := 5
  const ANY := 255
  const MAXTTL := 0xffffffff

  function Get16(s: seq<byte>, pos: nat): nat
    requires pos + 2 <= |s|
  {
    var hi: nat := s[pos];
    var lo: nat := s[pos + 1];
    hi * 256 + lo
  }

  function Get32(s: seq<byte>, pos: nat): nat
    requires pos + 4 <= |s|
  {
    Get16(s, pos) * 0x10000 + Get16(s, pos + 2)
  }

  // dns_numan
  function NumAn(pkt: seq<byte>): nat
    requires |pkt| >= HSIZE
  {
    Get16(pkt, 6)
  }

  // ---------- the records of a packet ----------

  // A resource record (section 3.2.1 of RFC 1035). Its data are the bytes dptr..dend of the packet;
  // `data` is the name they consist of, if they do.
  datatype Record = Record(owner: Labels, typ: nat, cls: nat, ttl: nat, dptr: nat, dend: nat, data: Option<Labels>)

  ghost function DataName(pkt: seq<byte>, dptr: nat, dend: nat): (r: Option<Labels>)
    ensures r.Some? ==> Labelled(r.value)
  {
    var e := Expand(pkt, dptr, MAXJUMPS);
    if Fits(e, MAXDN) && NextPos(pkt, dptr) == dend then e else None
  }

  ghost function Decode(pkt: seq<byte>, pos: nat): (r: Option<Record>)
    ensures r.Some? ==> pos < r.value.dptr <= r.value.dend <= |pkt| && Labelled(r.value.owner)
    ensures r.Some? ==> r.value.ttl <= MAXTTL && r.value.data == DataName(pkt, r.value.dptr, r.value.dend)
  {
    var e := Expand(pkt, pos, MAXJUMPS);
    if !Fits(e, MAXDN) then None
    else
      NextPosBound(pkt, pos, MAXJUMPS);
      var cur := NextPos(pkt, pos);
      if cur + 10 > |pkt| || cur + 10 + Get16(pkt, cur + 8) > |pkt| then None
      else
        var dend := cur + 10 + Get16(pkt, cur + 8);
        Some(Record(e.value, Get16(pkt, cur), Get16(pkt, cur + 2), Get32(pkt, cur + 4),
                    cur + 10, dend, DataName(pkt, cur + 10, dend)))
  }

  // Up to n records from pos on, before the first malformed one.
  ghost function Records(pkt: seq<byte>, pos: nat, n: nat): (r: seq<Record>)
    ensures |r| <= n
    decreases n
  {
    if n == 0 then []
    else match Decode(pkt, pos)
      case None => []
      case Some(rr) => [rr] + Records(pkt, rr.dend, n - 1)
  }

  // ---------- which records are selected ----------

  // What is asked for: any owner, or the owner with this name; `payload` if it is the question name
  // inside the packet itself. Type and class 0 stand for any.
  datatype Asked = Anything | Name(labels: Labels, payload: bool)

  datatype Wish = Wish(typ: nat, cls: nat)

  ghost predicate Owned(a: Asked, rr: Record) {
    a == Anything || SameName(a.labels, rr.owner)
  }

  predicate Wanted(w: Wish, rr: Record) {
    (w.cls == 0 || w.cls == rr.cls) && (w.typ == 0 || w.typ == rr.typ)
  }

  ghost predicate Hit(w: Wish, a: Asked, rr: Record) {
    Owned(a, rr) && Wanted(w, rr)
  }

  // An alias of the name asked for.
  ghost predicate Alias(w: Wish, a: Asked, rr: Record) {
    a.Name? && Owned(a, rr) && !Wanted(w, rr) && rr.typ == T_CNAME
  }

  // The records selected, the smallest ttl among them and the aliases followed, the name asked for in
  // the end, and whether something malformed stopped the selection.
  datatype Selection = Selection(rrs: seq<Record>, ttl: nat, name: Asked, bad: bool) {
    function Put(rr: Record): Selection { this.(rrs := [rr] + rrs, ttl := Min(rr.ttl, ttl)) }
    function Lower(t: nat): Selection { this.(ttl := Min(t, ttl)) }
  }

  // One pass over the records of a packet, `whole` if none behind them is malformed. Aliases are
  // followed only before the first hit.
  ghost function Scan(w: Wish, rrs: seq<Record>, whole: bool, a: Asked, found: bool): Selection
    decreases |rrs|
  {
    if rrs == [] then Selection([], MAXTTL, a, !whole)
    else if Hit(w, a, rrs[0]) then Scan(w, rrs[1..], whole, a, true).Put(rrs[0])
    else if Alias(w, a, rrs[0]) && !found then
      match rrs[0].data
      case None => Selection([], MAXTTL, a, true)
      case Some(t) => Scan(w, rrs[1..], whole, Name(t, false), false).Lower(rrs[0].ttl)
    else Scan(w, rrs[1..], whole, a, found)
  }

  // ---------- the selection as a filter ----------

  ghost function Hits(w: Wish, a: Asked, rrs: seq<Record>): seq<Record> {
    if rrs == [] then []
    else (if Hit(w, a, rrs[0]) then [rrs[0]] else []) + Hits(w, a, rrs[1..])
  }

  // The aliases on the way through these records.
  ghost function Aliases(w: Wish, a: Asked, rrs: seq<Record>): (r: seq<Record>)
    ensures forall rr :: rr in r ==> rr.data.Some?
    decreases |rrs|
  {
    if rrs == [] then []
    else if Alias(w, a, rrs[0]) && rrs[0].data.Some? then
      [rrs[0]] + Aliases(w, Name(rrs[0].data.value, false), rrs[1..])
    else Aliases(w, a, rrs[1..])
  }

  // The name asked for behind these records.
  ghost function NameAfter(w: Wish, a: Asked, rrs: seq<Record>): Asked {
    var followed := Aliases(w, a, rrs);
    if followed == [] then a else Name(followed[|followed| - 1].data.value, false)
  }

  function MinTtl(rrs: seq<Record>): (t: nat)
    ensures t <= MAXTTL
  {
    if rrs == [] then MAXTTL else Min(rrs[0].ttl, MinTtl(rrs[1..]))
  }

  lemma {:induction false} AfterFirstHit(w: Wish, rrs: seq<Record>, whole: bool, a: Asked)
    ensures Scan(w, rrs, whole, a, true) == Selection(Hits(w, a, rrs), MinTtl(Hits(w, a, rrs)), a, !whole)
    decreases |rrs|
  {
    if rrs != [] {
      AfterFirstHit(w, rrs[1..], whole, a);
      var rest := Hits(w, a, rrs[1..]);
      assert ([rrs[0]] + rest)[1..] == rest && [] + rest == rest;
    }
  }

  // The records split at m: none before m is a hit for the name asked for at that point, and from m on
  // the selected records are exactly the hits for the name reached by following the aliases before m.
  // The selection stops at m when the record there is an alias with malformed data.
  ghost predicate SplitsAt(w: Wish, a: Asked, rrs: seq<Record>, m: nat) {
    && m <= |rrs|
    && (forall i :: 0 <= i < m ==> !Hit(w, NameAfter(w, a, rrs[..i]), rrs[i]))
    && (m < |rrs| ==> StopsAt(w, NameAfter(w, a, rrs[..m]), rrs[m]))
  }

  ghost predicate StopsAt(w: Wish, a: Asked, rr: Record) {
    Hit(w, a, rr) || (Alias(w, a, rr) && rr.data.None?)
  }

  ghost function Filtered(w: Wish, a: Asked, rrs: seq<Record>, whole: bool, m: nat): Selection
    requires m <= |rrs|
  {
    FromThere(w, NameAfter(w, a, rrs[..m]), MinTtl(Aliases(w, a, rrs[..m])), rrs[m..], whole)
  }

  // The hits for b among these records, unless the first of them is no hit.
  ghost function FromThere(w: Wish, b: Asked, low: nat, tail: seq<Record>, whole: bool): Selection {
    if tail != [] && !Hit(w, b, tail[0]) then Selection([], low, b, true)
    else Selection(Hits(w, b, tail), Min(low, MinTtl(Hits(w, b, tail))), b, !whole)
  }

  lemma {:induction false} ScanIsFilter(w: Wish, rrs: seq<Record>, whole: bool, a: Asked) returns (m: nat)
    ensures SplitsAt(w, a, rrs, m) && Scan(w, rrs, whole, a, false) == Filtered(w, a, rrs, whole, m)
    decreases |rrs|
  {
    if rrs == [] || StopsAt(w, a, rrs[0]) {
      m := 0;
      FilteredAtZero(w, a, rrs, whole);
      if rrs != [] {
        AfterFirstHit(w, rrs, whole, a);
      }
    } else {
      var b := Next(w, a, rrs[0]);
      var k := ScanIsFilter(w, rrs[1..], whole, b);
      CutHead(rrs);
      OneMore(w, a, rrs[0], rrs[1..], whole, k);
      m := k + 1;
    }
  }

  // The name asked for behind a record.
  ghost function Next(w: Wish, a: Asked, rr: Record): Asked {
    if Alias(w, a, rr) && rr.data.Some? then Name(rr.data.value, false) else a
  }

  lemma FilteredAtZero(w: Wish, a: Asked, rrs: seq<Record>, whole: bool)
    requires rrs == [] || StopsAt(w, a, rrs[0])
    ensures SplitsAt(w, a, rrs, 0)
    ensures Filtered(w, a, rrs, whole, 0)
         == if rrs != [] && !Hit(w, a, rrs[0]) then Selection([], MAXTTL, a, true)
            else Selection(Hits(w, a, rrs), MinTtl(Hits(w, a, rrs)), a, !whole)
  {
    Whole(rrs);
    assert rrs[..0] == [];
  }

  lemma AliasesCons(w: Wish, a: Asked, rr: Record, rest: seq<Record>)
    ensures NameAfter(w, a, [rr] + rest) == NameAfter(w, Next(w, a, rr), rest)
    ensures Aliases(w, a, [rr] + rest)
         == (if Alias(w, a, rr) && rr.data.Some? then [rr] else []) + Aliases(w, Next(w, a, rr), rest)
  {
    assert ([rr] + rest)[1..] == rest;
    var f, g := Aliases(w, a, [rr] + rest), Aliases(w, Next(w, a, rr), rest);
    assert g != [] ==> f != [] && f[|f| - 1] == g[|g| - 1];
  }

  lemma OneMore(w: Wish, a: Asked, rr: Record, rest: seq<Record>, whole: bool, k: nat)
    requires !StopsAt(w, a, rr) && SplitsAt(w, Next(w, a, rr), rest, k)
    ensures SplitsAt(w, a, [rr] + rest, k + 1)
    ensures var s := Filtered(w, Next(w, a, rr), rest, whole, k);
            Filtered(w, a, [rr] + rest, whole, k + 1) == if Alias(w, a, rr) then s.Lower(rr.ttl) else s
  {
    OneMoreMiss(w, a, rr, rest, k);
    OneMoreFiltered(w, a, rr, rest, whole, k);
    CutBehind(rr, rest, k);
    AliasesCons(w, a, rr, rest[..k]);
  }

  lemma OneMoreFiltered(w: Wish, a: Asked, rr: Record, rest: seq<Record>, whole: bool, k: nat)
    requires !StopsAt(w, a, rr) && k <= |rest|
    ensures var s := Filtered(w, Next(w, a, rr), rest, whole, k);
            Filtered(w, a, [rr] + rest, whole, k + 1) == if Alias(w, a, rr) then s.Lower(rr.ttl) else s
  {
    CutBehind(rr, rest, k);
    AliasesCons(w, a, rr, rest[..k]);
    MinTtlCons(rr, Aliases(w, Next(w, a, rr), rest[..k]));
  }

  lemma OneMoreMiss(w: Wish, a: Asked, rr: Record, rest: seq<Record>, k: nat)
    requires !StopsAt(w, a, rr) && SplitsAt(w, Next(w, a, rr), rest, k)
    ensures forall i :: 0 <= i < k + 1 ==> !Hit(w, NameAfter(w, a, ([rr] + rest)[..i]), ([rr] + rest)[i])
  {
    var all := [rr] + rest;
    forall i | 0 <= i < k + 1 ensures !Hit(w, NameAfter(w, a, all[..i]), all[i]) {
      if i == 0 {
        assert all[..0] == [];
      } else {
        CutBehind(rr, rest, i - 1);
        AliasesCons(w, a, rr, rest[..i - 1]);
      }
    }
  }

  lemma CutBehind(rr: Record, rest: seq<Record>, k: nat)
    requires k <= |rest|
    ensures ([rr] + rest)[..k + 1] == [rr] + rest[..k] && ([rr] + rest)[k + 1..] == rest[k..]
  {
  }

  lemma MinTtlCons(rr: Record, rest: seq<Record>)
    ensures MinTtl([rr] + rest) == Min(rr.ttl, MinTtl(rest)) && [] + rest == rest
  {
    assert ([rr] + rest)[1..] == rest;
  }

  lemma {:induction false} ScanTtl(w: Wish, rrs: seq<Record>, whole: bool, a: Asked, found: bool)
    ensures Scan(w, rrs, whole, a, found).ttl <= MAXTTL
    decreases |rrs|
  {
    if rrs != [] {
      ScanTtl(w, rrs[1..], whole, Next(w, a, rrs[0]), found || Hit(w, a, rrs[0]));
      ScanTtl(w, rrs[1..], whole, a, found);
    }
  }

  // The selection from n records of a packet, from pos on.
  ghost function ScanFrom(pkt: seq<byte>, w: Wish, pos: nat, n: nat, a: Asked, found: bool): Selection {
    var rrs := Records(pkt, pos, n);
    Scan(w, rrs, |rrs| == n, a, found)
  }

  lemma ScanStep(pkt: seq<byte>, w: Wish, pos: nat, n: nat, a: Asked, found: bool)
    requires n > 0
    ensures ScanFrom(pkt, w, pos, n, a, found)
         == match Decode(pkt, pos)
            case None => Selection([], MAXTTL, a, true)
            case Some(rr) =>
              if Hit(w, a, rr) then ScanFrom(pkt, w, rr.dend, n - 1, a, true).Put(rr)
              else if Alias(w, a, rr) && !found && rr.data.None? then Selection([], MAXTTL, a, true)
              else if Alias(w, a, rr) && !found then
                ScanFrom(pkt, w, rr.dend, n - 1, Next(w, a, rr), false).Lower(rr.ttl)
              else ScanFrom(pkt, w, rr.dend, n - 1, a, found)
  {
    match Decode(pkt, pos) {
      case None =>
      case Some(rr) =>
        var rest := Records(pkt, rr.dend, n - 1);
        assert Records(pkt, pos, n)[1..] == rest;
    }
  }

  lemma {:induction false} SelectedInPacket(pkt: seq<byte>, w: Wish, pos: nat, n: nat, a: Asked, found: bool)
    ensures forall rr :: rr in ScanFrom(pkt, w, pos, n, a, found).rrs ==> rr.dptr <= rr.dend <= |pkt|
    decreases n
  {
    if n > 0 && Decode(pkt, pos).Some? {
      var rr := Decode(pkt, pos).value;
      ScanStep(pkt, w, pos, n, a, found);
      SelectedInPacket(pkt, w, rr.dend, n - 1, Next(w, a, rr), found || Hit(w, a, rr));
      SelectedInPacket(pkt, w, rr.dend, n - 1, a, found);
    }
  }

  // ---------- the iterator ----------

  // Where the name asked for is kept.
  datatype NameRef = NoName | Payload | Buffer | Given(dn: seq<byte>)

  // struct dns_rr
  class Rr {
    const dn: array<byte>
    var typ: nat
    var cls: nat
    var ttl: nat
    var dsz: nat
    var dptr: nat
    var dend: nat

    constructor ()
      ensures fresh(dn) && dn.Length == MAXDN + 1
    {
      dn := new byte[MAXDN + 1];
      typ, cls, ttl, dsz, dptr, dend := 0, 0, 0, 0, 0, 0;
    }

    // The record that has been read into this object.
    ghost predicate IsRecord(rr: Record)
      reads this, dn
    {
      && Terminated(dn[..], 0) && LabelsAt(dn[..], 0) == rr.owner
      && typ == rr.typ && cls == rr.cls && ttl == rr.ttl
      && dptr == rr.dptr && dend == rr.dend && dsz == rr.dend - rr.dptr
    }

    // The first half of a round of dns_nextrr.
    method Read(pkt: seq<byte>, cur0: nat) returns (ok: bool, cur: nat)
      requires dn.Length == MAXDN + 1
      modifies this, dn
      ensures ok <==> Decode(pkt, cur0).Some?
      ensures ok ==> IsRecord(Decode(pkt, cur0).value) && cur == dend
    {
      var r;
      r, cur := GetDn(pkt, cur0, dn, MAXDN);
      if r <= 0 {
        return false, cur;
      }
      WireReads(dn[..], r, Expand(pkt, cur0, MAXJUMPS).value);
      if cur + 10 > |pkt| {
        return false, cur;
      }
      typ := Get16(pkt, cur);
      cls := Get16(pkt, cur + 2);
      ttl := Get32(pkt, cur + 4);
      dsz := Get16(pkt, cur + 8);
      cur := cur + 10;
      dptr := cur;
      cur := cur + dsz;
      dend := cur;
      ok := cur <= |pkt|;
    }
  }

  lemma WireReads(dn: seq<byte>, r: nat, labels: Labels)
    requires Labelled(labels) && r == |Wire(labels)| <= |dn| && dn[..r] == Wire(labels)
    ensures Terminated(dn, 0) && LabelsAt(dn, 0) == labels
  {
    Prefix(Wire(labels), dn);
    LabelsOfWire([], labels, dn[r..]);
  }

  // struct dns_parse
  class Parse {
    const pkt: seq<byte>
    const ans: nat
    const wish: Wish
    const dnbuf: array<byte>
    var qdn: NameRef
    var cur: nat
    var rrl: nat
    var ttl: nat
    var nrr: nat

    ghost predicate Valid()
      reads this, dnbuf
    {
      |pkt| >= HSIZE && dnbuf.Length == MAXDN + 1 && ttl <= MAXTTL && Usable(qdn)
    }

    ghost predicate Usable(q: NameRef)
      reads dnbuf
    {
      match q
      case NoName => true
      case Payload => Terminated(pkt, HSIZE)
      case Buffer => Terminated(dnbuf[..], 0)
      case Given(dn) => Terminated(dn, 0)
    }

    ghost function NameOf(q: NameRef): Asked
      requires Usable(q)
      reads dnbuf
    {
      match q
      case NoName => Anything
      case Payload => Name(LabelsAt(pkt, HSIZE), true)
      case Buffer => Name(LabelsAt(dnbuf[..], 0), false)
      case Given(dn) => Name(LabelsAt(dn, 0), false)
    }

    // What the whole answer section selects for q.
    ghost function Answer(q: NameRef): Selection
      requires |pkt| >= HSIZE && Usable(q)
      reads dnbuf
    {
      ScanFrom(pkt, wish, ans, NumAn(pkt), NameOf(q), false)
    }

    // What is still to come, from the given position on; the ttl includes what has been seen.
    ghost function OutlookFrom(pos: nat, left: nat): Selection
      requires Valid()
      reads this, dnbuf
    {
      ScanFrom(pkt, wish, pos, left, NameOf(qdn), nrr > 0).Lower(ttl)
    }

    ghost function Outlook(): Selection
      requires Valid()
      reads this, dnbuf
    {
      OutlookFrom(cur, rrl)
    }

    // dns_initparse; `at` is the position behind the question name.
    constructor (pkt: seq<byte>, qdn: NameRef, at: nat)
      requires |pkt| >= HSIZE && at + 4 <= |pkt|
      requires match qdn case NoName => true case Payload => Terminated(pkt, HSIZE)
                         case Buffer => false case Given(dn) => Terminated(dn, 0)
      ensures Valid() && fresh(dnbuf) && this.pkt == pkt && this.qdn == qdn && nrr == 0
      ensures wish == WishAt(pkt, at) && ans == at + 4
      ensures Outlook() == Answer(qdn)
    {
      this.pkt, this.qdn := pkt, qdn;
      ans, cur := at + 4, at + 4;
      wish := WishAt(pkt, at);
      rrl := NumAn(pkt);
      ttl, nrr := MAXTTL, 0;
      dnbuf := new byte[MAXDN + 1];
      new;
      ScanTtl(wish, Records(pkt, cur, rrl), |Records(pkt, cur, rrl)| == rrl, NameOf(qdn), false);
    }

    // dns_rewind: whatever has been read, the same selection comes again.
    method Rewind(q: NameRef)
      requires |pkt| >= HSIZE && dnbuf.Length == MAXDN + 1 && q != Buffer && Usable(q)
      modifies this
      ensures Valid() && qdn == q && nrr == 0 && Outlook() == Answer(q)
    {
      qdn := q;
      cur := ans;
      rrl := NumAn(pkt);
      ttl, nrr := MAXTTL, 0;
      ScanTtl(wish, Records(pkt, cur, rrl), |Records(pkt, cur, rrl)| == rrl, NameOf(q), false);
    }

    // dns_nextrr: the next selected record, 0 at the end, -1 for a malformed packet. At the end qdn and
    // ttl are those of the selection.
    method NextRr(rr: Rr) returns (r: int)
      requires Valid() && rr.dn != dnbuf && rr.dn.Length == MAXDN + 1
      modifies this, dnbuf, rr, rr.dn
      ensures -1 <= r <= 1 && (r >= 0 ==> Valid())
      ensures r > 0 ==> && old(Outlook()) == Outlook().(rrs := old(Outlook()).rrs)
                        && old(Outlook()).rrs != [] && old(Outlook()).rrs[1..] == Outlook().rrs
                        && rr.IsRecord(old(Outlook()).rrs[0])
                        && nrr == old(nrr) + 1
      ensures r == 0 ==> old(Outlook()) == Selection([], ttl, NameOf(qdn), false) && nrr == old(nrr)
      ensures r < 0 ==> old(Outlook()).rrs == [] && old(Outlook()).bad
      ensures qdn == old(qdn) || (qdn == Buffer && old(nrr) == 0)
    {
      var c := cur;
      while rrl > 0
        invariant Valid() && OutlookFrom(c, rrl) == old(Outlook()) && nrr == old(nrr)
        invariant qdn == old(qdn) || (qdn == Buffer && nrr == 0)
        decreases rrl
      {
        rrl := rrl - 1;
        ghost var pos := c;
        assert OutlookFrom(pos, rrl + 1) == old(Outlook());
        r, c := Round(rr, c);
        if r != 0 {
          return;
        }
      }
      cur := c;
      return 0;
    }

    // The body of the loop: 1 for a hit, 0 to go on, -1 for a malformed record.
    method Round(rr: Rr, pos: nat) returns (r: int, c: nat)
      requires Valid() && rr.dn != dnbuf && rr.dn.Length == MAXDN + 1
      modifies this`cur, this`nrr, this`ttl, this`qdn, dnbuf, rr, rr.dn
      ensures -1 <= r <= 1 && (r >= 0 ==> Valid())
      ensures var was := old(OutlookFrom(pos, rrl + 1));
              && (r > 0 ==> && was == Outlook().(rrs := was.rrs)
                            && was.rrs != [] && was.rrs[1..] == Outlook().rrs && rr.IsRecord(was.rrs[0]))
              && (r == 0 ==> was == OutlookFrom(c, rrl))
              && (r < 0 ==> was.rrs == [] && was.bad)
      ensures nrr == old(nrr) + if r > 0 then 1 else 0
      ensures qdn == old(qdn) || (qdn == Buffer && old(nrr) == 0)
    {
      var ok;
      ok, c := rr.Read(pkt, pos);
      ScanStep(pkt, wish, pos, rrl + 1, NameOf(qdn), nrr > 0);
      assert OutlookFrom(pos, rrl + 1) == old(OutlookFrom(pos, rrl + 1));
      if !ok {
        return -1, c;
      }
      ghost var rec := Decode(pkt, pos).value;
      var mine := Mine(rr, rec);
      if !mine {
        return 0, c;
      }
      if (wish.cls == 0 || wish.cls == rr.cls) && (wish.typ == 0 || wish.typ == rr.typ) {
        Take(rr, rec, c, pos);
        return 1, c;
      }
      if qdn != NoName && rr.typ == T_CNAME && nrr == 0 {
        ok := Follow(rr, rec, c, pos);
        if !ok {
          return -1, c;
        }
      }
      return 0, c;
    }

    // The comparison of the owner with the name asked for.
    method Mine(rr: Rr, ghost rec: Record) returns (mine: bool)
      requires Valid() && rr.IsRecord(rec)
      ensures mine <==> Owned(NameOf(qdn), rec)
    {
      var n := 1;
      match qdn {
        case NoName =>
        case Payload => n := DnEqual(pkt, HSIZE, rr.dn[..], 0);
        case Buffer => n := DnEqual(dnbuf[..], 0, rr.dn[..], 0);
        case Given(dn) => n := DnEqual(dn, 0, rr.dn[..], 0);
      }
      mine := n != 0;
    }

    // A hit.
    method Take(rr: Rr, ghost rec: Record, c: nat, ghost pos: nat)
      requires Valid() && rr.IsRecord(rec) && Decode(pkt, pos) == Some(rec) && c == rec.dend
      requires Hit(wish, NameOf(qdn), rec)
      modifies this`cur, this`nrr, this`ttl
      ensures Valid() && nrr == old(nrr) + 1
      ensures var was := old(OutlookFrom(pos, rrl + 1));
              && was == Outlook().(rrs := was.rrs) && was.rrs != [] && was.rrs[0] == rec
              && was.rrs[1..] == Outlook().rrs
    {
      ScanStep(pkt, wish, pos, rrl + 1, NameOf(qdn), nrr > 0);
      cur := c;
      nrr := nrr + 1;
      if ttl > rr.ttl {
        ttl := rr.ttl;
      }
    }

    // An alias: its target becomes the name asked for.
    method Follow(rr: Rr, ghost rec: Record, c: nat, ghost pos: nat) returns (ok: bool)
      requires Valid() && rr.IsRecord(rec) && Decode(pkt, pos) == Some(rec) && c == rec.dend && rr.dn != dnbuf
      requires Alias(wish, NameOf(qdn), rec) && nrr == 0
      modifies this`qdn, this`ttl, dnbuf, rr`dptr
      ensures ok ==> Valid() && qdn == Buffer && OutlookFrom(c, rrl) == old(OutlookFrom(pos, rrl + 1))
      ensures !ok ==> qdn == old(qdn)
      ensures !ok ==> old(OutlookFrom(pos, rrl + 1)).rrs == [] && old(OutlookFrom(pos, rrl + 1)).bad
    {
      ScanStep(pkt, wish, pos, rrl + 1, NameOf(qdn), nrr > 0);
      var r, p := GetDn(pkt, rr.dptr, dnbuf, MAXDN);
      rr.dptr := p;
      if r <= 0 || rr.dptr != rr.dend {
        return false;
      }
      WireReads(dnbuf[..], r, rec.data.value);
      qdn := Buffer;
      if ttl > rr.ttl {
        ttl := rr.ttl;
      }
      return true;
    }
  }

  function WishAt(pkt: seq<byte>, at: nat): Wish
    requires at + 4 <= |pkt|
  {
    var typ, cls := Get16(pkt, at), Get16(pkt, at + 2);
    Wish(if typ == ANY then 0 else typ, if cls == ANY then 0 else cls)
  }
}
