// The resolver context of udns_resolver.c, method by method against the state machine of ResolverModel.
module ResolverContext {
  import opened Seqs
  import opened DomainNames
  import opened DnText
  import Packets
  import RRIter
  import RRBuilders
  import opened Status
  import opened ReplyHeader
  import opened ResolverModel
  import opened ResolverRuns
  import opened ResolverTheorems
  import opened ResolverWaits
  import opened ResolverRounds
  import opened ResolverMessages
  import opened ResolverQueue
  import opened ResolverAnswers
  import opened ResolverReplies
  import DnFromText

  const DRAWS := 5
  const SENDTRIES := 10

  // ---------- the packed search list ----------

  ghost function PackedFrom(search: seq<Labels>, k: nat): seq<byte>
    requires forall i :: 0 <= i < |search| ==> Labelled(search[i])
    decreases |search| - k
  {
    if k >= |search| then [] else Wire(search[k]) + PackedFrom(search, k + 1)
  }

  // Where element k begins when the list ends at `end`; the root stands at its end.
  ghost function Offset(c: Config, end: nat, k: nat): int
    requires c.Valid()
  {
    if k > |c.search| then end + 1 else end - |PackedFrom(c.search, k)|
  }

  ghost predicate Packed(c: Config, buf: seq<byte>, end: nat)
    requires c.Valid()
  {
    && end < |buf| && buf[..end + 1] == PackedFrom(c.search, 0) + [0]
  }

  lemma {:induction false} PackedAt(c: Config, buf: seq<byte>, end: nat, k: nat)
    requires c.Valid() && Packed(c, buf, end) && k <= |c.search|
    ensures 0 <= Offset(c, end, k) && buf[Offset(c, end, k)..end + 1] == PackedFrom(c.search, k) + [0]
    decreases k
  {
    if k == 0 {
      assert |buf[..end + 1]| == |PackedFrom(c.search, 0)| + 1;
    } else {
      PackedAt(c, buf, end, k - 1);
      var from := Offset(c, end, k - 1);
      var w := Wire(c.search[k - 1]);
      Assoc(w, PackedFrom(c.search, k), [0]);
      var s := buf[from..end + 1];
      assert s == w + (PackedFrom(c.search, k) + [0]);
      assert buf[from + |w|..end + 1] == s[|w|..];
    }
  }

  lemma FirstOffset(c: Config, buf: seq<byte>, end: nat)
    requires c.Valid() && Packed(c, buf, end)
    ensures Offset(c, end, 0) == 0
  {
    PackedAt(c, buf, end, 0);
  }

  // At the position of element k stands its name, and behind it the next element begins.
  lemma SuffixAt(c: Config, buf: seq<byte>, end: nat, k: nat)
    requires c.Valid() && Packed(c, buf, end) && k <= |c.search|
    ensures var off := Offset(c, end, k);
            && 0 <= off <= end && Terminated(buf, off) && LabelsAt(buf, off) == Suffix(c, k)
            && Labelled(Suffix(c, k)) && Offset(c, end, k + 1) == off + |Wire(Suffix(c, k))|
  {
    PackedAt(c, buf, end, k);
    var off := Offset(c, end, k);
    var w := Wire(Suffix(c, k));
    var rest := if k < |c.search| then PackedFrom(c.search, k + 1) + [0] else [];
    if k < |c.search| {
      Assoc(w, PackedFrom(c.search, k + 1), [0]);
    }
    assert buf[off..end + 1] == w + rest;
    assert buf == buf[..off] + (w + rest) + buf[end + 1..];
    Assoc(buf[..off], w, rest);
    Assoc(buf[..off] + w, rest, buf[end + 1..]);
    LabelsOfWire(buf[..off], Suffix(c, k), rest + buf[end + 1..]);
  }

  // The bytes of a name and the wire form of a suffix are the wire form of the two together.
  lemma Grafted(orig: Labels, suffix: Labels, dn: seq<byte>, w: seq<byte>)
    requires Labelled(orig) && Labelled(suffix) && LabelBytes(orig) <= dn && w == Wire(suffix)
    ensures Labelled(orig + suffix) && dn[..|LabelBytes(orig)|] + w == Wire(orig + suffix)
    ensures LabelBytes(orig) <= Wire(orig + suffix)
    ensures w[0] == 0 <==> suffix == []
  {
    LabelBytesConcat(orig, suffix);
    Assoc(LabelBytes(orig), LabelBytes(suffix), [0]);
  }

  // ---------- how objects show queries ----------

  ghost predicate Shows(c: Config, end: nat, n: DnsQuery, q: Query)
    requires c.Valid()
    reads n`asIsDone, n`seenNoData, n`servi, n`servwait, n`servskip, n`servnEDNS0, n`try, n`nxtsrch, n`deadline,
          n`id, n`dn
  {
    && Labelled(q.orig) && Labelled(q.name) && |n.typcls| == 4
    && n.serial == q.serial && n.typcls == q.typcls && n.flags == q.flags
    && n.origdnl0 == |LabelBytes(q.orig)| && LabelBytes(q.orig) <= n.dn && n.dn == Wire(q.name)
    && n.asIsDone == q.asIsDone && n.seenNoData == q.seenNoData
    && n.servi == q.servi && n.servwait == q.wait && n.servskip == q.skip && n.servnEDNS0 == q.noEdns
    && n.try == q.try && n.nxtsrch == Offset(c, end, q.next) && n.deadline == q.deadline && n.id == q.id
  }

  ghost predicate AllShow(c: Config, end: nat, nodes: seq<DnsQuery>, qs: seq<Query>)
    requires c.Valid()
    reads Elems(nodes)`asIsDone, Elems(nodes)`seenNoData, Elems(nodes)`servi, Elems(nodes)`servwait,
          Elems(nodes)`servskip, Elems(nodes)`servnEDNS0, Elems(nodes)`try, Elems(nodes)`nxtsrch,
          Elems(nodes)`deadline, Elems(nodes)`id, Elems(nodes)`dn
  {
    |nodes| == |qs| && forall i {:trigger Shows(c, end, nodes[i], qs[i])} :: 0 <= i < |nodes| ==>
      Shows(c, end, nodes[i], qs[i])
  }

  // The other objects than n.
  ghost function Others(nodes: seq<DnsQuery>, n: DnsQuery): set<DnsQuery> {
    Elems(nodes) - {n}
  }

  ghost predicate OthersShow(c: Config, end: nat, nodes: seq<DnsQuery>, qs: seq<Query>, n: DnsQuery)
    requires c.Valid()
    reads Others(nodes, n)
  {
    |nodes| == |qs| && forall i {:trigger Shows(c, end, nodes[i], qs[i])} :: 0 <= i < |nodes| && nodes[i] != n ==>
      Shows(c, end, nodes[i], qs[i])
  }

  lemma OneShows(c: Config, end: nat, nodes: seq<DnsQuery>, qs: seq<Query>, i: nat, q: Query)
    requires c.Valid() && i < |nodes| && Distinct(nodes) && OthersShow(c, end, nodes, qs, nodes[i])
    requires Shows(c, end, nodes[i], q)
    ensures AllShow(c, end, nodes, qs[i := q])
  {
  }

  lemma ShowWithout(c: Config, end: nat, nodes: seq<DnsQuery>, qs: seq<Query>, i: nat)
    requires c.Valid() && AllShow(c, end, nodes, qs) && i < |nodes|
    ensures AllShow(c, end, nodes[..i] + nodes[i + 1..], Without(qs, i))
    ensures Elems(nodes[..i] + nodes[i + 1..]) <= Elems(nodes)
  {
    var r := nodes[..i] + nodes[i + 1..];
    forall j {:trigger r[j]} | 0 <= j < |r| ensures Shows(c, end, r[j], Without(qs, i)[j]) {
      assert r[j] == nodes[if j < i then j else j + 1];
    }
  }

  lemma ShowInserted(c: Config, end: nat, nodes: seq<DnsQuery>, qs: seq<Query>, n: DnsQuery, q: Query, k: nat)
    requires c.Valid() && AllShow(c, end, nodes, qs) && Shows(c, end, n, q) && k <= |nodes|
    ensures AllShow(c, end, nodes[..k] + [n] + nodes[k..], qs[..k] + [q] + qs[k..])
    ensures Elems(nodes[..k] + [n] + nodes[k..]) == Elems(nodes) + {n}
  {
    var r := nodes[..k] + [n] + nodes[k..];
    forall j {:trigger r[j]} | 0 <= j < |r| ensures Shows(c, end, r[j], (qs[..k] + [q] + qs[k..])[j]) {
      Inserted(nodes, k, n, j);
      Inserted(qs, k, q, j);
    }
    assert forall x :: x in nodes ==> x in r by {
      assert nodes == nodes[..k] + nodes[k..];
    }
  }

  lemma ShowFront(c: Config, end: nat, nodes: seq<DnsQuery>, qs: seq<Query>, n: DnsQuery, q: Query)
    requires c.Valid() && AllShow(c, end, nodes, qs) && Shows(c, end, n, q)
    ensures AllShow(c, end, [n] + nodes, [q] + qs)
  {
    forall j | 0 <= j < |nodes| + 1 ensures Shows(c, end, ([n] + nodes)[j], ([q] + qs)[j]) {
      if j > 0 {
        assert Shows(c, end, nodes[j - 1], qs[j - 1]);
      }
    }
  }

  lemma WithoutSame(qs: seq<Query>, i: nat, q: Query)
    requires i < |qs|
    ensures Without(qs[i := q], i) == Without(qs, i) && |Without(qs, i)| == |qs| - 1
  {
  }

  // The place that the loop finds is the place of the model.
  lemma SamePlace(c: Config, end: nat, nodes: seq<DnsQuery>, qs: seq<Query>, n: DnsQuery, q: Query, k: nat)
    requires c.Valid() && AllShow(c, end, nodes, qs) && n.deadline == q.deadline && k <= |nodes|
    requires k > 0 ==> nodes[k - 1].deadline <= n.deadline
    requires forall j :: k <= j < |nodes| ==> nodes[j].deadline > n.deadline
    ensures Place(qs, q) == qs[..k] + [q] + qs[k..]
  {
    var p := PlaceIs(qs, q);
    assert k > 0 ==> Shows(c, end, nodes[k - 1], qs[k - 1]);
    assert p > 0 ==> Shows(c, end, nodes[p - 1], qs[p - 1]);
    assert k < |nodes| ==> Shows(c, end, nodes[k], qs[k]);
    assert p < |nodes| ==> Shows(c, end, nodes[p], qs[p]);
  }

  // ---------- the context ----------

  lemma EndFacts(s: State, i: nat, d: Done)
    requires i < |s.active|
    ensures var t := End(s, i, d.q, d.reason);
            && |t.active| == |s.active| - 1 && t.active == Without(s.active, i) && t.submitted == s.submitted
            && CallsOf(t.log) == CallsOf(s.log) + [Call(d.q.serial, d.Status())]
  {
    CallsMore(s.log, d);
  }

  lemma CancelFacts(s: State, i: nat)
    requires i < |s.active|
    ensures var t := Cancelled(s, i);
            && |t.active| == |s.active| - 1 && t.active == Without(s.active, i) && t.log == s.log
            && t.submitted == s.submitted
  {
  }

  lemma FitsName(c: Config, orig: Labels, asIsDone: bool, k: nat)
    requires ResolverModel.Fits(c, orig, asIsDone, k)
    ensures Labelled(orig + Suffix(c, k)) && |Wire(orig + Suffix(c, k))| <= MAXDN
  {
    LabelBytesConcat(orig, Suffix(c, k));
  }

  // The query with the next candidate taken up, or with its search at the end.
  ghost predicate NextNameIs(c: Config, r: Query, v: Verdict, id: Id, t: Query) {
    var k := NextFit(c, r.orig, r.asIsDone, r.next);
    t == if k > |c.search| then r.(next := k)
         else if v == NoAnswer then TakeUp(c, r, k, id).(seenNoData := true)
         else TakeUp(c, r, k, id)
  }

  lemma SearchOnIs(c: Config, s: State, i: nat, r: Query, pkt: seq<byte>, v: Verdict, now: nat, sent: Sending, id: Id,
                   t: Query)
    requires i < |s.active| && |pkt| >= Packets.HSIZE && v == VerdictOf(pkt)
    requires NextNameIs(c, r.(hist := r.hist.(answers := r.hist.answers + [pkt])), v, id, t)
    ensures SearchOn(c, s, i, r, pkt, now, sent, id)
         == if NextFit(c, r.orig, r.asIsDone, r.next) > |c.search| then End(s, i, t, Exhausted(OutcomeOf(v)))
            else ResolverModel.Send(c, s, i, t, now, sent)
  {
  }

  lemma ChooseIs(c: Config, r: Query, u: Query, found: bool, t: Query)
    requires u == r.(servi := ResolverModel.FindServ(c.nserv, r.skip, r.servi))
    requires u.servi < c.nserv ==> found && t == u
    requires u.servi >= c.nserv ==> (found <==>
             u.try + 1 < c.ntries && ResolverModel.FindServ(c.nserv, u.skip, 0) < c.nserv)
    requires u.servi >= c.nserv && found ==>
             t == u.(servi := ResolverModel.FindServ(c.nserv, u.skip, 0), try := u.try + 1)
    ensures if found then
              Choose(c, r) == Server(t.(servi := t.servi + 1), t.servi) && t.name == r.name && t.serial == r.serial
            else Choose(c, r).NoServer? && Choose(c, r).q.serial == r.serial
  {
    if found {
      var v := r.(servi := 0, try := r.try + 1);
      assert t.(servi := t.servi + 1)
          == if u.servi < c.nserv then r.(servi := t.servi + 1) else v.(servi := t.servi + 1);
    }
  }

  // struct dns_ctx; serv holds the server addresses.
  class DnsCtx {
    const timeout: nat
    const ntries: nat
    const ndots: nat
    const udpbuf: nat
    const serv: seq<nat>
    const srchbuf: array<byte>
    const pbuf: array<byte>
    const active: QList
    var srchend: nat
    var nactive: nat
    var nextid: nat
    var qstatus: int
    var called: seq<Call>
    var submitted: nat
    ghost var search: seq<Labels>
    ghost var m: State

    ghost function Cfg(): Config
      reads `search
    {
      Config(timeout, ntries, ndots, udpbuf, |serv|, search)
    }

    // The settings, which no query changes.
    ghost predicate Fixed()
      reads `search, `srchend, srchbuf
    {
      && Cfg().Valid() && srchbuf.Length == SRCHBUF && pbuf.Length == udpbuf && pbuf != srchbuf
      && Packed(Cfg(), srchbuf[..], srchend)
    }

    // The list shows these queries, and the counters and callbacks are those of the model.
    ghost predicate Shape(qs: seq<Query>)
      reads `search, `srchend, `nactive, `called, `submitted, `m, srchbuf, active, Elems(active.nodes)
    {
      && Fixed() && active.Valid() && AllShow(Cfg(), srchend, active.nodes, qs)
      && nactive == |qs| && |m.active| == |qs| && called == CallsOf(m.log) && submitted == m.submitted
    }

    ghost predicate Valid()
      reads `search, `srchend, `nactive, `called, `submitted, `m, srchbuf, active, Elems(active.nodes)
    {
      Shape(m.active) && Inv(Cfg(), m)
    }

    twostate lemma StillFixed()
      requires old(Fixed()) && unchanged(this`search, this`srchend) && unchanged(srchbuf)
      ensures Fixed() && Cfg() == old(Cfg())
    {
    }

    // What none of these objects depend on may change.
    twostate lemma StillValid()
      requires old(Valid()) && unchanged(active) && unchanged(srchbuf) && unchanged(old(Elems(active.nodes)))
      requires unchanged(this`search, this`srchend, this`nactive, this`called, this`submitted, this`m)
      ensures Valid()
    {
    }

    // An open context with an empty search list.
    constructor (timeout: nat, ntries: nat, ndots: nat, udpbuf: nat, serv: seq<nat>)
      requires Config(timeout, ntries, ndots, udpbuf, |serv|, []).Valid()
      ensures Valid() && m == START && search == [] && fresh(srchbuf) && fresh(pbuf) && fresh(active)
      ensures this.timeout == timeout && this.ntries == ntries && this.ndots == ndots && this.udpbuf == udpbuf
      ensures this.serv == serv
    {
      this.timeout, this.ntries, this.ndots, this.udpbuf, this.serv := timeout, ntries, ndots, udpbuf, serv;
      srchbuf := new byte[SRCHBUF](_ => 0);
      pbuf := new byte[udpbuf];
      active := new QList();
      srchend, nactive, nextid, qstatus, called, submitted := 0, 0, 0, 0, [], 0;
      search, m := [], START;
      new;
      StartInv(Cfg());
      assert srchbuf[..1] == [0];
    }

    // dns_find_serv
    method FindServ(q: DnsQuery) returns (found: bool)
      requires q.servi <= |serv|
      modifies q`servi
      ensures q.servi == ResolverModel.FindServ(|serv|, q.servskip, old(q.servi)) && (found <==> q.servi < |serv|)
    {
      ghost var goal := ResolverModel.FindServ(|serv|, q.servskip, q.servi);
      while q.servi < |serv|
        invariant q.servi <= |serv| && goal == ResolverModel.FindServ(|serv|, q.servskip, q.servi)
        decreases |serv| - q.servi
      {
        if q.servi !in q.servskip {
          return true;
        }
        q.servi := q.servi + 1;
      }
      return false;
    }

    // qlist_remove of the query at entry i
    method Unlink(q: DnsQuery, ghost i: nat, ghost qs: seq<Query>)
      requires Cfg().Valid() && active.Valid() && AllShow(Cfg(), srchend, active.nodes, qs)
      requires i < |qs| && active.nodes[i] == q
      modifies active, Elems(active.nodes)`next, Elems(active.nodes)`prev
      ensures active.Valid() && AllShow(Cfg(), srchend, active.nodes, Without(qs, i))
      ensures active.nodes == old(active.nodes)[..i] + old(active.nodes)[i + 1..] && q !in active.nodes
      ensures Elems(active.nodes) <= old(Elems(active.nodes))
    {
      ShowWithout(Cfg(), srchend, active.nodes, qs, i);
      active.Remove(q, i);
      assert AllShow(Cfg(), srchend, old(active.nodes)[..i] + old(active.nodes)[i + 1..], Without(qs, i));
    }

    // One query object has changed, and shows r now.
    ghost predicate ShapeBut(q: DnsQuery, i: nat, r: Query)
      reads `search, `srchend, `nactive, `called, `submitted, `m, srchbuf, active, Elems(active.nodes)
    {
      i < |m.active| && Shape(m.active[i := r]) && active.nodes[i] == q && Shows(Cfg(), srchend, q, r)
    }

    // dns_end_query, for the query at entry i
    method EndQuery(q: DnsQuery, ghost i: nat, status: int, ghost r: Query, ghost d: Done)
      requires ShapeBut(q, i, r) && d.q.serial == r.serial && d.Status() == status
      modifies this`nactive, this`qstatus, this`called, this`m, active, Elems(active.nodes)`next,
               Elems(active.nodes)`prev
      ensures m == End(old(m), i, d.q, d.reason) && Shape(m.active)
      ensures Elems(active.nodes) <= old(Elems(active.nodes)) && qstatus == status
    {
      WithoutSame(m.active, i, r);
      Unlink(q, i, m.active[i := r]);
      CallBack(q.serial, i, status, d);
    }

    // The counter and the callback of dns_end_query.
    method CallBack(serial: nat, ghost i: nat, status: int, ghost d: Done)
      requires Fixed() && active.Valid() && i < |m.active| == nactive
      requires AllShow(Cfg(), srchend, active.nodes, Without(m.active, i))
      requires called == CallsOf(m.log) && submitted == m.submitted && serial == d.q.serial && status == d.Status()
      modifies this`nactive, this`qstatus, this`called, this`m
      ensures m == End(old(m), i, d.q, d.reason) && Shape(m.active) && qstatus == status
    {
      EndFacts(m, i, d);
      qstatus := status;
      nactive := nactive - 1;
      called := called + [Call(serial, status)];
      Adopt(End(m, i, d.q, d.reason));
    }

    // The model takes the step that the objects have taken.
    ghost method Adopt(t: State)
      requires Fixed() && active.Valid() && AllShow(Cfg(), srchend, active.nodes, t.active)
      requires nactive == |t.active| && called == CallsOf(t.log) && submitted == t.submitted
      modifies this`m
      ensures m == t && Shape(t.active)
    {
      m := t;
    }

    // ---------- sending ----------

    // The end of dns_send_this: the query moves to its place in the list.
    method Requeue(q: DnsQuery, ghost i: nat, ghost qs: seq<Query>, ghost r: Query)
      requires Cfg().Valid() && active.Valid() && AllShow(Cfg(), srchend, active.nodes, qs)
      requires i < |qs| && active.nodes[i] == q && qs[i] == r
      modifies active, Elems(active.nodes)`next, Elems(active.nodes)`prev
      ensures active.Valid() && AllShow(Cfg(), srchend, active.nodes, Place(Without(qs, i), r))
      ensures Elems(active.nodes) <= old(Elems(active.nodes)) && |active.nodes| == |qs|
    {
      assert Shows(Cfg(), srchend, active.nodes[i], qs[i]);
      Unlink(q, i, qs);
      Link(q, Without(qs, i), r);
    }

    method Link(q: DnsQuery, ghost qs: seq<Query>, ghost r: Query)
      requires Cfg().Valid() && active.Valid() && AllShow(Cfg(), srchend, active.nodes, qs)
      requires q !in active.nodes && Shows(Cfg(), srchend, q, r)
      modifies active, Elems(active.nodes)`next, Elems(active.nodes)`prev, q`next, q`prev
      ensures active.Valid() && AllShow(Cfg(), srchend, active.nodes, Place(qs, r))
      ensures Elems(active.nodes) == old(Elems(active.nodes)) + {q} && |active.nodes| == |qs| + 1
    {
      ghost var was := active.nodes;
      ghost var k := InsertKeeping(q, Cfg(), srchend, qs);
      SamePlace(Cfg(), srchend, was, qs, q, r, k);
      ShowInserted(Cfg(), srchend, was, qs, q, r, k);
    }

    // Moving links does not change what the objects show.
    method InsertKeeping(q: DnsQuery, ghost c: Config, ghost end: nat, ghost qs: seq<Query>) returns (ghost k: nat)
      requires c.Valid() && active.Valid() && AllShow(c, end, active.nodes, qs) && q !in active.nodes
      modifies active, Elems(active.nodes)`next, Elems(active.nodes)`prev, q`next, q`prev
      ensures k <= |old(active.nodes)| && active.Valid() && AllShow(c, end, old(active.nodes), qs)
      ensures active.nodes == old(active.nodes)[..k] + [q] + old(active.nodes)[k..]
      ensures k > 0 ==> old(active.nodes)[k - 1].deadline <= q.deadline
      ensures forall j :: k <= j < |old(active.nodes)| ==> old(active.nodes)[j].deadline > q.deadline
    {
      k := active.InsertByDeadline(q);
    }

    // sendto, which may fail
    method SendTo() returns (ok: bool)
    {
      ok := *;
    }

    // The sending loop of dns_send_this
    method Transmit() returns (ok: bool, ghost results: seq<bool>)
      ensures 1 <= |results| <= SENDTRIES && results[|results| - 1] == ok
      ensures forall j :: 0 <= j < |results| - 1 ==> !results[j]
      ensures !ok ==> |results| == SENDTRIES
    {
      var tries := SENDTRIES;
      ok := SendTo();
      results := [ok];
      while !ok
        invariant 0 < tries == SENDTRIES - |results| + 1 && results != [] && results[|results| - 1] == ok
        invariant forall j :: 0 <= j < |results| - 1 ==> !results[j]
        decreases tries
      {
        tries := tries - 1;
        if tries == 0 {
          return;
        }
        ok := SendTo();
        results := results + [ok];
      }
    }

    // dns_send_this, for the query at entry i, which shows r: to server servi
    method SendThis(q: DnsQuery, servi: nat, now: nat, ghost i: nat, ghost r: Query) returns (sent: Sending)
      requires ShapeBut(q, i, r) && servi < |serv| && r.servi <= |serv| && |Wire(r.name)| <= MAXDN + 1
      modifies this`nactive, this`qstatus, this`called, this`m, active, Elems(active.nodes), pbuf
      ensures m == ResolverModel.SendThis(Cfg(), old(m), i, r, servi, now, sent) && Shape(m.active)
      ensures Elems(active.nodes) <= old(Elems(active.nodes))
    {
      var edns := WithEdns(q.flags, udpbuf, q.servnEDNS0, servi);
      var qlen := Format(pbuf, q.id, q.flags, q.dn, q.typcls, edns, udpbuf, r, servi);
      var ok;
      ghost var results;
      ok, results := Transmit();
      sent := Lost;
      if ok {
        sent := Expect(q, servi, now, i, r);
      } else {
        EndQuery(q, i, E_TEMPFAIL, r, Done(r, Failed));
      }
    }

    // What follows a successful sendto.
    method Expect(q: DnsQuery, servi: nat, now: nat, ghost i: nat, ghost r: Query) returns (sent: Sending)
      requires ShapeBut(q, i, r) && servi < |serv| && r.servi <= |serv|
      modifies this`m, active, Elems(active.nodes)
      ensures m == ResolverModel.SendThis(Cfg(), old(m), i, r, servi, now, sent) && Shape(m.active)
      ensures sent.Gone?
      ensures Elems(active.nodes) <= old(Elems(active.nodes))
    {
      assert OthersShow(Cfg(), srchend, active.nodes, m.active[i := r], q);
      ghost var t;
      sent, t := MarkSent(q, servi, now, r);
      Reshape(q, i, r, t);
      Reinsert(q, i, t);
    }

    method Reinsert(q: DnsQuery, ghost i: nat, ghost t: Query)
      requires ShapeBut(q, i, t)
      modifies this`m, active, Elems(active.nodes)`next, Elems(active.nodes)`prev
      ensures m == old(m).(active := Place(Without(old(m.active), i), t), ticks := old(m.ticks) + 1) && Shape(m.active)
      ensures Elems(active.nodes) <= old(Elems(active.nodes))
    {
      Requeue(q, i, m.active[i := t], t);
      WithoutSame(m.active, i, t);
      Adopt(m.(active := Place(Without(m.active, i), t), ticks := m.ticks + 1));
    }

    // The query expects a reply, and has a new deadline.
    method MarkSent(q: DnsQuery, servi: nat, now: nat, ghost r: Query) returns (sent: Sending, ghost t: Query)
      requires Cfg().Valid() && Shows(Cfg(), srchend, q, r) && servi < |serv| && r.servi <= |serv|
      modifies q`servwait, q`servi, q`deadline
      ensures sent.Gone? && t == Sent(Cfg(), r, servi, now, sent.beyond, m.ticks) && Shows(Cfg(), srchend, q, t)
    {
      q.servwait := q.servwait + {servi};
      var more := FindServ(q);
      var beyond: nat := *;
      q.deadline := now + if more then 1 else Backoff(timeout, q.try, beyond);
      sent, t := Gone(beyond), Sent(Cfg(), r, servi, now, beyond, m.ticks);
    }

    // Only q has changed, from r to t.
    lemma Reshape(q: DnsQuery, i: nat, r: Query, t: Query)
      requires Fixed() && active.Valid() && i < |m.active| == |active.nodes| == nactive && active.nodes[i] == q
      requires OthersShow(Cfg(), srchend, active.nodes, m.active[i := r], q) && Shows(Cfg(), srchend, q, t)
      requires called == CallsOf(m.log) && submitted == m.submitted
      ensures ShapeBut(q, i, t)
    {
      OneShows(Cfg(), srchend, active.nodes, m.active[i := r], i, t);
      assert m.active[i := r][i := t] == m.active[i := t];
    }

    // dns_send, for the query at entry i, which shows r
    method Send(q: DnsQuery, now: nat, ghost i: nat, ghost r: Query) returns (sent: Sending)
      requires ShapeBut(q, i, r) && r.servi <= |serv| && |Wire(r.name)| <= MAXDN + 1
      modifies this`nactive, this`qstatus, this`called, this`m, active, Elems(active.nodes), pbuf
      ensures m == ResolverModel.Send(Cfg(), old(m), i, r, now, sent) && Shape(m.active)
      ensures Elems(active.nodes) <= old(Elems(active.nodes))
    {
      var found, servi;
      ghost var t;
      found, servi, t := ChooseServ(q, i, r);
      if found {
        sent := SendThis(q, servi, now, i, t);
      } else {
        sent := Lost;
        EndQuery(q, i, E_TEMPFAIL, t, Done(Choose(Cfg(), r).q, Failed));
      }
    }

    // Which server to send to.
    method ChooseServ(q: DnsQuery, ghost i: nat, ghost r: Query) returns (found: bool, servi: nat, ghost t: Query)
      requires ShapeBut(q, i, r) && r.servi <= |serv|
      modifies q`servi, q`try
      ensures ShapeBut(q, i, t) && t.serial == r.serial
      ensures found ==> Choose(Cfg(), r) == Server(t, servi) && servi < |serv| && t.servi <= |serv| && t.name == r.name
      ensures !found ==> Choose(Cfg(), r).NoServer? && Choose(Cfg(), r).q.serial == r.serial
    {
      ghost var u;
      found, u := PickServ(q, i, r);
      t := u;
      if !found {
        found, t := NextTry(q, i, u);
      }
      ChooseIs(Cfg(), r, u, found, t);
      servi := q.servi;
      if found {
        t := TakeServ(q, i, t);
      }
    }

    method PickServ(q: DnsQuery, ghost i: nat, ghost r: Query) returns (found: bool, ghost t: Query)
      requires ShapeBut(q, i, r) && r.servi <= |serv|
      modifies q`servi
      ensures t == r.(servi := ResolverModel.FindServ(|serv|, r.skip, r.servi)) && ShapeBut(q, i, t)
      ensures found <==> t.servi < |serv|
    {
      assert OthersShow(Cfg(), srchend, active.nodes, m.active[i := r], q);
      found := FindServ(q);
      t := r.(servi := ResolverModel.FindServ(|serv|, r.skip, r.servi));
      Reshape(q, i, r, t);
    }

    // No server is left in this round: begin the next one, if there is one.
    method NextTry(q: DnsQuery, ghost i: nat, ghost r: Query) returns (found: bool, ghost t: Query)
      requires ShapeBut(q, i, r)
      modifies q`servi, q`try
      ensures ShapeBut(q, i, t) && t.serial == r.serial
      ensures found <==> r.try + 1 < ntries && ResolverModel.FindServ(|serv|, r.skip, 0) < |serv|
      ensures found ==> t == r.(servi := ResolverModel.FindServ(|serv|, r.skip, 0), try := r.try + 1)
    {
      assert OthersShow(Cfg(), srchend, active.nodes, m.active[i := r], q);
      q.servi := 0;
      q.try := q.try + 1;
      t := r.(servi := 0, try := r.try + 1);
      Reshape(q, i, r, t);
      if q.try >= ntries {
        return false, t;
      }
      found, t := PickServ(q, i, t);
    }

    // dnsq_servi++
    method TakeServ(q: DnsQuery, ghost i: nat, ghost r: Query) returns (ghost t: Query)
      requires ShapeBut(q, i, r) && r.servi < |serv|
      modifies q`servi
      ensures t == r.(servi := r.servi + 1) && ShapeBut(q, i, t)
    {
      assert OthersShow(Cfg(), srchend, active.nodes, m.active[i := r], q);
      q.servi := q.servi + 1;
      t := r.(servi := r.servi + 1);
      Reshape(q, i, r, t);
    }

    // ---------- ids and the search ----------

    // The next 16 random bits; a new random number is drawn when the last one is used up.
    method DrawId() returns (id: Id)
      modifies this`nextid
    {
      if nextid == 0 {
        var v: nat :| v < 0x1_0000_0000;
        nextid := v;
      }
      var c0: byte := nextid % 256;
      var c1: byte := nextid / 256 % 256;
      nextid := nextid / 0x10000;
      return Id(c0, c1);
    }

    ghost predicate InUse(id: Id)
      reads active, Elems(active.nodes)`id
    {
      exists j {:trigger active.nodes[j].id} :: 0 <= j < |active.nodes| && active.nodes[j].id == id
    }

    // dns_newid: an id that no active query has, or after five draws one that may be in use. The
    // parameters of the last sending are reset.
    method NewId(q: DnsQuery) returns (ghost drawn: seq<Id>)
      requires active.Valid()
      modifies this`nextid, q`id, q`try, q`servi, q`servwait, q`servskip, q`servnEDNS0
      ensures 1 <= |drawn| <= DRAWS && q.id == drawn[|drawn| - 1]
      ensures forall j :: 0 <= j < |drawn| - 1 ==> old(InUse(drawn[j]))
      ensures |drawn| < DRAWS ==> !old(InUse(drawn[|drawn| - 1]))
      ensures q.try == 0 && q.servi == 0 && q.servwait == {} && q.servskip == {} && q.servnEDNS0 == {}
    {
      drawn := [];
      var loop := 0;
      var id := Id(0, 0);
      while loop < DRAWS
        invariant loop == |drawn| <= DRAWS && (loop > 0 ==> id == drawn[loop - 1])
        invariant forall j :: 0 <= j < |drawn| ==> InUse(drawn[j])
        modifies this`nextid
      {
        id := DrawId();
        drawn := drawn + [id];
        ghost var k;
        var c;
        c, k := active.FindId(id);
        if c == null {
          forall j {:trigger old(active.nodes[j].id)} | 0 <= j < |active.nodes| ensures old(active.nodes[j].id) != id {
            assert active.nodes[j].id != id;
          }
          assert !old(InUse(id));
          break;
        }
        assert active.nodes[k].id == id;
        loop := loop + 1;
      }
      assert |drawn| < DRAWS ==> !old(InUse(drawn[|drawn| - 1]));
      q.id := id;
      q.try := 0;
      q.servi := 0;
      q.servwait, q.servskip, q.servnEDNS0 := {}, {}, {};
    }

    // dns_next_srch, for a query that shows r. It may stand in the list or not yet.
    method NextSrch(q: DnsQuery, ghost r: Query) returns (found: bool, ghost t: Query)
      requires Fixed() && active.Valid() && Shows(Cfg(), srchend, q, r) && r.next <= |search| + 1
      modifies this`nextid, q`id, q`try, q`servi, q`servwait, q`servskip, q`servnEDNS0, q`nxtsrch, q`asIsDone, q`dn
      ensures var k := NextFit(Cfg(), r.orig, r.asIsDone, r.next);
              && (found <==> k <= |search|)
              && t == if found then TakeUp(Cfg(), r, k, q.id) else r.(next := k)
      ensures Shows(Cfg(), srchend, q, t)
    {
      ghost var k := FindFit(q, r);
      if q.nxtsrch > srchend {
        return false, r.(next := k);
      }
      found := true;
      t := TakeNext(q, r, k);
    }

    method TakeNext(q: DnsQuery, ghost r: Query, ghost k: nat) returns (ghost t: Query)
      requires Fixed() && active.Valid() && k <= |search| && Shows(Cfg(), srchend, q, r.(next := k))
      modifies this`nextid, q`id, q`try, q`servi, q`servwait, q`servskip, q`servnEDNS0, q`nxtsrch, q`asIsDone, q`dn
      ensures t == TakeUp(Cfg(), r, k, q.id) && Shows(Cfg(), srchend, q, t)
    {
      CopySuffix(q, r, k);
      ghost var drawn := NewId(q);
      t := TakeUp(Cfg(), r, k, q.id);
      TakenUp(q, r, k, t);
    }

    lemma TakenUp(q: DnsQuery, r: Query, k: nat, t: Query)
      requires Fixed() && t == TakeUp(Cfg(), r, k, q.id) && Labelled(r.orig)
      requires |q.typcls| == 4 && q.serial == r.serial && q.typcls == r.typcls && q.flags == r.flags
      requires q.origdnl0 == |LabelBytes(r.orig)| && q.seenNoData == r.seenNoData && q.deadline == r.deadline
      requires Labelled(t.name) && q.dn == Wire(t.name) && LabelBytes(r.orig) <= q.dn
      requires q.nxtsrch == Offset(Cfg(), srchend, k + 1) && q.asIsDone == (r.asIsDone || Suffix(Cfg(), k) == [])
      requires q.try == 0 && q.servi == 0 && q.servwait == {} && q.servskip == {} && q.servnEDNS0 == {}
      ensures Shows(Cfg(), srchend, q, t)
    {
    }

    // The suffix is copied behind the original name, and the cursor moves past it.
    method CopySuffix(q: DnsQuery, ghost r: Query, ghost k: nat)
      requires Fixed() && k <= |search| && Shows(Cfg(), srchend, q, r.(next := k))
      modifies q`nxtsrch, q`asIsDone, q`dn
      ensures Labelled(r.orig + Suffix(Cfg(), k)) && q.dn == Wire(r.orig + Suffix(Cfg(), k))
              && LabelBytes(r.orig) <= q.dn
      ensures q.nxtsrch == Offset(Cfg(), srchend, k + 1) && q.asIsDone == (r.asIsDone || Suffix(Cfg(), k) == [])
    {
      ghost var c := Cfg();
      SuffixAt(c, srchbuf[..], srchend, k);
      var dnl := DnLen(srchbuf[..], q.nxtsrch);
      Grafted(r.orig, Suffix(c, k), q.dn, srchbuf[q.nxtsrch..q.nxtsrch + dnl]);
      q.dn := q.dn[..q.origdnl0] + srchbuf[q.nxtsrch..q.nxtsrch + dnl];
      if srchbuf[q.nxtsrch] == 0 {
        q.asIsDone := true;
      }
      q.nxtsrch := q.nxtsrch + dnl;
    }

    // The loop of dns_next_srch
    method FindFit(q: DnsQuery, ghost r: Query) returns (ghost k: nat)
      requires Fixed() && Shows(Cfg(), srchend, q, r) && r.next <= |search| + 1
      modifies q`nxtsrch
      ensures k == NextFit(Cfg(), r.orig, r.asIsDone, r.next) && q.nxtsrch == Offset(Cfg(), srchend, k)
      ensures q.nxtsrch > srchend <==> k > |search|
    {
      k := r.next;
      while q.nxtsrch <= srchend
        invariant k <= |search| + 1 && q.nxtsrch == Offset(Cfg(), srchend, k)
        invariant NextFit(Cfg(), r.orig, r.asIsDone, k) == NextFit(Cfg(), r.orig, r.asIsDone, r.next)
        decreases |search| + 1 - k
      {
        assert k <= |search|;
        SuffixAt(Cfg(), srchbuf[..], srchend, k);
        var dnl := DnLen(srchbuf[..], q.nxtsrch);
        if dnl + q.origdnl0 <= MAXDN && (srchbuf[q.nxtsrch] != 0 || !q.asIsDone) {
          break;
        }
        q.nxtsrch := q.nxtsrch + dnl;
        k := k + 1;
      }
    }

    // ---------- submitting ----------

    // dns_submit_dn
    method SubmitDn(dn: seq<byte>, qcls: nat, qtyp: nat, flags: Flags, noSearch: bool, parse: Option<RRBuilders.Kind>)
      returns (q: DnsQuery)
      requires Valid() && Terminated(dn, 0) && |Wire(LabelsAt(dn, 0))| <= MAXDN + 1
      modifies this`nextid, this`nactive, this`submitted, this`m, active, Elems(active.nodes)`prev
      ensures Valid() && fresh(q) && !q.sync && q.parse == parse && active.nodes == [q] + old(active.nodes)
      ensures m == AddHead(old(m), NewQuery(Cfg(), old(m).submitted, old(m).ticks, LabelsAt(dn, 0),
                                            TypeAndClass(qtyp, qcls), flags, noSearch, q.id))
    {
      var name, l := NameOf(dn);
      q := Create(name, l, LabelsAt(dn, 0), TypeAndClass(qtyp, qcls), flags, noSearch, parse);
    }

    // dns_dntodn into the object, and dns_dnlabels
    method NameOf(dn: seq<byte>) returns (name: seq<byte>, l: nat)
      requires Terminated(dn, 0)
      ensures name == Wire(LabelsAt(dn, 0)) && l == |LabelsAt(dn, 0)|
    {
      var len := DnLen(dn, 0);
      l := DnLabels(dn, 0);
      name := dn[..len];
    }

    method Create(name: seq<byte>, l: nat, ghost labels: Labels, typcls: seq<byte>, flags: Flags, noSearch: bool,
                  parse: Option<RRBuilders.Kind>)
      returns (q: DnsQuery)
      requires Valid() && Labelled(labels) && name == Wire(labels) && |name| <= MAXDN + 1 && l == |labels|
      requires |typcls| == 4
      modifies this`nextid, this`nactive, this`submitted, this`m, active, Elems(active.nodes)`prev
      ensures Valid() && fresh(q) && !q.sync && q.parse == parse && active.nodes == [q] + old(active.nodes)
      ensures m == AddHead(old(m), NewQuery(Cfg(), old(m).submitted, old(m).ticks, labels, typcls, flags,
                                            noSearch, q.id))
    {
      ghost var t;
      q, t := Prepare(name, l, labels, typcls, flags, noSearch, parse);
      StillValid();
      Admit(q, t, labels, typcls, flags, noSearch);
    }

    method Admit(q: DnsQuery, ghost t: Query, ghost labels: Labels, ghost typcls: seq<byte>, ghost flags: Flags,
                 ghost noSearch: bool)
      requires Valid() && q !in active.nodes && Shows(Cfg(), srchend, q, t)
      requires Labelled(labels) && |Wire(labels)| <= MAXDN + 1
      requires t == NewQuery(Cfg(), m.submitted, m.ticks, labels, typcls, flags, noSearch, q.id)
      modifies this`nactive, this`submitted, this`m, active, Elems(active.nodes)`prev, q`next, q`prev
      ensures Valid() && active.nodes == [q] + old(active.nodes) && m == AddHead(old(m), t)
    {
      Enqueue(q, t);
      Enter(t, labels, typcls, flags, noSearch, q.id);
    }

    // dns_submit_p: the name is a C string; an absolute name is not searched for. No query is submitted
    // for a text that names nothing.
    method SubmitP(name: seq<byte>, qcls: nat, qtyp: nat, flags: Flags, noSearch: bool, parse: Option<RRBuilders.Kind>)
      returns (q: DnsQuery?)
      requires Valid() && 0 in name
      modifies this`nextid, this`nactive, this`submitted, this`m, this`qstatus, active, Elems(active.nodes)`prev, pbuf
      ensures Valid()
      ensures var t := DnFromText.TextArg(name, 0);
              && (q != null <==> Names(t) && |Wire(NamedLabels(t))| <= MAXDN)
              && (q == null ==> m == old(m) && qstatus == E_BADQUERY && active.nodes == old(active.nodes))
              && (q != null ==> fresh(q) && !q.sync && q.parse == parse && active.nodes == [q] + old(active.nodes))
              && (q != null ==> m == AddHead(old(m), NewQuery(Cfg(), old(m).submitted, old(m).ticks, NamedLabels(t),
                                                              TypeAndClass(qtyp, qcls), flags,
                                                              noSearch || Absolute(t), q.id)))
    {
      var ok, isabs := ReadName(name);
      if !ok {
        qstatus := E_BADQUERY;
        StillValid();
        return null;
      }
      q := SubmitDn(pbuf[..], qcls, qtyp, flags, noSearch || isabs, parse);
    }

    // The call of dns_ptodn
    method ReadName(name: seq<byte>) returns (ok: bool, isabs: bool)
      requires Valid() && 0 in name
      modifies pbuf
      ensures Valid()
      ensures var t := DnFromText.TextArg(name, 0);
              && (ok <==> Names(t) && |Wire(NamedLabels(t))| <= MAXDN)
              && (ok ==> (isabs <==> Absolute(t)) && Terminated(pbuf[..], 0) && LabelsAt(pbuf[..], 0) == NamedLabels(t))
    {
      var r;
      r, isabs := DnFromText.PToDn(name, 0, pbuf, MAXDN);
      StillValid();
      ok := r > 0;
      if ok {
        DnFromText.AcceptedIsWellFormed(DnFromText.TextArg(name, 0), pbuf[..]);
      }
    }

    // The new object, with its first name.
    method Prepare(name: seq<byte>, l: nat, ghost labels: Labels, typcls: seq<byte>, flags: Flags, noSearch: bool,
                   parse: Option<RRBuilders.Kind>)
      returns (q: DnsQuery, ghost t: Query)
      requires Fixed() && active.Valid() && Labelled(labels) && name == Wire(labels) && l == |labels| && |typcls| == 4
      requires submitted == m.submitted
      modifies this`nextid
      ensures fresh(q) && !q.sync && q.parse == parse && Shows(Cfg(), srchend, q, t)
      ensures t == NewQuery(Cfg(), m.submitted, m.ticks, labels, typcls, flags, noSearch, q.id)
    {
      q := new DnsQuery(submitted, name, typcls, flags, parse);
      t := ChooseName(q, labels, l, noSearch);
    }

    // The new query enters the model.
    ghost method Enter(t: Query, labels: Labels, typcls: seq<byte>, flags: Flags, noSearch: bool, id: Id)
      requires Fixed() && active.Valid() && Inv(Cfg(), m) && Labelled(labels) && |Wire(labels)| <= MAXDN + 1
      requires t == NewQuery(Cfg(), m.submitted, m.ticks, labels, typcls, flags, noSearch, id)
      requires AllShow(Cfg(), srchend, active.nodes, [t] + m.active)
      requires nactive == |m.active| + 1 && submitted == m.submitted + 1 && called == CallsOf(m.log)
      modifies this`m
      ensures Valid() && m == AddHead(old(m), t)
    {
      NewQueryOk(Cfg(), m.submitted, m.ticks, labels, typcls, flags, noSearch, id);
      AddHeadInv(Cfg(), m, t);
      Adopt(AddHead(m, t));
    }

    // The first name to try.
    method ChooseName(q: DnsQuery, ghost labels: Labels, l: nat, noSearch: bool) returns (ghost t: Query)
      requires Fixed() && active.Valid() && Labelled(labels) && l == |labels|
      requires q.dn == Wire(labels) && q.origdnl0 == |LabelBytes(labels)| && |q.typcls| == 4
      requires !q.asIsDone && !q.seenNoData && q.deadline == 0 && q.servi == 0 && q.try == 0
      requires q.servwait == {} && q.servskip == {} && q.servnEDNS0 == {} && q.id == Id(0, 0)
      modifies this`nextid, q`id, q`try, q`servi, q`servwait, q`servskip, q`servnEDNS0, q`nxtsrch, q`asIsDone, q`dn
      ensures t == NewQuery(Cfg(), q.serial, m.ticks, labels, q.typcls, q.flags, noSearch, q.id)
              && Shows(Cfg(), srchend, q, t)
    {
      FirstOffset(Cfg(), srchbuf[..], srchend);
      ghost var base := Query(q.serial, labels, q.typcls, q.flags, labels, Id(0, 0),
                              AsIsFirst(Cfg(), labels, noSearch), false, if noSearch then |search| else 0,
                              0, {}, {}, {}, 0, 0, History(noSearch, search, [], [], [], [], 0, m.ticks));
      if noSearch || l > ndots {
        q.nxtsrch := if noSearch then srchend else 0;
        q.asIsDone := true;
        ghost var drawn := NewId(q);
        t := ResolverModel.NewId(base.(hist := base.hist.(tried := [labels])), q.id);
      } else {
        q.nxtsrch := 0;
        var found;
        found, t := NextSrch(q, base);
        if !found {
          t := t.(hist := t.hist.(tried := [labels]));
        }
      }
    }

    method Enqueue(q: DnsQuery, ghost t: Query)
      requires Shape(m.active) && q !in active.nodes && Shows(Cfg(), srchend, q, t)
      modifies this`nactive, this`submitted, active, Elems(active.nodes)`prev, q`next, q`prev
      ensures Fixed() && active.Valid() && active.nodes == [q] + old(active.nodes)
      ensures AllShow(Cfg(), srchend, active.nodes, [t] + m.active)
      ensures nactive == |m.active| + 1 && submitted == m.submitted + 1 && called == CallsOf(m.log)
    {
      ghost var was := active.nodes;
      HeadKeeping(q, Cfg(), srchend, m.active);
      StillFixed();
      ShowFront(Cfg(), srchend, was, m.active, q, t);
      nactive := nactive + 1;
      submitted := submitted + 1;
    }

    method HeadKeeping(q: DnsQuery, ghost c: Config, ghost end: nat, ghost qs: seq<Query>)
      requires c.Valid() && active.Valid() && AllShow(c, end, active.nodes, qs) && q !in active.nodes
      modifies active, Elems(active.nodes)`prev, q`next, q`prev
      ensures active.Valid() && AllShow(c, end, old(active.nodes), qs) && active.nodes == [q] + old(active.nodes)
    {
      active.AddHead(q);
    }

    // ---------- cancelling and closing ----------

    // dns_cancel of the query at entry i; refused for a query that dns_resolve waits for
    method CancelQuery(q: DnsQuery, ghost i: nat) returns (status: int)
      requires Valid() && i < |active.nodes| && active.nodes[i] == q
      modifies this`nactive, this`qstatus, this`m, active, Elems(active.nodes)`next, Elems(active.nodes)`prev
      ensures Valid()
      ensures q.sync ==> status == qstatus == E_BADQUERY && m == old(m) && active.nodes == old(active.nodes)
      ensures !q.sync ==> status == 0 && qstatus == old(qstatus) && m == Cancelled(old(m), i)
                          && active.nodes == old(active.nodes)[..i] + old(active.nodes)[i + 1..]
    {
      if q.sync {
        qstatus := E_BADQUERY;
        StillValid();
        return E_BADQUERY;
      }
      TakeOff(q, i);
      status := 0;
    }

    method TakeOff(q: DnsQuery, ghost i: nat)
      requires Valid() && i < |active.nodes| && active.nodes[i] == q
      modifies this`nactive, this`m, active, Elems(active.nodes)`next, Elems(active.nodes)`prev
      ensures Valid() && m == Cancelled(old(m), i)
      ensures active.nodes == old(active.nodes)[..i] + old(active.nodes)[i + 1..]
    {
      ghost var t := Cancelled(m, i);
      CancelInv(Cfg(), m, i);
      CancelFacts(m, i);
      Retire(q, i);
      Adopt(t);
    }

    method Retire(q: DnsQuery, ghost i: nat)
      requires Shape(m.active) && i < |active.nodes| && active.nodes[i] == q
      modifies this`nactive, active, Elems(active.nodes)`next, Elems(active.nodes)`prev
      ensures active.Valid() && AllShow(Cfg(), srchend, active.nodes, Without(m.active, i)) && nactive == |m.active| - 1
      ensures active.nodes == old(active.nodes)[..i] + old(active.nodes)[i + 1..]
    {
      Unlink(q, i, m.active);
      nactive := nactive - 1;
    }

    // dns_close: all queries are dropped without a callback
    method CloseContext()
      requires Valid()
      modifies this`nactive, this`m, active
      ensures Valid() && m == Closed(old(m)) && active.nodes == []
    {
      ghost var t := Closed(m);
      CloseInv(Cfg(), m);
      active.Clear();
      nactive := 0;
      Adopt(t);
    }

    // ---------- timeouts ----------

    ghost predicate AllExpire(es: seq<Event>, now: nat) {
      forall e :: e in es ==> e.Expire? && e.now == now
    }

    // dns_timeouts: queries whose deadline has passed are sent again or ended, until all deadlines lie
    // ahead. The result is how long to wait for the first of them, converted to int.
    method Timeouts(maxwait: int, now: nat) returns (wait: int, ghost es: seq<Event>)
      requires Valid()
      modifies this`nactive, this`qstatus, this`called, this`m, active, Elems(active.nodes), pbuf
      ensures Valid() && AllExpire(es, now) && Leads(Cfg(), old(m), es, m)
      ensures Elems(active.nodes) <= old(Elems(active.nodes))
      ensures WaitPromise(Cfg(), old(m).active, m.active, maxwait, now, wait)
    {
      ghost var c, s := Cfg(), m;
      wait, es := WorkAndWait(maxwait, now);
      ExpirePast(es, now);
      WorkedOffWait(c, s, es, m, maxwait, now);
    }

    method WorkAndWait(maxwait: int, now: nat) returns (wait: int, ghost es: seq<Event>)
      requires Valid()
      modifies this`nactive, this`qstatus, this`called, this`m, active, Elems(active.nodes), pbuf
      ensures Valid() && AllExpire(es, now) && Leads(Cfg(), old(m), es, m)
      ensures Elems(active.nodes) <= old(Elems(active.nodes))
      ensures m.active != [] ==> m.active[0].deadline > now
      ensures wait == TimeToWait(m.active, maxwait, now)
    {
      es := WorkOff(now);
      wait := FirstWait(maxwait, now);
    }

    // The time to the first deadline
    function FirstWait(maxwait: int, now: nat): (wait: int)
      requires Shape(m.active)
      reads `search, `srchend, `nactive, `called, `submitted, `m, srchbuf, active, Elems(active.nodes)
      ensures wait == TimeToWait(m.active, maxwait, now)
    {
      HeadShows();
      if active.head == null then maxwait
      else
        var w := AsInt(active.head.deadline - now);
        if maxwait < 0 || maxwait > w then w else maxwait
    }

    lemma ExpirePast(es: seq<Event>, now: nat)
      requires AllExpire(es, now)
      ensures Past(es, now)
    {
    }

    // The loop of dns_timeouts
    method WorkOff(now: nat) returns (ghost es: seq<Event>)
      requires Valid()
      modifies this`nactive, this`qstatus, this`called, this`m, active, Elems(active.nodes), pbuf
      ensures Valid() && AllExpire(es, now) && Leads(Cfg(), old(m), es, m)
      ensures Elems(active.nodes) <= old(Elems(active.nodes))
      ensures active.head == null <==> m.active == []
      ensures active.head != null ==> active.head.deadline == m.active[0].deadline > now
    {
      es := [];
      LeadsNowhere(Cfg(), m);
      while active.head != null && active.head.deadline <= now
        invariant Valid() && AllExpire(es, now) && Leads(Cfg(), old(m), es, m)
        invariant Elems(active.nodes) <= old(Elems(active.nodes))
        decreases Fuel(Cfg(), m.active)
      {
        ghost var e := ExpireHead(now, old(m), es);
        es := es + [e];
      }
      HeadShows();
    }

    // The head of the list is the first query.
    lemma HeadShows()
      requires Shape(m.active)
      ensures active.head == null <==> m.active == []
      ensures active.head != null ==> active.head.deadline == m.active[0].deadline
    {
      if active.head != null {
        assert Shows(Cfg(), srchend, active.nodes[0], m.active[0]);
      }
    }

    // One round of the loop.
    method ExpireHead(now: nat, ghost s0: State, ghost es: seq<Event>) returns (ghost e: Event)
      requires Valid() && active.head != null && active.head.deadline <= now && Leads(Cfg(), s0, es, m)
      modifies this`nactive, this`qstatus, this`called, this`m, active, Elems(active.nodes), pbuf
      ensures Valid() && e.Expire? && e.now == now && Leads(Cfg(), s0, es + [e], m)
      ensures Fuel(Cfg(), m.active) < Fuel(Cfg(), old(m.active))
      ensures Elems(active.nodes) <= old(Elems(active.nodes))
    {
      ghost var c, s := Cfg(), m;
      var sent := SendHead(now);
      LeadsExpire(c, s0, es, s, now, sent);
      ExpireFuel(c, s, now, sent);
      e := Expire(now, sent);
    }

    method SendHead(now: nat) returns (sent: Sending)
      requires Valid() && active.head != null && active.head.deadline <= now
      modifies this`nactive, this`qstatus, this`called, this`m, active, Elems(active.nodes), pbuf
      ensures Valid() && old(m).active != [] && old(m).active[0].deadline <= now
      ensures m == ResolverModel.Send(Cfg(), old(m), 0, old(m).active[0], now, sent)
      ensures Elems(active.nodes) <= old(Elems(active.nodes))
    {
      ghost var s := m;
      assert Shows(Cfg(), srchend, active.nodes[0], s.active[0]) && QueryOk(Cfg(), s.active[0]);
      assert s.active[0 := s.active[0]] == s.active;
      sent := Send(active.head, now, 0, s.active[0]);
      ExpireInv(Cfg(), s, now, sent);
    }

    // ---------- replies ----------

    // The comparison of the question with the query
    method CheckQuestion(pkt: seq<byte>, q: DnsQuery, ghost r: Query) returns (ok: bool)
      requires HeaderOk(pkt) && Cfg().Valid() && Shows(Cfg(), srchend, q, r)
      ensures ok <==> Matches(pkt, r.name, r.typcls)
    {
      if NumQd(pkt) == 0 {
        return RCode(pkt) == R_FORMERR;
      }
      var dn := new byte[MAXDN + 1];
      var n, cur := Packets.GetDn(pkt, Packets.HSIZE, dn, MAXDN);
      if n < 0 || cur + 4 > |pkt| {
        return false;
      }
      RRIter.WireReads(dn[..], n, Packets.Expand(pkt, Packets.HSIZE, Packets.MAXJUMPS).value);
      WholeName(q.dn, r.name);
      var same := DnEqual(dn[..], 0, q.dn, 0);
      ok := same != 0 && pkt[cur..cur + 4] == q.typcls;
    }

    // The server a datagram comes from: its number, or nserv.
    method FindAddr(from: nat) returns (servi: nat)
      ensures ServerIs(from, servi)
    {
      servi := 0;
      while servi < |serv| && serv[servi] != from
        invariant servi <= |serv| && forall j :: 0 <= j < servi ==> serv[j] != from
      {
        servi := servi + 1;
      }
    }

    // Whether the reply matches, and the server it comes from.
    method Examine(pkt: seq<byte>, from: nat, q: DnsQuery, ghost r: Query) returns (ok: bool, servi: nat)
      requires HeaderOk(pkt) && Cfg().Valid() && Shows(Cfg(), srchend, q, r)
      ensures ok <==> Matches(pkt, r.name, r.typcls)
      ensures ServerIs(from, servi)
    {
      ok := CheckQuestion(pkt, q, r);
      servi := FindAddr(from);
    }

    // The first server with this address, nserv if there is none.
    ghost predicate ServerIs(from: nat, servi: nat) {
      && servi <= |serv| && (servi < |serv| ==> serv[servi] == from)
      && forall j :: 0 <= j < servi ==> serv[j] != from
    }

    // A reply with the id of the query at entry i is processed if it matches the query.
    method Process(pkt: seq<byte>, from: nat, now: nat, q: DnsQuery, ghost i: nat)
      returns (ok: bool, servi: nat, status: int, sent: Sending, id: Id)
      requires Valid() && HeaderOk(pkt) && i < |active.nodes| && active.nodes[i] == q
      modifies this`nextid, this`nactive, this`qstatus, this`called, this`m, active, Elems(active.nodes), pbuf
      ensures Valid() && (ok <==> Matches(pkt, old(m).active[i].name, old(m).active[i].typcls))
      ensures m == if ok then Reply(Cfg(), old(m), i, servi, pkt, status, now, sent, id) else old(m)
      ensures ok ==> ServerIs(from, servi) && RightCalls(Cfg(), old(m), i, servi, pkt, status, old(called), called)
      ensures ok && servi in old(m).active[i].wait && VerdictOf(pkt) == Positive ==>
                StatusIs(pkt, q.parse, old(m).active[i].name, status)
      ensures Elems(active.nodes) <= old(Elems(active.nodes))
    {
      assert Shows(Cfg(), srchend, active.nodes[i], m.active[i]);
      status, sent, id := 0, Lost, Id(0, 0);
      ok, servi := Examine(pkt, from, q, m.active[i]);
      StillValid();
      if ok {
        status, sent, id := Accept(pkt, servi, now, q, i);
      }
    }

    method Accept(pkt: seq<byte>, servi: nat, now: nat, q: DnsQuery, ghost i: nat)
      returns (status: int, sent: Sending, id: Id)
      requires Valid() && HeaderOk(pkt) && i < |active.nodes| && active.nodes[i] == q
      requires Matches(pkt, m.active[i].name, m.active[i].typcls)
      modifies this`nextid, this`nactive, this`qstatus, this`called, this`m, active, Elems(active.nodes), pbuf
      ensures Valid() && m == Reply(Cfg(), old(m), i, servi, pkt, status, now, sent, id)
      ensures RightCalls(Cfg(), old(m), i, servi, pkt, status, old(called), called)
      ensures servi in old(m).active[i].wait && VerdictOf(pkt) == Positive ==>
                StatusIs(pkt, q.parse, old(m).active[i].name, status)
      ensures Elems(active.nodes) <= old(Elems(active.nodes))
    {
      ghost var c, s := Cfg(), m;
      assert QueryOk(c, s.active[i]);
      status, sent, id := TakeReply(pkt, servi, now, q, i);
      AnswerInv(c, s, i, servi, pkt, status, now, sent, id);
      ReplyCalls(c, s, i, servi, pkt, status, now, sent, id);
    }

    method ParseReply(pkt: seq<byte>, q: DnsQuery, ghost r: Query) returns (status: int)
      requires HeaderOk(pkt) && Cfg().Valid() && Shows(Cfg(), srchend, q, r) && |Wire(r.name)| <= MAXDN + 1
      requires Matches(pkt, r.name, r.typcls) && VerdictOf(pkt) == Positive
      ensures StatusIs(pkt, q.parse, r.name, status)
    {
      match q.parse {
        case None => status := |pkt|;
        case Some(k) =>
          var at := Packets.NextPos(pkt, Packets.HSIZE);
          WholeName(q.dn, r.name);
          var result;
          status, result := RRBuilders.Build(k, pkt, RRIter.Given(q.dn), at, RRIter.Name(r.name, false));
      }
    }

    method DropWait(q: DnsQuery, ghost i: nat, ghost r: Query, k: nat) returns (ghost t: Query)
      requires ShapeBut(q, i, r)
      modifies q`servwait
      ensures t == Heard(r, k) && ShapeBut(q, i, t)
    {
      assert OthersShow(Cfg(), srchend, active.nodes, m.active[i := r], q);
      q.servwait := q.servwait - {k};
      t := Heard(r, k);
      Reshape(q, i, r, t);
    }

    method MarkNoEdns(q: DnsQuery, ghost i: nat, ghost r: Query, k: nat) returns (ghost t: Query)
      requires ShapeBut(q, i, r)
      modifies q`servnEDNS0
      ensures t == r.(noEdns := r.noEdns + {k}) && ShapeBut(q, i, t)
    {
      assert OthersShow(Cfg(), srchend, active.nodes, m.active[i := r], q);
      q.servnEDNS0 := q.servnEDNS0 + {k};
      t := r.(noEdns := r.noEdns + {k});
      Reshape(q, i, r, t);
    }

    method MarkSkip(q: DnsQuery, ghost i: nat, ghost r: Query, k: nat) returns (ghost t: Query)
      requires ShapeBut(q, i, r)
      modifies q`servskip
      ensures t == r.(skip := r.skip + {k}) && ShapeBut(q, i, t)
    {
      assert OthersShow(Cfg(), srchend, active.nodes, m.active[i := r], q);
      q.servskip := q.servskip + {k};
      t := r.(skip := r.skip + {k});
      Reshape(q, i, r, t);
    }

    // Server k has failed.
    method SkipServ(q: DnsQuery, k: nat, now: nat, ghost i: nat, ghost r: Query) returns (sent: Sending)
      requires ShapeBut(q, i, r) && r.servi <= |serv| && |Wire(r.name)| <= MAXDN + 1
      modifies this`nactive, this`qstatus, this`called, this`m, active, Elems(active.nodes), pbuf
      ensures m == Skipped(Cfg(), old(m), i, r.(skip := r.skip + {k}), now, sent) && Shape(m.active)
      ensures Elems(active.nodes) <= old(Elems(active.nodes))
    {
      sent := Lost;
      ghost var t := MarkSkip(q, i, r, k);
      if q.servwait == {} {
        sent := Send(q, now, i, t);
      } else {
        m := m.(active := m.active[i := t]);
      }
    }

    // No data, or no such name: go on with the next candidate, if there is one.
    method SearchFurther(q: DnsQuery, pkt: seq<byte>, now: nat, ghost i: nat, ghost r: Query)
      returns (sent: Sending, id: Id)
      requires ShapeBut(q, i, r) && r.next <= |search| + 1 && r.servi <= |serv| && HeaderOk(pkt)
      requires VerdictOf(pkt) == NoAnswer || VerdictOf(pkt) == NxDomain
      modifies this`nextid, this`nactive, this`qstatus, this`called, this`m, active, Elems(active.nodes), pbuf
      ensures m == SearchOn(Cfg(), old(m), i, r, pkt, now, sent, id) && Shape(m.active)
      ensures Elems(active.nodes) <= old(Elems(active.nodes))
    {
      ghost var c, s := Cfg(), m;
      ghost var h := r.(hist := r.hist.(answers := r.hist.answers + [pkt]));
      OnRecord(q, i, r, h);
      var v := VerdictOf(pkt);
      ghost var t;
      sent, id, t := SendNextName(q, v, now, i, h);
      SearchOnIs(c, s, i, r, pkt, v, now, sent, id, t);
    }

    method SendNextName(q: DnsQuery, v: Verdict, now: nat, ghost i: nat, ghost h: Query)
      returns (sent: Sending, id: Id, ghost t: Query)
      requires ShapeBut(q, i, h) && h.next <= |search| + 1 && h.servi <= |serv|
      requires v == NoAnswer || v == NxDomain
      modifies this`nextid, this`nactive, this`qstatus, this`called, this`m, active, Elems(active.nodes), pbuf
      ensures NextNameIs(Cfg(), h, v, id, t) && Shape(m.active)
      ensures m == if NextFit(Cfg(), h.orig, h.asIsDone, h.next) > |search| then
                     End(old(m), i, t, Exhausted(OutcomeOf(v)))
                   else ResolverModel.Send(Cfg(), old(m), i, t, now, sent)
      ensures Elems(active.nodes) <= old(Elems(active.nodes))
    {
      var found;
      found, t := NextName(q, i, h);
      id := q.id;
      sent := Lost;
      if found {
        FitsName(Cfg(), h.orig, h.asIsDone, NextFit(Cfg(), h.orig, h.asIsDone, h.next));
        sent, t := SendFoundName(q, v, now, i, t);
      } else {
        EndSearch(q, v, i, t);
      }
    }

    method SendFoundName(q: DnsQuery, v: Verdict, now: nat, ghost i: nat, ghost r: Query)
      returns (sent: Sending, ghost t: Query)
      requires ShapeBut(q, i, r) && r.servi <= |serv| && |Wire(r.name)| <= MAXDN + 1
      modifies this`nactive, this`qstatus, this`called, this`m, active, Elems(active.nodes), pbuf
      ensures t == if v == NoAnswer then r.(seenNoData := true) else r
      ensures m == ResolverModel.Send(Cfg(), old(m), i, t, now, sent) && Shape(m.active)
      ensures Elems(active.nodes) <= old(Elems(active.nodes))
    {
      t := r;
      if v == NoAnswer {
        t := Remember(q, i, r);
      }
      sent := Send(q, now, i, t);
    }

    // The search has run out.
    method EndSearch(q: DnsQuery, v: Verdict, ghost i: nat, ghost t: Query)
      requires ShapeBut(q, i, t) && (v == NoAnswer || v == NxDomain)
      modifies this`nactive, this`qstatus, this`called, this`m, active, Elems(active.nodes)`next,
               Elems(active.nodes)`prev
      ensures m == End(old(m), i, t, Exhausted(OutcomeOf(v))) && Shape(m.active)
      ensures Elems(active.nodes) <= old(Elems(active.nodes))
    {
      var status := if v == NoAnswer || q.seenNoData then E_NODATA else E_NXDOMAIN;
      EndQuery(q, i, status, t, Done(t, Exhausted(OutcomeOf(v))));
    }

    // dns_next_srch for the query at entry i
    method NextName(q: DnsQuery, ghost i: nat, ghost r: Query) returns (found: bool, ghost t: Query)
      requires ShapeBut(q, i, r) && r.next <= |search| + 1
      modifies this`nextid, q`id, q`try, q`servi, q`servwait, q`servskip, q`servnEDNS0, q`nxtsrch, q`asIsDone, q`dn
      ensures ShapeBut(q, i, t)
      ensures found <==> NextFit(Cfg(), r.orig, r.asIsDone, r.next) <= |search|
      ensures var k := NextFit(Cfg(), r.orig, r.asIsDone, r.next);
              t == if found then TakeUp(Cfg(), r, k, q.id) else r.(next := k)
    {
      assert OthersShow(Cfg(), srchend, active.nodes, m.active[i := r], q);
      found, t := NextSrch(q, r);
      StillFixed();
      Reshape(q, i, r, t);
    }

    method Remember(q: DnsQuery, ghost i: nat, ghost r: Query) returns (ghost t: Query)
      requires ShapeBut(q, i, r)
      modifies q`seenNoData
      ensures t == r.(seenNoData := true) && ShapeBut(q, i, t)
    {
      assert OthersShow(Cfg(), srchend, active.nodes, m.active[i := r], q);
      q.seenNoData := true;
      t := r.(seenNoData := true);
      Reshape(q, i, r, t);
    }

    // What is on record about a query does not show.
    lemma OnRecord(q: DnsQuery, i: nat, r: Query, t: Query)
      requires ShapeBut(q, i, r) && t == r.(hist := t.hist)
      ensures ShapeBut(q, i, t)
    {
      assert OthersShow(Cfg(), srchend, active.nodes, m.active[i := r], q);
      Reshape(q, i, r, t);
    }

    // The rest of dns_ioevent, for a reply from server k that matches the query at entry i.
    method TakeReply(pkt: seq<byte>, k: nat, now: nat, q: DnsQuery, ghost i: nat)
      returns (status: int, sent: Sending, id: Id)
      requires Shape(m.active) && HeaderOk(pkt) && i < |m.active| && active.nodes[i] == q && QueryOk(Cfg(), m.active[i])
      requires Matches(pkt, m.active[i].name, m.active[i].typcls)
      modifies this`nextid, this`nactive, this`qstatus, this`called, this`m, active, Elems(active.nodes), pbuf
      ensures Shape(m.active) && m == Reply(Cfg(), old(m), i, k, pkt, status, now, sent, id)
      ensures k in old(m).active[i].wait && VerdictOf(pkt) == Positive ==>
                StatusIs(pkt, q.parse, old(m).active[i].name, status)
      ensures Elems(active.nodes) <= old(Elems(active.nodes))
    {
      status, sent, id := |pkt|, Lost, q.id;
      ghost var r0 := m.active[i];
      assert Shows(Cfg(), srchend, active.nodes[i], r0);
      assert m.active[i := r0] == m.active;
      if k !in q.servwait {
        return;
      }
      ghost var r := DropWait(q, i, r0, k);
      status, sent, id := Act(pkt, k, now, q, i, r);
    }

    // What the rcode asks for, when server k has been taken off the servers waited for.
    method Act(pkt: seq<byte>, k: nat, now: nat, q: DnsQuery, ghost i: nat, ghost r: Query)
      returns (status: int, sent: Sending, id: Id)
      requires ShapeBut(q, i, r) && HeaderOk(pkt) && InBounds(Cfg(), r) && k < |serv| && Matches(pkt, r.name, r.typcls)
      modifies this`nextid, this`nactive, this`qstatus, this`called, this`m, active, Elems(active.nodes), pbuf
      ensures Shape(m.active) && m == AfterReply(Cfg(), old(m), i, r, k, pkt, status, now, sent, id)
      ensures VerdictOf(pkt) == Positive ==> StatusIs(pkt, q.parse, r.name, status)
      ensures Elems(active.nodes) <= old(Elems(active.nodes))
    {
      status, sent, id := |pkt|, Lost, q.id;
      match VerdictOf(pkt) {
        case Positive =>
          status := Complete(pkt, q, i, r);
        case NoAnswer =>
          sent, id := SearchFurther(q, pkt, now, i, r);
        case NxDomain =>
          sent, id := SearchFurther(q, pkt, now, i, r);
        case FormErr =>
          sent := WithoutEdns(q, k, now, i, r);
        case Trouble =>
          sent := SkipServ(q, k, now, i, r);
      }
    }

    // A positive reply
    method Complete(pkt: seq<byte>, q: DnsQuery, ghost i: nat, ghost r: Query) returns (status: int)
      requires ShapeBut(q, i, r) && HeaderOk(pkt) && |Wire(r.name)| <= MAXDN + 1 && Matches(pkt, r.name, r.typcls)
      requires VerdictOf(pkt) == Positive
      modifies this`nactive, this`qstatus, this`called, this`m, active, Elems(active.nodes)`next,
               Elems(active.nodes)`prev
      ensures Shape(m.active) && m == End(old(m), i, r, Answered(status))
      ensures StatusIs(pkt, q.parse, r.name, status)
      ensures Elems(active.nodes) <= old(Elems(active.nodes))
    {
      status := ParseReply(pkt, q, r);
      EndQuery(q, i, status, r, Done(r, Answered(status)));
    }

    // The server may not know EDNS0: ask it again without, once.
    method WithoutEdns(q: DnsQuery, k: nat, now: nat, ghost i: nat, ghost r: Query) returns (sent: Sending)
      requires ShapeBut(q, i, r) && InBounds(Cfg(), r) && k < |serv|
      modifies this`nactive, this`qstatus, this`called, this`m, active, Elems(active.nodes), pbuf
      ensures Shape(m.active)
      ensures m == if udpbuf > MAXPACKET && k !in r.noEdns then
                     ResolverModel.SendThis(Cfg(), old(m), i, r.(noEdns := r.noEdns + {k}), k, now, sent)
                   else Skipped(Cfg(), old(m), i, r.(skip := r.skip + {k}), now, sent)
      ensures Elems(active.nodes) <= old(Elems(active.nodes))
    {
      if udpbuf > MAXPACKET && k !in q.servnEDNS0 {
        ghost var t := MarkNoEdns(q, i, r, k);
        sent := SendThis(q, k, now, i, t);
      } else {
        sent := SkipServ(q, k, now, i, r);
      }
    }

    // recvfrom: as much of a datagram as the buffer holds
    method RecvFrom(bytes: seq<byte>) returns (pkt: seq<byte>)
      requires pbuf.Length == udpbuf
      modifies pbuf
      ensures pkt == bytes[..Min(|bytes|, udpbuf)]
    {
      var n := Min(|bytes|, udpbuf);
      forall i | 0 <= i < n {
        pbuf[i] := bytes[i];
      }
      pkt := pbuf[..n];
    }

    // e is what a packet means in state s: a reply to the first query with its id, which it matches.
    ghost predicate IsReply(s: State, pkt: seq<byte>, from: nat, e: Event) {
      && HeaderOk(pkt) && e.Answer? && e.entry < |s.active| && FirstWithId(s, pkt, e.entry)
      && Matches(pkt, s.active[e.entry].name, s.active[e.entry].typcls)
      && ServerIs(from, e.server) && e.pkt == pkt
    }

    ghost predicate FirstWithId(s: State, pkt: seq<byte>, i: nat)
      requires |pkt| >= Packets.HSIZE && i < |s.active|
    {
      HasId(pkt, s.active[i].id) && forall j {:trigger HasId(pkt, s.active[j].id)} :: 0 <= j < i ==>
        !HasId(pkt, s.active[j].id)
    }

    // A packet that is no reply to any query: its header is wrong, no query has its id, or the first
    // query that has does not match.
    ghost predicate IsStray(s: State, pkt: seq<byte>) {
      HeaderOk(pkt) ==> forall i {:trigger FirstWithId(s, pkt, i)} :: 0 <= i < |s.active| && FirstWithId(s, pkt, i) ==>
        !Matches(pkt, s.active[i].name, s.active[i].typcls)
    }

    // One round of dns_ioevent
    method Receive(bytes: seq<byte>, from: nat, now: nat) returns (ghost es: seq<Event>)
      requires Valid()
      modifies this`nextid, this`nactive, this`qstatus, this`called, this`m, active, Elems(active.nodes), pbuf
      ensures Valid() && Leads(Cfg(), old(m), es, m) && Elems(active.nodes) <= old(Elems(active.nodes))
      ensures Network(es) && Past(es, now)
      ensures var pkt := bytes[..Min(|bytes|, udpbuf)];
              if es == [] then IsStray(old(m), pkt)
              else |es| == 1 && IsReply(old(m), pkt, from, es[0]) && es[0].now == now
    {
      es := [];
      LeadsNowhere(Cfg(), m);
      var pkt := RecvFrom(bytes);
      StillValid();
      if |pkt| < Packets.HSIZE || NumQd(pkt) > 1 || Opcode(pkt) != 0 {
        return;
      }
      es := Take(pkt, from, now);
    }

    method Take(pkt: seq<byte>, from: nat, now: nat) returns (ghost es: seq<Event>)
      requires Valid() && HeaderOk(pkt)
      modifies this`nextid, this`nactive, this`qstatus, this`called, this`m, active, Elems(active.nodes), pbuf
      ensures Valid() && Leads(Cfg(), old(m), es, m) && Elems(active.nodes) <= old(Elems(active.nodes))
      ensures Network(es) && Past(es, now)
      ensures if es == [] then IsStray(old(m), pkt)
              else |es| == 1 && IsReply(old(m), pkt, from, es[0]) && es[0].now == now
    {
      ghost var c, s := Cfg(), m;
      var ok;
      ghost var e;
      ok, e := Dispatch(pkt, from, now);
      es := ReplyRun(c, s, m, ok, e, now);
    }

    // The query that a packet belongs to is looked up by the id.
    method Dispatch(pkt: seq<byte>, from: nat, now: nat) returns (ok: bool, ghost e: Event)
      requires Valid() && HeaderOk(pkt)
      modifies this`nextid, this`nactive, this`qstatus, this`called, this`m, active, Elems(active.nodes), pbuf
      ensures Valid() && Elems(active.nodes) <= old(Elems(active.nodes))
      ensures !ok ==> IsStray(old(m), pkt) && m == old(m)
      ensures ok ==> e.Answer? && IsReply(old(m), pkt, from, e) && e.now == now
                     && m == Reply(Cfg(), old(m), e.entry, e.server, e.pkt, e.status, now, e.sent, e.newid)
    {
      ghost var i;
      var q;
      q, i := active.FindId(Id(pkt[0], pkt[1]));
      IdShows(pkt, i);
      e := Close;
      ok := false;
      if q != null {
        var servi, status, sent, id;
        ok, servi, status, sent, id := Process(pkt, from, now, q, i);
        e := Answer(i, servi, pkt, status, now, sent, id);
      }
    }

    lemma IdShows(pkt: seq<byte>, i: nat)
      requires Shape(m.active) && |pkt| >= Packets.HSIZE && i <= |active.nodes|
      requires forall j {:trigger active.nodes[j].id} :: 0 <= j < i ==> active.nodes[j].id != Id(pkt[0], pkt[1])
      requires i < |active.nodes| ==> active.nodes[i].id == Id(pkt[0], pkt[1])
      ensures i < |m.active| ==> FirstWithId(m, pkt, i)
      ensures forall j :: 0 <= j < i ==> !HasId(pkt, m.active[j].id)
    {
      forall j | 0 <= j < i ensures !HasId(pkt, m.active[j].id) {
        assert Shows(Cfg(), srchend, active.nodes[j], m.active[j]);
        assert active.nodes[j].id != Id(pkt[0], pkt[1]);
      }
      if i < |m.active| {
        assert Shows(Cfg(), srchend, active.nodes[i], m.active[i]);
      }
    }

    // dns_ioevent: all datagrams that have arrived
    method Ioevent(now: nat, dgrams: seq<Datagram>) returns (ghost es: seq<Event>)
      requires Valid()
      modifies this`nextid, this`nactive, this`qstatus, this`called, this`m, active, Elems(active.nodes), pbuf
      ensures Valid() && Leads(Cfg(), old(m), es, m) && Elems(active.nodes) <= old(Elems(active.nodes))
      ensures Network(es) && Past(es, now)
    {
      es := [];
      LeadsNowhere(Cfg(), m);
      var k := 0;
      while k < |dgrams|
        invariant k <= |dgrams| && Network(es) && Past(es, now)
        invariant Valid() && Leads(Cfg(), old(m), es, m) && Elems(active.nodes) <= old(Elems(active.nodes))
      {
        es := ReceiveNext(dgrams[k], now, old(m), es);
        k := k + 1;
      }
    }

    method ReceiveNext(d: Datagram, now: nat, ghost s0: State, ghost es: seq<Event>) returns (ghost all: seq<Event>)
      requires Valid() && Leads(Cfg(), s0, es, m) && Network(es) && Past(es, now)
      modifies this`nextid, this`nactive, this`qstatus, this`called, this`m, active, Elems(active.nodes), pbuf
      ensures Valid() && Elems(active.nodes) <= old(Elems(active.nodes))
      ensures Leads(Cfg(), s0, all, m) && Network(all) && Past(all, now)
    {
      ghost var c, s := Cfg(), m;
      ghost var fs := Receive(d.bytes, d.from, now);
      LeadsOn(c, s0, es, s, fs, m);
      PastJoined(es, fs, now);
      all := es + fs;
    }

    // ---------- waiting for a query ----------

    // dns_resolve, which does not wait for a query twice. Each round is one return of poll; `rounds` is
    // what the world has to offer. The loop is left when the callback has run, when the world has nothing
    // more to offer, and when the wait is negative as an int. The last does not happen, and no more rounds
    // are quiet than there are sendings to come, when the options keep the waits below 2^31, or in
    // milliseconds below 2^31, and the clock does not go back.
    method Resolve(q: DnsQuery?, start: nat, rounds: seq<Round>) returns (done: bool, used: nat, at: nat)
      requires Valid() && (q != null ==> q in active.nodes)
      modifies this`nextid, this`nactive, this`qstatus, this`called, this`m, active, Elems(active.nodes), pbuf
      ensures Valid()
      ensures q == null || old(q.sync) ==> !done && used == 0 && m == old(m)
      ensures q != null && old(q.sync) ==> qstatus == E_BADQUERY
      ensures q != null && !old(q.sync) ==>
                && (done <==> q.serial in LogSerials(m.log)) && (!done ==> q.serial in Serials(m.active))
                && (!done ==> used == |rounds| || TimeToWait(m.active, -1, at) < 0)
                && (Calm(Cfg(), old(m).active, start, INTLIMIT) && Steady(rounds) ==> done || used == |rounds|)
                && (Calm(Cfg(), old(m).active, start, POLLLIMIT) && Steady(rounds) ==>
                      QuietAtMost(rounds, used, Fuel(Cfg(), old(m).active)))
    {
      done, used, at := false, 0, start;
      if q == null {
        return;
      }
      if q.sync {
        qstatus := E_BADQUERY;
        StillValid();
        return;
      }
      IsActive(q);
      MarkSync(q);
      ghost var all, terms := [], TermsOf(Cfg(), m.active, start, rounds);
      used, at, all := WaitFor(q.serial, start, rounds, terms);
      StillThere(Cfg(), old(m), all, m, q.serial);
      done := CallbackRan(q.serial);
    }

    // The callback of the query becomes that of dns_resolve.
    method MarkSync(q: DnsQuery)
      requires Valid() && q in active.nodes
      modifies q`sync
      ensures Valid() && m == old(m) && active.nodes == old(active.nodes)
    {
      q.sync := true;
    }

    lemma IsActive(q: DnsQuery)
      requires Valid() && q in active.nodes
      ensures q.serial in Serials(m.active)
    {
      var i :| 0 <= i < |active.nodes| && active.nodes[i] == q;
      assert Shows(Cfg(), srchend, active.nodes[i], m.active[i]);
      SerialThere(m.active, i);
    }

    // The loop of dns_resolve
    method WaitFor(n: nat, start: nat, rounds: seq<Round>, ghost terms: Terms)
      returns (used: nat, now: nat, ghost all: seq<Event>)
      requires Valid() && terms == TermsOf(Cfg(), m.active, start, rounds)
      modifies this`nextid, this`nactive, this`qstatus, this`called, this`m, active, Elems(active.nodes), pbuf
      ensures Valid() && Leads(Cfg(), old(m), all, m) && Network(all)
      ensures m.active == [] || n in LogSerials(m.log) || used == |rounds| || Stuck(terms, m.active, now)
      ensures terms.polls ==> QuietAtMost(rounds, used, terms.fuel)
    {
      used, now, all := 0, start, [];
      LeadsNowhere(Cfg(), m);
      StartGoing(Cfg(), rounds, terms, m.active, now);
      var more, done := true, CallbackRan(n);
      while more && !done
        invariant Valid() && Elems(active.nodes) <= old(Elems(active.nodes))
        invariant Leads(Cfg(), old(m), all, m) && Network(all)
        invariant done ==> n in LogSerials(m.log)
        invariant !more ==> m.active == [] || used == |rounds| || Stuck(terms, m.active, now)
        invariant Going(Cfg(), rounds, used, terms, m.active, now)
        decreases |rounds| - used, more
      {
        now, more, used, all := Turn(now, rounds, used, terms, old(m), all);
        done := CallbackRan(n);
      }
      PaidOff(Cfg(), rounds, used, terms, m.active, now);
    }

    // dns_timeouts, and what follows the next return of poll unless there is nothing to wait for.
    method Turn(now0: nat, rounds: seq<Round>, used: nat, ghost terms: Terms, ghost s0: State, ghost es: seq<Event>)
      returns (now: nat, more: bool, used': nat, ghost all: seq<Event>)
      requires Valid() && Leads(Cfg(), s0, es, m) && Network(es)
      requires Going(Cfg(), rounds, used, terms, m.active, now0)
      modifies this`nextid, this`nactive, this`qstatus, this`called, this`m, active, Elems(active.nodes), pbuf
      ensures Valid() && Elems(active.nodes) <= old(Elems(active.nodes))
      ensures Leads(Cfg(), s0, all, m) && Network(all)
      ensures if more then used' == used + 1 <= |rounds|
              else used' == used && (m.active == [] || used == |rounds| || Stuck(terms, m.active, now))
      ensures Going(Cfg(), rounds, used', terms, m.active, now)
    {
      var wait;
      wait, all := TimeoutsOf(now0, s0, es);
      now, more, all := NextRound(rounds, used, now0, wait, terms, old(m.active), s0, all);
      used' := if more then used + 1 else used;
    }

    method NextRound(rounds: seq<Round>, used: nat, now0: nat, wait: int, ghost terms: Terms, ghost qs0: seq<Query>,
                     ghost s0: State, ghost es: seq<Event>)
      returns (now: nat, more: bool, ghost all: seq<Event>)
      requires Valid() && Leads(Cfg(), s0, es, m) && Network(es)
      requires wait == TimeToWait(m.active, -1, now0)
      requires Going(Cfg(), rounds, used, terms, qs0, now0) && Worked(Cfg(), qs0, now0, m.active)
      modifies this`nextid, this`nactive, this`qstatus, this`called, this`m, active, Elems(active.nodes), pbuf
      ensures Valid() && Elems(active.nodes) <= old(Elems(active.nodes))
      ensures Leads(Cfg(), s0, all, m) && Network(all)
      ensures if more then used < |rounds| else m.active == [] || used == |rounds| || Stuck(terms, m.active, now)
      ensures Going(Cfg(), rounds, if more then used + 1 else used, terms, m.active, now)
    {
      now, all := now0, es;
      more := wait >= 0 && used < |rounds|;
      if more {
        now, all := Poll(rounds[used], now0, wait, s0, es);
      }
      GoingTurn(Cfg(), rounds, used, terms, qs0, now0, old(m.active), more, m.active, now);
    }

    // poll, and dns_ioevent if it has something to read. When the wait in milliseconds does not fit an int,
    // poll may return at any time.
    method Poll(round: Round, now0: nat, wait: nat, ghost s0: State, ghost es: seq<Event>)
      returns (now: nat, ghost all: seq<Event>)
      requires Valid() && Leads(Cfg(), s0, es, m) && Network(es)
      requires m.active != [] && wait == TimeToWait(m.active, -1, now0)
      requires m.active[0].deadline > now0
      modifies this`nextid, this`nactive, this`qstatus, this`called, this`m, active, Elems(active.nodes), pbuf
      ensures Valid() && Elems(active.nodes) <= old(Elems(active.nodes))
      ensures Leads(Cfg(), s0, all, m) && Network(all)
      ensures Polled(Cfg(), round, old(m.active), now0, m.active, now)
    {
      all := es;
      match round {
        case Quiet(late) =>
          now := now0 + (if wait * 1000 < INTLIMIT then wait else 0) + late;
          QuietRound(Cfg(), round, m.active, now0, wait, now);
        case Woken(step, dgrams) =>
          now := if now0 + step >= 0 then now0 + step else 0;
          all := IoeventOf(now, dgrams, s0, es);
      }
    }

    method TimeoutsOf(now: nat, ghost s0: State, ghost es: seq<Event>) returns (wait: int, ghost all: seq<Event>)
      requires Valid() && Leads(Cfg(), s0, es, m) && Network(es)
      modifies this`nactive, this`qstatus, this`called, this`m, active, Elems(active.nodes), pbuf
      ensures Valid() && Elems(active.nodes) <= old(Elems(active.nodes))
      ensures Leads(Cfg(), s0, all, m) && Network(all)
      ensures wait == TimeToWait(m.active, -1, now) && Worked(Cfg(), old(m.active), now, m.active)
    {
      ghost var c, s := Cfg(), m;
      ghost var fs;
      wait, fs := Timeouts(-1, now);
      LeadsOn(c, s0, es, s, fs, m);
      LeadsIsRun(c, s, fs, m);
      WorkedOff(c, s, fs, now);
      RunCalm(c, s, fs, now);
      all := es + fs;
    }

    method IoeventOf(now: nat, dgrams: seq<Datagram>, ghost s0: State, ghost es: seq<Event>)
      returns (ghost all: seq<Event>)
      requires Valid() && Leads(Cfg(), s0, es, m) && Network(es)
      modifies this`nextid, this`nactive, this`qstatus, this`called, this`m, active, Elems(active.nodes), pbuf
      ensures Valid() && Elems(active.nodes) <= old(Elems(active.nodes))
      ensures Leads(Cfg(), s0, all, m) && Network(all) && Fuel(Cfg(), m.active) <= Fuel(Cfg(), old(m).active)
      ensures CalmKept(Cfg(), old(m).active, now, m.active, now)
    {
      ghost var c, s := Cfg(), m;
      ghost var fs := Ioevent(now, dgrams);
      LeadsOn(c, s0, es, s, fs, m);
      LeadsIsRun(c, s, fs, m);
      NetworkFuel(c, s, fs);
      RunCalm(c, s, fs, now);
      all := es + fs;
    }

    // The flag that the callback of dns_resolve sets
    function CallbackRan(n: nat): (done: bool)
      requires called == CallsOf(m.log)
      reads `called, `m
      ensures done <==> n in LogSerials(m.log)
    {
      CallsAre(m.log, n);
      exists call :: call in called && call.serial == n
    }

    // ---------- settings ----------

    // dns_add_srch: the name goes behind the search list if it is one and fits; without a name the list
    // becomes empty. Settings change only while no query is active.
    method AddSrch(srch: Option<seq<byte>>) returns (ok: bool)
      requires Valid() && nactive == 0 && (srch.Some? ==> 0 in srch.value)
      modifies this`srchend, this`search, srchbuf
      ensures Valid() && m == old(m)
      ensures match srch
              case None => ok && search == [] && srchend == 0
              case Some(name) =>
                var t := DnFromText.TextArg(name, 0);
                && (ok <==> Names(t) && |Wire(NamedLabels(t))| <= Min(SRCHBUF - old(srchend) - 1, MAXDN))
                && search == old(search) + (if ok then [NamedLabels(t)] else [])
                && srchend == old(srchend) + if ok then |Wire(NamedLabels(t))| else 0
    {
      ghost var c := Cfg();
      match srch {
        case None =>
          ClearSrch();
          ok := true;
        case Some(name) =>
          ok := AppendSrch(name);
      }
      SearchChanged(c, m, search);
      assert active.nodes == [];
    }

    // memset
    method ClearSrch()
      requires Fixed()
      modifies this`srchend, this`search, srchbuf
      ensures Fixed() && search == [] && srchend == 0
    {
      forall i | 0 <= i < srchbuf.Length {
        srchbuf[i] := 0;
      }
      srchend, search := 0, [];
      assert srchbuf[..1] == [0];
    }

    method AppendSrch(name: seq<byte>) returns (ok: bool)
      requires Fixed() && 0 in name
      modifies this`srchend, this`search, srchbuf
      ensures Fixed()
      ensures var t := DnFromText.TextArg(name, 0);
              && (ok <==> Names(t) && |Wire(NamedLabels(t))| <= Min(SRCHBUF - old(srchend) - 1, MAXDN))
              && search == old(search) + (if ok then [NamedLabels(t)] else [])
              && srchend == old(srchend) + if ok then |Wire(NamedLabels(t))| else 0
    {
      var room := SRCHBUF - srchend - 1;
      var tmp := new byte[room];
      var dnl, _ := DnFromText.PToDn(name, 0, tmp, room);
      ok := dnl > 0;
      if ok {
        PutElement(tmp, dnl, NamedLabels(DnFromText.TextArg(name, 0)));
      }
    }

    // The new element and the terminator of the list.
    method PutElement(tmp: array<byte>, dnl: nat, ghost labels: Labels)
      requires Fixed() && ShortLabels(labels) && tmp != srchbuf
      requires dnl == |Wire(labels)| && srchend + dnl < SRCHBUF && dnl <= tmp.Length && tmp[..dnl] == Wire(labels)
      modifies this`srchend, this`search, srchbuf
      ensures Fixed() && search == old(search) + [labels] && srchend == old(srchend) + dnl
    {
      ghost var was := PackedFrom(search, 0);
      WithoutRoot(srchbuf[..], srchend, was);
      CopyBytes(tmp, dnl, srchbuf, srchend);
      srchbuf[srchend + dnl] := 0;
      PackedMore(search, labels, 0);
      OneMoreElement(srchbuf[..], srchend, was, Wire(labels));
      search := search + [labels];
      srchend := srchend + dnl;
    }
  }

  method CopyBytes(from: array<byte>, n: nat, to: array<byte>, at: nat)
    requires from != to && n <= from.Length && at + n <= to.Length
    modifies to
    ensures to[..at] == old(to[..at]) && to[at..at + n] == from[..n]
  {
    forall i | 0 <= i < n {
      to[at + i] := from[i];
    }
  }

  lemma WithoutRoot(buf: seq<byte>, end: nat, packed: seq<byte>)
    requires end < |buf| && buf[..end + 1] == packed + [0]
    ensures |packed| == end && buf[..end] == packed
  {
    assert buf[..end] == buf[..end + 1][..end];
  }

  lemma OneMoreElement(buf: seq<byte>, end: nat, was: seq<byte>, w: seq<byte>)
    requires end == |was| && end + |w| < |buf| && buf[..end] == was && buf[end..end + |w|] == w && buf[end + |w|] == 0
    ensures buf[..end + |w| + 1] == (was + w) + [0]
  {
  }

  lemma {:induction false} SerialThere(qs: seq<Query>, i: nat)
    requires i < |qs|
    ensures qs[i].serial in Serials(qs)
  {
    if i > 0 { SerialThere(qs[1..], i - 1); }
  }

  lemma {:induction false} CallsAre(log: seq<Done>, n: nat)
    ensures (exists call :: call in CallsOf(log) && call.serial == n) <==> n in LogSerials(log)
    decreases |log|
  {
    if log != [] {
      var front, d := log[..|log| - 1], log[|log| - 1];
      CallsAre(front, n);
      assert log == front + [d];
      LogSerialsSnoc(front, d);
      assert Call(d.q.serial, d.Status()) in CallsOf(log);
    }
  }

  lemma {:induction false} PackedMore(search: seq<Labels>, l: Labels, k: nat)
    requires (forall i :: 0 <= i < |search| ==> Labelled(search[i])) && Labelled(l) && k <= |search|
    ensures PackedFrom(search + [l], k) == PackedFrom(search, k) + Wire(l)
    decreases |search| - k
  {
    if k < |search| {
      PackedMore(search, l, k + 1);
      Assoc(Wire(search[k]), PackedFrom(search, k + 1), Wire(l));
    } else {
      assert PackedFrom(search + [l], k + 1) == [];
    }
  }

  lemma WholeName(dn: seq<byte>, labels: Labels)
    requires Labelled(labels) && dn == Wire(labels)
    ensures Terminated(dn, 0) && LabelsAt(dn, 0) == labels
  {
    LabelsOfWire([], labels, []);
    assert [] + Wire(labels) + [] == dn;
  }
}
