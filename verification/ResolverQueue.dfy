// The query object and the list of active queries: qlist_remove, qlist_add_head, qlist_insert_after.
module ResolverQueue {
  import opened Seqs
  import opened DomainNames
  import opened ResolverModel
  import RRBuilders

  // struct dns_query. The serial number stands for the identity of the object; nxtsrch is an index into
  // the packed search list; the server masks are sets of server numbers. parse is the parsing routine, if
  // there is one; sync says that the callback is that of dns_resolve.
  class DnsQuery {
    var next: DnsQuery?
    var prev: DnsQuery?
    const serial: nat
    const typcls: seq<byte>
    const flags: Flags
    const parse: Option<RRBuilders.Kind>
    const origdnl0: nat
    var sync: bool
    var asIsDone: bool
    var seenNoData: bool
    var servi: nat
    var servwait: set<nat>
    var servskip: set<nat>
    var servnEDNS0: set<nat>
    var try: nat
    var nxtsrch: nat
    var deadline: nat
    var id: Id
    var dn: seq<byte>

    // calloc, and what dns_submit_dn fills in
    constructor (serial: nat, dn: seq<byte>, typcls: seq<byte>, flags: Flags, parse: Option<RRBuilders.Kind>)
      requires dn != []
      ensures this.serial == serial && this.dn == dn && this.typcls == typcls && this.flags == flags
      ensures this.parse == parse && !sync && origdnl0 == |dn| - 1 && !asIsDone && !seenNoData && deadline == 0
              && nxtsrch == 0
      ensures servi == 0 && servwait == {} && servskip == {} && servnEDNS0 == {} && try == 0 && id == Id(0, 0)
    {
      this.serial, this.dn, this.typcls, this.flags, this.parse := serial, dn, typcls, flags, parse;
      origdnl0 := |dn| - 1;
      next, prev := null, null;
      sync, asIsDone, seenNoData := false, false, false;
      servi, servwait, servskip, servnEDNS0, try := 0, {}, {}, {}, 0;
      nxtsrch, deadline, id := 0, 0, Id(0, 0);
    }
  }

  // The neighbours in the list, null beyond its ends.
  ghost function Behind(s: seq<DnsQuery>, i: nat): DnsQuery? {
    if i + 1 < |s| then s[i + 1] else null
  }

  ghost function Ahead(s: seq<DnsQuery>, i: nat): DnsQuery? {
    if 0 < i <= |s| then s[i - 1] else null
  }

  ghost function First(s: seq<DnsQuery>): DnsQuery? {
    if s == [] then null else s[0]
  }

  ghost function Last(s: seq<DnsQuery>): DnsQuery? {
    if s == [] then null else s[|s| - 1]
  }

  // struct dns_qlist
  class QList {
    var head: DnsQuery?
    var tail: DnsQuery?
    ghost var nodes: seq<DnsQuery>

    // head, tail, next and prev agree.
    ghost predicate Valid()
      reads this, Elems(nodes)`next, Elems(nodes)`prev
    {
      && Distinct(nodes) && head == First(nodes) && tail == Last(nodes)
      && (forall i {:trigger nodes[i].next} :: 0 <= i < |nodes| ==> nodes[i].next == Behind(nodes, i))
      && (forall i {:trigger nodes[i].prev} :: 0 <= i < |nodes| ==> nodes[i].prev == Ahead(nodes, i))
    }

    // qlist_init
    constructor ()
      ensures Valid() && nodes == []
    {
      head, tail, nodes := null, null, [];
    }

    method Remove(q: DnsQuery, ghost k: nat)
      requires Valid() && k < |nodes| && nodes[k] == q
      modifies this, Elems(nodes)`next, Elems(nodes)`prev
      ensures Valid() && nodes == old(nodes)[..k] + old(nodes)[k + 1..]
    {
      if q.prev != null {
        q.prev.next := q.next;
      } else {
        head := q.next;
      }
      if q.next != null {
        q.next.prev := q.prev;
      } else {
        tail := q.prev;
      }
      nodes := nodes[..k] + nodes[k + 1..];
    }

    // The loop of dns_close, and qlist_init
    method Clear()
      requires Valid()
      modifies this
      ensures Valid() && nodes == []
    {
      var p := head;
      ghost var k := 0;
      while p != null
        invariant k <= |nodes| && p == (if k < |nodes| then nodes[k] else null)
        decreases |nodes| - k
      {
        p := p.next;
        k := k + 1;
      }
      head, tail, nodes := null, null, [];
    }

    method AddHead(q: DnsQuery)
      requires Valid() && q !in nodes
      modifies this, Elems(nodes)`prev, q`next, q`prev
      ensures Valid() && nodes == [q] + old(nodes)
    {
      q.next := head;
      if head != null {
        head.prev := q;
      } else {
        tail := q;
      }
      head := q;
      q.prev := null;
      nodes := [q] + nodes;
    }

    // q goes behind the first k nodes.
    method InsertAfter(q: DnsQuery, prev: DnsQuery?, ghost k: nat)
      requires Valid() && q !in nodes && k <= |nodes| && prev == Ahead(nodes, k)
      modifies this, Elems(nodes)`next, Elems(nodes)`prev, q`next, q`prev
      ensures Valid() && nodes == old(nodes)[..k] + [q] + old(nodes)[k..]
    {
      q.prev := prev;
      if prev != null {
        q.next := prev.next;
        if q.next != null {
          q.next.prev := q;
        } else {
          tail := q;
        }
        prev.next := q;
        nodes := nodes[..k] + [q] + nodes[k..];
      } else {
        AddHead(q);
        assert old(nodes)[..0] == [];
      }
    }

    // The loop at the end of dns_send_this: q goes behind the last node that is due no later.
    method InsertByDeadline(q: DnsQuery) returns (ghost k: nat)
      requires Valid() && q !in nodes
      modifies this, Elems(nodes)`next, Elems(nodes)`prev, q`next, q`prev
      ensures k <= |old(nodes)| && Valid() && nodes == old(nodes)[..k] + [q] + old(nodes)[k..]
      ensures k > 0 ==> old(nodes)[k - 1].deadline <= q.deadline
      ensures forall j :: k <= j < |old(nodes)| ==> old(nodes)[j].deadline > q.deadline
    {
      var p := tail;
      k := |nodes|;
      while p != null && p.deadline > q.deadline
        invariant k <= |nodes| && p == Ahead(nodes, k)
        invariant forall j {:trigger nodes[j].deadline} :: k <= j < |nodes| ==> nodes[j].deadline > q.deadline
        decreases k
      {
        k := k - 1;
        p := p.prev;
      }
      InsertAfter(q, p, k);
    }

    // The search by id: the first node with this id.
    method FindId(id: Id) returns (q: DnsQuery?, ghost k: nat)
      requires Valid()
      ensures k <= |nodes| && forall j {:trigger nodes[j].id} :: 0 <= j < k ==> nodes[j].id != id
      ensures q == (if k < |nodes| then nodes[k] else null) && (k < |nodes| ==> nodes[k].id == id)
      ensures if q == null then forall n :: n in nodes ==> n.id != id else q in nodes && q.id == id
    {
      q, k := head, 0;
      while q != null && q.id != id
        invariant k <= |nodes| && q == (if k < |nodes| then nodes[k] else null)
        invariant forall j {:trigger nodes[j].id} :: 0 <= j < k ==> nodes[j].id != id
        decreases |nodes| - k
      {
        q := q.next;
        k := k + 1;
      }
    }
  }
}
