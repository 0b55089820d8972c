// The stub resolver of udns_resolver.c as a state machine: what one event does to the active list, and
// what has happened to each query so far.
module ResolverModel {
  import opened Bits
  import opened Status
  import opened DomainNames
  import opened ReplyHeader
  import Packets

  const MAXSERV := 6
  const MAXPACKET := 512
  const MAXUDPBUF := 65536
  const SRCHBUF := 1024

  datatype Flags = Flags(noRd: bool, aaOnly: bool, setCd: bool, setDo: bool)

  // The settings of a context; search is the search list, one name per element.
  datatype Config = Config(timeout: nat, ntries: nat, ndots: nat, udpbuf: nat, nserv: nat, search: seq<Labels>) {
    ghost predicate Valid() {
      && ntries >= 1 && nserv <= MAXSERV && MAXPACKET <= udpbuf <= MAXUDPBUF
      && forall k :: 0 <= k < |search| ==> Labelled(search[k])
    }
  }

  datatype Outcome = NoData | NoDomain

  // What has happened to a query: whether its caller wanted no search, the search list when it was
  // submitted, the names tried, the reply to each but the current one, the servers it was sent to and
  // those whose replies were processed since the current name was taken up, how often it has been sent in
  // all, and when it was last sent, or when it was submitted if it has not been sent.
  datatype History = History(noSearch: bool, search: seq<Labels>, tried: seq<Labels>, answers: seq<seq<byte>>,
                             sentTo: seq<nat>, replied: seq<nat>, total: nat, stamp: nat)

  datatype Id = Id(hi: byte, lo: byte)

  // struct dns_query. The cursor `next` counts the elements of the search list; the one behind the list
  // is the root.
  datatype Query = Query(serial: nat, orig: Labels, typcls: seq<byte>, flags: Flags, name: Labels, id: Id,
                         asIsDone: bool, seenNoData: bool, next: nat,
                         servi: nat, wait: set<nat>, skip: set<nat>, noEdns: set<nat>, try: nat, deadline: nat,
                         hist: History)

  // Why a query ended: an answer (with the status of its parsing), no more names to search, or no
  // server left to ask.
  datatype Reason = Answered(status: int) | Exhausted(last: Outcome) | Failed

  datatype Done = Done(q: Query, reason: Reason) {
    // The status handed to the callback.
    function Status(): int {
      match reason
      case Answered(status) => status
      case Failed => E_TEMPFAIL
      case Exhausted(last) => if last == NoData || q.seenNoData then E_NODATA else E_NXDOMAIN
    }
  }

  datatype State = State(active: seq<Query>, submitted: nat, log: seq<Done>, cancelled: seq<nat>, dropped: seq<nat>,
                         ticks: nat)

  const START := State([], 0, [], [], [], 0)

  // ---------- the search list ----------

  function Suffix(c: Config, k: nat): Labels {
    if k < |c.search| then c.search[k] else []
  }

  // The candidate orig + suffix is at most 255 bytes long, and is not the name as it is once that has
  // been tried.
  ghost predicate Fits(c: Config, orig: Labels, asIsDone: bool, k: nat) {
    && Labelled(orig) && Labelled(Suffix(c, k))
    && |LabelBytes(orig)| + |Wire(Suffix(c, k))| <= MAXDN
    && (Suffix(c, k) != [] || !asIsDone)
  }

  // The first element from k on that fits; |search| + 1 if there is none.
  ghost function NextFit(c: Config, orig: Labels, asIsDone: bool, k: nat): (r: nat)
    ensures k <= r && (k <= |c.search| + 1 ==> r <= |c.search| + 1)
    ensures r <= |c.search| ==> Fits(c, orig, asIsDone, r)
    decreases |c.search| + 1 - k
  {
    if k > |c.search| || Fits(c, orig, asIsDone, k) then k else NextFit(c, orig, asIsDone, k + 1)
  }

  // dns_newid, without the choice of the id
  function NewId(q: Query, id: Id): Query {
    q.(id := id, try := 0, servi := 0, wait := {}, skip := {}, noEdns := {},
       hist := q.hist.(sentTo := [], replied := []))
  }

  // The query with element k of the search list taken up.
  function TakeUp(c: Config, q: Query, k: nat, id: Id): Query {
    var name := q.orig + Suffix(c, k);
    NewId(q.(name := name, asIsDone := q.asIsDone || Suffix(c, k) == [], next := k + 1,
             hist := q.hist.(tried := q.hist.tried + [name])), id)
  }

  // dns_submit_dn: the new query, not yet sent. The result of dns_next_srch is not looked at: when no
  // candidate fits, the name stays as it is, with the id zero.
  ghost function NewQuery(c: Config, serial: nat, stamp: nat, dn: Labels, typcls: seq<byte>, flags: Flags,
                          noSearch: bool, id: Id): Query
  {
    var asIs := AsIsFirst(c, dn, noSearch);
    var q := Query(serial, dn, typcls, flags, dn, Id(0, 0), asIs, false, if noSearch then |c.search| else 0,
                   0, {}, {}, {}, 0, 0, History(noSearch, c.search, [], [], [], [], 0, stamp));
    var k := NextFit(c, dn, false, 0);
    if asIs then NewId(q.(hist := q.hist.(tried := [dn])), id)
    else if k > |c.search| then q.(next := k, hist := q.hist.(tried := [dn]))
    else TakeUp(c, q, k, id)
  }

  predicate AsIsFirst(c: Config, dn: Labels, noSearch: bool) {
    noSearch || |dn| > c.ndots
  }

  // ---------- the active list ----------

  function Without(qs: seq<Query>, i: nat): seq<Query>
    requires i < |qs|
  {
    qs[..i] + qs[i + 1..]
  }

  // Behind the last query that is due no later: inserted from the tail.
  function Place(qs: seq<Query>, q: Query): seq<Query> {
    if qs == [] || qs[|qs| - 1].deadline <= q.deadline then qs + [q]
    else Place(qs[..|qs| - 1], q) + [qs[|qs| - 1]]
  }

  // ---------- sending ----------

  // dns_find_serv: the first server from servi on that is not to be skipped, nserv if there is none
  function FindServ(nserv: nat, skip: set<nat>, servi: nat): (r: nat)
    ensures servi <= r && (servi <= nserv ==> r <= nserv) && (r < nserv ==> r !in skip)
    ensures forall i :: servi <= i < r ==> i in skip
    decreases nserv - servi
  {
    if servi >= nserv || servi !in skip then servi else FindServ(nserv, skip, servi + 1)
  }

  // What became of a sending: sendto failed ten times, or the packet went out. A shift by 32 or more is
  // undefined in C; `beyond` is the value that it gives.
  datatype Sending = Lost | Gone(beyond: nat)

  // timeout << try, in 32 bits
  function Backoff(timeout: nat, try: nat, beyond: nat): nat {
    if try < 32 then timeout * Pow2(try) % 0x1_0000_0000 else beyond
  }

  // dns_end_query for entry i, whose last state is q
  function End(s: State, i: nat, q: Query, reason: Reason): State
    requires i < |s.active|
  {
    s.(active := Without(s.active, i), log := s.log + [Done(q, reason)])
  }

  // The query that has been sent to server k.
  function Sent(c: Config, q: Query, k: nat, now: nat, beyond: nat, stamp: nat): Query {
    var f := FindServ(c.nserv, q.skip, q.servi);
    q.(wait := q.wait + {k}, servi := f,
       deadline := now + if f < c.nserv then 1 else Backoff(c.timeout, q.try, beyond),
       hist := q.hist.(sentTo := q.hist.sentTo + [k], total := q.hist.total + 1, stamp := stamp))
  }

  // dns_send_this for entry i, whose state has become q: to server k
  function SendThis(c: Config, s: State, i: nat, q: Query, k: nat, now: nat, sent: Sending): State
    requires i < |s.active|
  {
    if sent.Gone? then
      s.(active := Place(Without(s.active, i), Sent(c, q, k, now, sent.beyond, s.ticks)), ticks := s.ticks + 1)
    else End(s, i, q, Failed)
  }

  // The server to send to next, and the query with its counters moved on; or the end of all tries.
  datatype Choice = Server(q: Query, k: nat) | NoServer(q: Query)

  function Choose(c: Config, q: Query): Choice {
    var f := FindServ(c.nserv, q.skip, q.servi);
    if f < c.nserv then Server(q.(servi := f + 1), f)
    else
      var q' := q.(servi := 0, try := q.try + 1);
      var g := FindServ(c.nserv, q.skip, 0);
      if q'.try >= c.ntries || g >= c.nserv then NoServer(q') else Server(q'.(servi := g + 1), g)
  }

  // dns_send for entry i, whose state has become q
  function Send(c: Config, s: State, i: nat, q: Query, now: nat, sent: Sending): State
    requires i < |s.active|
  {
    match Choose(c, q)
    case Server(r, k) => SendThis(c, s, i, r, k, now, sent)
    case NoServer(r) => End(s, i, r, Failed)
  }

  // ---------- replies ----------

  function OutcomeOf(v: Verdict): Outcome {
    if v == NoAnswer then NoData else NoDomain
  }

  // The next candidate, or the end of the search.
  ghost function SearchOn(c: Config, s: State, i: nat, q: Query, pkt: seq<byte>, now: nat, sent: Sending, id: Id): State
    requires i < |s.active| && |pkt| >= Packets.HSIZE
  {
    var v := VerdictOf(pkt);
    var k := NextFit(c, q.orig, q.asIsDone, q.next);
    var h := q.hist.(answers := q.hist.answers + [pkt]);
    if k > |c.search| then End(s, i, q.(next := k, hist := h), Exhausted(OutcomeOf(v)))
    else
      var q' := TakeUp(c, q.(hist := h), k, id);
      Send(c, s, i, if v == NoAnswer then q'.(seenNoData := true) else q', now, sent)
  }

  // A reply from server k to entry i; it is ignored unless it is waited for.
  ghost function Reply(c: Config, s: State, i: nat, k: nat, pkt: seq<byte>, status: int, now: nat, sent: Sending,
                       id: Id): State
    requires i < |s.active| && |pkt| >= Packets.HSIZE
  {
    if k !in s.active[i].wait then s
    else AfterReply(c, s, i, Heard(s.active[i], k), k, pkt, status, now, sent, id)
  }

  // The reply of server k is no longer waited for.
  function Heard(q: Query, k: nat): Query {
    q.(wait := q.wait - {k}, hist := q.hist.(replied := q.hist.replied + [k]))
  }

  // What the reply asks for, once its server is no longer waited for.
  ghost function AfterReply(c: Config, s: State, i: nat, q: Query, k: nat, pkt: seq<byte>, status: int, now: nat,
                            sent: Sending, id: Id): State
    requires i < |s.active| && |pkt| >= Packets.HSIZE
  {
    match VerdictOf(pkt)
    case Positive => End(s, i, q, Answered(status))
    case NoAnswer => SearchOn(c, s, i, q, pkt, now, sent, id)
    case NxDomain => SearchOn(c, s, i, q, pkt, now, sent, id)
    case FormErr =>
      if c.udpbuf > MAXPACKET && k !in q.noEdns then
        SendThis(c, s, i, q.(noEdns := q.noEdns + {k}), k, now, sent)
      else Skipped(c, s, i, q.(skip := q.skip + {k}), now, sent)
    case Trouble => Skipped(c, s, i, q.(skip := q.skip + {k}), now, sent)
  }

  // A server has failed: ask the next one, unless another may still answer.
  function Skipped(c: Config, s: State, i: nat, q: Query, now: nat, sent: Sending): State
    requires i < |s.active|
  {
    if q.wait == {} then Send(c, s, i, q, now, sent) else s.(active := s.active[i := q])
  }

  // ---------- events ----------

  function AddHead(s: State, q: Query): State {
    s.(active := [q] + s.active, submitted := s.submitted + 1, ticks := s.ticks + 1)
  }

  function Cancelled(s: State, i: nat): State
    requires i < |s.active|
  {
    s.(active := Without(s.active, i), cancelled := s.cancelled + [s.active[i].serial])
  }

  function Closed(s: State): State {
    s.(active := [], dropped := s.dropped + Serials(s.active))
  }

  datatype Event =
    | Submit(dn: Labels, typcls: seq<byte>, flags: Flags, noSearch: bool, newid: Id)
    | Expire(now: nat, sent: Sending)
    | Answer(entry: nat, server: nat, pkt: seq<byte>, status: int, now: nat, sent: Sending, newid: Id)
    | Cancel(entry: nat)
    | Close

  ghost predicate Enabled(c: Config, s: State, e: Event) {
    match e
    case Submit(dn, _, _, _, _) => Labelled(dn) && |Wire(dn)| <= MAXDN + 1
    case Expire(now, _) => s.active != [] && s.active[0].deadline <= now
    case Answer(i, _, pkt, _, _, _, _) => i < |s.active| && |pkt| >= Packets.HSIZE
    case Cancel(i) => i < |s.active|
    case Close => true
  }

  ghost function Step(c: Config, s: State, e: Event): State
    requires Enabled(c, s, e)
  {
    match e
    case Submit(dn, typcls, flags, noSearch, id) =>
      AddHead(s, NewQuery(c, s.submitted, s.ticks, dn, typcls, flags, noSearch, id))
    case Expire(now, sent) => Send(c, s, 0, s.active[0], now, sent)
    case Answer(i, k, pkt, status, now, sent, id) => Reply(c, s, i, k, pkt, status, now, sent, id)
    case Cancel(i) => Cancelled(s, i)
    case Close => Closed(s)
  }

  // An event that cannot happen in the state it meets is passed over.
  ghost function After(c: Config, s: State, e: Event): State {
    if Enabled(c, s, e) then Step(c, s, e) else s
  }

  ghost function Run(c: Config, s: State, es: seq<Event>): State
    decreases |es|
  {
    if es == [] then s else Run(c, After(c, s, es[0]), es[1..])
  }

  function Serials(qs: seq<Query>): seq<nat> {
    if qs == [] then [] else [qs[0].serial] + Serials(qs[1..])
  }
}
