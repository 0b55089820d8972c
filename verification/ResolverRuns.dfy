// What holds of the resolver in every state that any run of events reaches.
module ResolverRuns {
  import opened Seqs
  import opened Status
  import opened DomainNames
  import opened ReplyHeader
  import Packets
  import opened ResolverModel

  // ---------- the candidates of a search ----------

  // The candidates from element k of the search list on: the original name with each suffix in order,
  // without those that get too long, and the name as it is at most once.
  ghost function Fitting(c: Config, orig: Labels, asIsDone: bool, k: nat): seq<Labels>
    decreases |c.search| + 1 - k
  {
    if k > |c.search| then []
    else if Fits(c, orig, asIsDone, k) then
      [orig + Suffix(c, k)] + Fitting(c, orig, asIsDone || Suffix(c, k) == [], k + 1)
    else Fitting(c, orig, asIsDone, k + 1)
  }

  // A name of 256 bytes: dns_submit_dn has room for it, but it is no candidate of a search.
  ghost predicate Overlong(orig: Labels) {
    Labelled(orig) && |Wire(orig)| > MAXDN
  }

  ghost function Plan(c: Config, orig: Labels, noSearch: bool): seq<Labels> {
    if AsIsFirst(c, orig, noSearch) || Overlong(orig) then
      [orig] + Fitting(c, orig, true, if noSearch then |c.search| else 0)
    else Fitting(c, orig, false, 0)
  }

  // The candidates that a query has left.
  ghost function Rest(c: Config, q: Query): seq<Labels> {
    Fitting(c, q.orig, q.asIsDone, q.next)
  }

  lemma {:induction false} FittingFromNext(c: Config, orig: Labels, asIsDone: bool, k: nat)
    ensures Fitting(c, orig, asIsDone, k)
         == var r := NextFit(c, orig, asIsDone, k);
            if r > |c.search| then []
            else [orig + Suffix(c, r)] + Fitting(c, orig, asIsDone || Suffix(c, r) == [], r + 1)
    decreases |c.search| + 1 - k
  {
    if k <= |c.search| && !Fits(c, orig, asIsDone, k) {
      FittingFromNext(c, orig, asIsDone, k + 1);
    }
  }

  // The name as it is always fits, so a search that has not tried it yet finds a next candidate.
  lemma {:induction false} AsIsFits(c: Config, orig: Labels, k: nat)
    requires Labelled(orig) && |Wire(orig)| <= MAXDN && k <= |c.search|
    ensures NextFit(c, orig, false, k) <= |c.search|
    decreases |c.search| - k
  {
    if k < |c.search| {
      AsIsFits(c, orig, k + 1);
    } else {
      assert Wire([]) == [0];
    }
  }

  lemma {:induction false} NothingFits(c: Config, orig: Labels, asIsDone: bool, k: nat)
    requires Overlong(orig)
    ensures NextFit(c, orig, asIsDone, k) > |c.search| && Fitting(c, orig, asIsDone, k) == []
    decreases |c.search| + 1 - k
  {
    if k <= |c.search| {
      NothingFits(c, orig, asIsDone, k + 1);
    }
  }

  // The unchecked dns_next_srch of dns_submit_dn finds a candidate if and only if the name has at most
  // 255 bytes.
  lemma FirstSearchFinds(c: Config, orig: Labels)
    requires Labelled(orig)
    ensures NextFit(c, orig, false, 0) <= |c.search| <==> |Wire(orig)| <= MAXDN
  {
    if |Wire(orig)| <= MAXDN {
      AsIsFits(c, orig, 0);
    } else {
      NothingFits(c, orig, false, 0);
    }
  }

  // Which names are candidates at all.
  ghost predicate Candidate(c: Config, orig: Labels, k: nat, name: Labels) {
    k < |c.search| && c.search[k] != [] && Fits(c, orig, true, k) && name == orig + c.search[k]
  }

  lemma FittingStep(c: Config, orig: Labels, asIsDone: bool, k: nat)
    requires Labelled(orig) && |Wire(orig)| <= MAXDN && k <= |c.search|
    ensures Fitting(c, orig, asIsDone, k)
         == (if Suffix(c, k) == [] then (if asIsDone then [] else [orig])
             else if Fits(c, orig, true, k) then [orig + Suffix(c, k)] else [])
            + Fitting(c, orig, asIsDone || Suffix(c, k) == [], k + 1)
    ensures Suffix(c, k) != [] ==> orig + Suffix(c, k) != orig
  {
    if Suffix(c, k) == [] {
      assert Wire([]) == [0] && orig + [] == orig;
    } else {
      assert |orig + Suffix(c, k)| > |orig|;
    }
    var rest := Fitting(c, orig, asIsDone || Suffix(c, k) == [], k + 1);
    assert [] + rest == rest;
  }

  ghost predicate SomeCandidate(c: Config, orig: Labels, from: nat, name: Labels) {
    exists k :: from <= k && Candidate(c, orig, k, name)
  }

  lemma SomeCandidateStep(c: Config, orig: Labels, from: nat, name: Labels)
    ensures SomeCandidate(c, orig, from, name) <==>
            Candidate(c, orig, from, name) || SomeCandidate(c, orig, from + 1, name)
  {
    if SomeCandidate(c, orig, from, name) && !Candidate(c, orig, from, name) {
      var k :| from <= k && Candidate(c, orig, k, name);
      assert from + 1 <= k;
    }
  }

  lemma {:induction false} FittingMembers(c: Config, orig: Labels, asIsDone: bool, from: nat, name: Labels)
    requires Labelled(orig) && |Wire(orig)| <= MAXDN && from <= |c.search| + 1
    ensures name in Fitting(c, orig, asIsDone, from) <==>
              (name == orig && !asIsDone && from <= |c.search|) || SomeCandidate(c, orig, from, name)
    decreases |c.search| + 1 - from
  {
    SomeCandidateStep(c, orig, from, name);
    if from <= |c.search| {
      FittingStep(c, orig, asIsDone, from);
      FittingMembers(c, orig, asIsDone || Suffix(c, from) == [], from + 1, name);
    } else {
      assert !SomeCandidate(c, orig, from, name);
    }
  }

  lemma {:induction false} FittingAsIs(c: Config, orig: Labels, asIsDone: bool, from: nat)
    requires Labelled(orig) && |Wire(orig)| <= MAXDN && from <= |c.search| + 1
    ensures multiset(Fitting(c, orig, asIsDone, from))[orig] == if asIsDone || from > |c.search| then 0 else 1
    decreases |c.search| + 1 - from
  {
    if from <= |c.search| {
      var rest := Fitting(c, orig, asIsDone || Suffix(c, from) == [], from + 1);
      FittingStep(c, orig, asIsDone, from);
      FittingAsIs(c, orig, asIsDone || Suffix(c, from) == [], from + 1);
      MultisetCons(orig, rest);
      MultisetCons(orig + Suffix(c, from), rest);
      assert [] + rest == rest;
    }
  }

  // The plan holds the name as it is exactly once, and besides it exactly the names made with the
  // suffixes that fit.
  lemma PlanIs(c: Config, orig: Labels, noSearch: bool, name: Labels)
    requires Labelled(orig)
    ensures multiset(Plan(c, orig, noSearch))[orig] == 1
    ensures name in Plan(c, orig, noSearch) <==> name == orig || (!noSearch && SomeCandidate(c, orig, 0, name))
  {
    var from := if noSearch then |c.search| else 0;
    var asIs := AsIsFirst(c, orig, noSearch);
    if Overlong(orig) {
      NothingFits(c, orig, true, from);
      assert Plan(c, orig, noSearch) == [orig];
    } else {
      FittingAsIs(c, orig, asIs, from);
      FittingMembers(c, orig, asIs, from, name);
      MultisetCons(orig, Fitting(c, orig, asIs, from));
      assert noSearch ==> !SomeCandidate(c, orig, |c.search|, name);
    }
  }

  // ---------- what holds of each query ----------

  ghost predicate InBounds(c: Config, q: Query) {
    && Labelled(q.orig) && |Wire(q.orig)| <= MAXDN + 1 && Labelled(q.name) && |Wire(q.name)| <= MAXDN + 1
    && q.next <= |c.search| + 1 && q.servi <= c.nserv && q.try < c.ntries
    && (forall k :: k in q.wait || k in q.skip || k in q.noEdns ==> k < c.nserv)
    && q.wait !! q.skip
  }

  // A reply without an error, not truncated, with no answer records; and a reply that there is no such name.
  ghost predicate EmptyReply(pkt: seq<byte>) {
    |pkt| >= 12 && pkt[3] % 16 == 0 && pkt[2] / 2 % 2 == 0 && pkt[6] == 0 && pkt[7] == 0
  }

  ghost predicate NoNameReply(pkt: seq<byte>) {
    |pkt| >= 12 && pkt[3] % 16 == 3
  }

  // Replies that move a search on.
  ghost predicate Negative(answers: seq<seq<byte>>) {
    forall pkt :: pkt in answers ==> EmptyReply(pkt) || NoNameReply(pkt)
  }

  ghost predicate SomeEmpty(answers: seq<seq<byte>>) {
    exists pkt :: pkt in answers && EmptyReply(pkt)
  }

  lemma OneAnswerMore(answers: seq<seq<byte>>, pkt: seq<byte>)
    ensures Negative(answers + [pkt]) <==> Negative(answers) && (EmptyReply(pkt) || NoNameReply(pkt))
    ensures SomeEmpty(answers + [pkt]) <==> SomeEmpty(answers) || EmptyReply(pkt)
  {
    assert pkt in answers + [pkt];
    if SomeEmpty(answers) {
      var p :| p in answers && EmptyReply(p);
      assert p in answers + [pkt];
    }
    if Negative(answers + [pkt]) {
      forall p | p in answers ensures EmptyReply(p) || NoNameReply(p) {
        assert p in answers + [pkt];
      }
    }
  }

  // The names tried and those left make up the plan, and the replies so far are on record.
  ghost predicate Searching(c: Config, q: Query) {
    && q.hist.tried != [] && q.name == q.hist.tried[|q.hist.tried| - 1]
    && q.hist.tried + Rest(c, q) == Plan(c, q.orig, q.hist.noSearch)
    && |q.hist.answers| + 1 == |q.hist.tried| && q.hist.search == c.search
    && Negative(q.hist.answers) && (q.seenNoData <==> SomeEmpty(q.hist.answers))
  }

  // How often one name can be sent.
  function Sends(c: Config): nat {
    c.ntries * c.nserv + c.nserv
  }

  // A query is expected to be answered only by servers it was sent to, and each round of tries sends to
  // each server once, but for one repetition without EDNS0.
  ghost predicate Retrying(c: Config, q: Query, extra: nat) {
    && Owing(q)
    && |q.hist.sentTo| + extra <= q.try * c.nserv + q.servi + |q.noEdns|
    && q.hist.tried != []
    && q.hist.total <= (|q.hist.tried| - 1) * Sends(c) + |q.hist.sentTo|
  }

  // Of each server, the replies that were processed and the one that is waited for are no more than the
  // sendings to it.
  ghost predicate Owing(q: Query) {
    forall k: nat {:trigger multiset(q.hist.sentTo)[k]} ::
      multiset(q.hist.replied)[k] + (if k in q.wait then 1 else 0) <= multiset(q.hist.sentTo)[k]
  }

  lemma OwingHeard(q: Query, k: nat)
    requires Owing(q) && k in q.wait
    ensures Owing(Heard(q, k)) && multiset(q.hist.replied)[k] < multiset(q.hist.sentTo)[k]
  {
    var r := Heard(q, k);
    assert multiset(r.hist.replied) == multiset(q.hist.replied) + multiset{k};
    assert multiset(q.hist.sentTo)[k] >= multiset(q.hist.replied)[k] + 1;
    forall j: nat ensures multiset(r.hist.replied)[j] + (if j in r.wait then 1 else 0) <= multiset(r.hist.sentTo)[j] {
      assert multiset(q.hist.sentTo)[j] >= multiset(q.hist.replied)[j] + (if j in q.wait then 1 else 0);
    }
  }

  lemma OwingSent(q: Query, r: Query, k: nat)
    requires Owing(q) && r.wait == q.wait + {k} && r.hist.sentTo == q.hist.sentTo + [k]
             && r.hist.replied == q.hist.replied
    ensures Owing(r)
  {
    assert multiset(r.hist.sentTo) == multiset(q.hist.sentTo) + multiset{k};
    forall j: nat ensures multiset(r.hist.replied)[j] + (if j in r.wait then 1 else 0) <= multiset(r.hist.sentTo)[j] {
      assert multiset(q.hist.sentTo)[j] >= multiset(q.hist.replied)[j] + (if j in q.wait then 1 else 0);
    }
  }

  ghost predicate QueryOk(c: Config, q: Query) {
    InBounds(c, q) && Searching(c, q) && Retrying(c, q, 0)
  }

  lemma {:induction false} CardBelow(s: set<nat>, n: nat)
    requires forall k :: k in s ==> k < n
    ensures |s| <= n
    decreases n
  {
    if n > 0 {
      CardBelow(s - {n - 1}, n - 1);
      assert s <= (s - {n - 1}) + {n - 1};
    } else {
      assert s == {};
    }
  }

  // Between two choices of a new id, a query is sent at most ntries * nserv + nserv times.
  lemma RetryBound(c: Config, q: Query)
    requires InBounds(c, q) && Retrying(c, q, 0)
    ensures |q.hist.sentTo| <= Sends(c)
    ensures q.hist.total <= |q.hist.tried| * Sends(c)
  {
    CardBelow(q.noEdns, c.nserv);
    assert q.try * c.nserv + c.nserv <= c.ntries * c.nserv by {
      assert (q.try + 1) * c.nserv == q.try * c.nserv + c.nserv;
      MulMono(q.try + 1, c.ntries, c.nserv);
    }
    assert |q.hist.tried| * Sends(c) == (|q.hist.tried| - 1) * Sends(c) + Sends(c);
  }

  lemma MulMono(a: nat, b: nat, n: nat)
    requires a <= b
    ensures a * n <= b * n
  {
  }

  // The settings with the search list that the query was submitted under.
  function SettingsOf(c: Config, q: Query): Config {
    c.(search := q.hist.search)
  }

  ghost predicate DoneOk(c: Config, d: Done) {
    var c, h := SettingsOf(c, d.q), d.q.hist;
    && Labelled(d.q.orig) && |Wire(d.q.orig)| <= MAXDN + 1
    && h.total <= |h.tried| * Sends(c)
    && h.tried + Rest(c, d.q) == Plan(c, d.q.orig, h.noSearch)
    && Negative(h.answers)
    && (d.reason.Exhausted? ==> && h.tried == Plan(c, d.q.orig, h.noSearch) && |h.answers| == |h.tried|
                                && d.Status() == if SomeEmpty(h.answers) then E_NODATA else E_NXDOMAIN)
    && (!d.reason.Exhausted? ==> |h.answers| + 1 == |h.tried|)
  }

  // ---------- how a query moves on ----------

  // Candidates left, servers not marked as refusing EDNS0, tries left, servers left in this try.
  datatype Measure = Measure(rest: nat, edns: nat, tries: nat, servers: nat) {
    predicate Less(m: Measure) {
      rest < m.rest || (rest == m.rest && (edns < m.edns || (edns == m.edns &&
        (tries < m.tries || (tries == m.tries && servers < m.servers)))))
    }
  }

  ghost function MeasureOf(c: Config, q: Query): Measure
    requires InBounds(c, q)
  {
    CardBelow(q.noEdns, c.nserv);
    Measure(|Rest(c, q)|, c.nserv - |q.noEdns|, c.ntries - q.try, c.nserv - q.servi)
  }

  // One sending of q, to a server that is not to be skipped.
  ghost predicate SentOnce(c: Config, q: Query, r: Query, k: nat) {
    && k < c.nserv && k !in q.skip
    && r.serial == q.serial && r.orig == q.orig && r.asIsDone == q.asIsDone && r.next == q.next
    && r.noEdns == q.noEdns && r.skip == q.skip && r.hist.tried == q.hist.tried
    && r.hist.sentTo == q.hist.sentTo + [k] && r.hist.replied == q.hist.replied && r.hist.total == q.hist.total + 1
    && (r.try > q.try || (r.try == q.try && r.servi >= q.servi))
  }

  // What an event may do to an active query: move it in the list, change it where it stands, or end it.
  datatype Change = Moved(q: Query) | Kept(q: Query) | Ended(d: Done)

  function Apply(s: State, i: nat, ch: Change): State
    requires i < |s.active|
  {
    match ch
    case Moved(q) => s.(active := Place(Without(s.active, i), q), ticks := s.ticks + 1)
    case Kept(q) => s.(active := s.active[i := q])
    case Ended(d) => s.(active := Without(s.active, i), log := s.log + [d])
  }

  // A query that stays active has been sent at most once, and then it has come closer to its end; under
  // the same name it is not sent to a server that was to be skipped, and skipped servers stay skipped.
  ghost predicate Progress(c: Config, q: Query, r: Query)
    requires InBounds(c, q) && InBounds(c, r)
  {
    && r.serial == q.serial
    && ((r.hist.total == q.hist.total && MeasureOf(c, r) == MeasureOf(c, q))
        || (r.hist.total == q.hist.total + 1 && MeasureOf(c, r).Less(MeasureOf(c, q))))
    && |r.hist.tried| >= |q.hist.tried|
    && (|r.hist.tried| == |q.hist.tried| ==>
          && q.skip <= r.skip
          && (r.hist.sentTo == q.hist.sentTo || exists k :: k !in q.skip && r.hist.sentTo == q.hist.sentTo + [k]))
  }

  // What the place in the list depends on has not changed.
  ghost predicate PlaceKept(q: Query, r: Query) {
    r.deadline == q.deadline && r.hist.stamp == q.hist.stamp && r.hist.total == q.hist.total && r.serial == q.serial
  }

  ghost predicate ChangeOk(c: Config, s: State, q: Query, ch: Change)
    requires InBounds(c, q)
  {
    match ch
    case Moved(r) => QueryOk(c, r) && Progress(c, q, r) && r.hist.stamp == s.ticks && r.hist.total > 0
    case Kept(r) => QueryOk(c, r) && Progress(c, q, r) && PlaceKept(q, r)
    case Ended(d) => DoneOk(c, d) && d.q.serial == q.serial
  }

  // The deadline of a query that is sent now: one second, or the backoff of one of its tries.
  ghost predicate DueBy(c: Config, now: nat, q: Query) {
    q.deadline == now + 1
    || exists try: nat, beyond: nat :: try < c.ntries && q.deadline == now + Backoff(c.timeout, try, beyond)
  }

  ghost predicate Timed(c: Config, now: nat, ch: Change) {
    ch.Moved? ==> DueBy(c, now, ch.q)
  }

  // ---------- sending ----------

  // q may be sent to server k: servi is behind it.
  lemma SentOk(c: Config, q: Query, k: nat, now: nat, beyond: nat, stamp: nat) returns (r: Query)
    requires InBounds(c, q) && Searching(c, q) && Retrying(c, q, 1) && k < c.nserv && k !in q.skip
    ensures r == Sent(c, q, k, now, beyond, stamp) && QueryOk(c, r) && SentOnce(c, q, r, k) && r.hist.stamp == stamp
    ensures DueBy(c, now, r)
  {
    r := Sent(c, q, k, now, beyond, stamp);
    OwingSent(q, r, k);
    assert r.deadline == now + 1 || r.deadline == now + Backoff(c.timeout, q.try, beyond);
  }

  lemma EndOk(c: Config, q: Query, reason: Reason)
    requires InBounds(c, q.(try := 0)) && Searching(c, q) && !reason.Exhausted?
             && q.hist.total <= |q.hist.tried| * Sends(c)
    ensures DoneOk(c, Done(q, reason))
  {
  }

  lemma SendThisChange(c: Config, s: State, i: nat, q: Query, k: nat, now: nat, sent: Sending) returns (ch: Change)
    requires i < |s.active| && k < c.nserv && k !in q.skip
    requires InBounds(c, q) && Searching(c, q) && Retrying(c, q, 1)
    ensures SendThis(c, s, i, q, k, now, sent) == Apply(s, i, ch) && !ch.Kept? && Timed(c, now, ch)
    ensures ch.Moved? ==> QueryOk(c, ch.q) && SentOnce(c, q, ch.q, k) && ch.q.hist.stamp == s.ticks
    ensures ch.Ended? ==> DoneOk(c, ch.d) && ch.d.q.serial == q.serial
  {
    if sent.Gone? {
      var r := SentOk(c, q, k, now, sent.beyond, s.ticks);
      ch := Moved(r);
    } else {
      RetryBound(c, q);
      EndOk(c, q, Failed);
      ch := Ended(Done(q, Failed));
    }
  }

  lemma NextTry(c: Config, q: Query)
    requires QueryOk(c, q)
    ensures var r := q.(servi := 0, try := q.try + 1);
            && Searching(c, r) && (r.try < c.ntries ==> InBounds(c, r) && Retrying(c, r, 0))
            && r.hist.total <= |r.hist.tried| * Sends(c)
  {
    RetryBound(c, q);
    assert (q.try + 1) * c.nserv == q.try * c.nserv + c.nserv;
  }

  lemma SendChange(c: Config, s: State, i: nat, q: Query, now: nat, sent: Sending) returns (ch: Change, k: nat)
    requires i < |s.active| && QueryOk(c, q)
    ensures Send(c, s, i, q, now, sent) == Apply(s, i, ch) && !ch.Kept? && Timed(c, now, ch)
    ensures ch.Moved? ==> QueryOk(c, ch.q) && SentOnce(c, q, ch.q, k) && ch.q.hist.stamp == s.ticks
                          && (ch.q.try > q.try || ch.q.servi > q.servi)
    ensures ch.Ended? ==> DoneOk(c, ch.d) && ch.d.q.serial == q.serial
  {
    k := FindServ(c.nserv, q.skip, q.servi);
    if k < c.nserv {
      ch := SendThisChange(c, s, i, q.(servi := k + 1), k, now, sent);
    } else {
      ch, k := SendNextTry(c, s, i, q, now, sent);
    }
  }

  lemma SendNextTry(c: Config, s: State, i: nat, q: Query, now: nat, sent: Sending) returns (ch: Change, k: nat)
    requires i < |s.active| && QueryOk(c, q) && FindServ(c.nserv, q.skip, q.servi) >= c.nserv
    ensures Send(c, s, i, q, now, sent) == Apply(s, i, ch) && !ch.Kept? && Timed(c, now, ch)
    ensures ch.Moved? ==> QueryOk(c, ch.q) && SentOnce(c, q, ch.q, k) && ch.q.hist.stamp == s.ticks && ch.q.try > q.try
    ensures ch.Ended? ==> DoneOk(c, ch.d) && ch.d.q.serial == q.serial
  {
    NextTry(c, q);
    var q' := q.(servi := 0, try := q.try + 1);
    k := FindServ(c.nserv, q.skip, 0);
    if q'.try >= c.ntries || k >= c.nserv {
      EndOk(c, q', Failed);
      ch := Ended(Done(q', Failed));
    } else {
      ch := SendSecond(c, s, i, q, q', k, now, sent);
    }
  }

  lemma SendSecond(c: Config, s: State, i: nat, q: Query, q': Query, k: nat, now: nat, sent: Sending)
    returns (ch: Change)
    requires i < |s.active| && QueryOk(c, q) && q' == q.(servi := 0, try := q.try + 1)
    requires InBounds(c, q') && Searching(c, q') && Retrying(c, q', 0) && k == FindServ(c.nserv, q.skip, 0) < c.nserv
    ensures SendThis(c, s, i, q'.(servi := k + 1), k, now, sent) == Apply(s, i, ch) && !ch.Kept? && Timed(c, now, ch)
    ensures ch.Moved? ==> QueryOk(c, ch.q) && SentOnce(c, q, ch.q, k) && ch.q.hist.stamp == s.ticks && ch.q.try > q.try
    ensures ch.Ended? ==> DoneOk(c, ch.d) && ch.d.q.serial == q.serial
  {
    ch := SendThisChange(c, s, i, q'.(servi := k + 1), k, now, sent);
  }

  // ---------- replies ----------

  // The next candidate has been taken up.
  lemma TakeUpOk(c: Config, q: Query, k: nat, id: Id, pkt: seq<byte>) returns (r: Query)
    requires QueryOk(c, q) && c.ntries >= 1 && (EmptyReply(pkt) || NoNameReply(pkt))
    requires k == NextFit(c, q.orig, q.asIsDone, q.next) <= |c.search|
    ensures r == (var t := TakeUp(c, q.(hist := q.hist.(answers := q.hist.answers + [pkt])), k, id);
                  if EmptyReply(pkt) then t.(seenNoData := true) else t)
    ensures QueryOk(c, r) && r.serial == q.serial && r.hist.total == q.hist.total
    ensures |Rest(c, r)| < |Rest(c, q)| && |r.hist.tried| == |q.hist.tried| + 1
  {
    var t := TakeUp(c, q.(hist := q.hist.(answers := q.hist.answers + [pkt])), k, id);
    r := if EmptyReply(pkt) then t.(seenNoData := true) else t;
    OneAnswerMore(q.hist.answers, pkt);
    FittingFromNext(c, q.orig, q.asIsDone, q.next);
    Assoc(q.hist.tried, [r.name], Rest(c, r));
    assert |r.hist.tried| - 1 == |q.hist.tried|;
    RetryBound(c, q);
    LabelBytesConcat(q.orig, Suffix(c, k));
  }

  lemma SearchOnChange(c: Config, s: State, i: nat, q0: Query, q: Query, pkt: seq<byte>, now: nat, sent: Sending,
                       id: Id)
    returns (ch: Change)
    requires i < |s.active| && QueryOk(c, q) && QueryOk(c, q0) && c.ntries >= 1
    requires |pkt| >= Packets.HSIZE && (VerdictOf(pkt) == NoAnswer || VerdictOf(pkt) == NxDomain)
    requires q0.serial == q.serial && Rest(c, q0) == Rest(c, q)
    requires q0.hist.tried == q.hist.tried && q0.hist.total == q.hist.total
    ensures SearchOn(c, s, i, q, pkt, now, sent, id) == Apply(s, i, ch) && ChangeOk(c, s, q0, ch) && Timed(c, now, ch)
  {
    var k := NextFit(c, q.orig, q.asIsDone, q.next);
    var o := OutcomeOf(VerdictOf(pkt));
    VerdictBytes(pkt);
    if k > |c.search| {
      ExhaustedOk(c, q, k, pkt, o);
      var h := q.hist.(answers := q.hist.answers + [pkt]);
      ch := Ended(Done(q.(next := k, hist := h), Exhausted(o)));
    } else {
      var r := TakeUpOk(c, q, k, id, pkt);
      var n;
      ch, n := SendChange(c, s, i, r, now, sent);
    }
  }

  // The verdicts that move a search on, in terms of the header bytes.
  lemma VerdictBytes(pkt: seq<byte>)
    requires |pkt| >= Packets.HSIZE
    ensures VerdictOf(pkt) == NoAnswer <==> EmptyReply(pkt)
    ensures VerdictOf(pkt) == NxDomain <==> NoNameReply(pkt)
    ensures OutcomeOf(VerdictOf(pkt)) == NoData <==> EmptyReply(pkt)
  {
  }

  lemma ExhaustedOk(c: Config, q: Query, k: nat, pkt: seq<byte>, o: Outcome)
    requires QueryOk(c, q) && k == NextFit(c, q.orig, q.asIsDone, q.next) > |c.search|
    requires (EmptyReply(pkt) || NoNameReply(pkt)) && (o == NoData <==> EmptyReply(pkt))
    ensures DoneOk(c, Done(q.(next := k, hist := q.hist.(answers := q.hist.answers + [pkt])), Exhausted(o)))
  {
    OneAnswerMore(q.hist.answers, pkt);
    FittingFromNext(c, q.orig, q.asIsDone, q.next);
    RetryBound(c, q);
    assert q.hist.tried + [] == q.hist.tried;
  }

  lemma SkippedChange(c: Config, s: State, i: nat, q0: Query, q: Query, now: nat, sent: Sending) returns (ch: Change)
    requires i < |s.active| && QueryOk(c, q) && QueryOk(c, q0)
    requires q == q0.(wait := q.wait, skip := q.skip, hist := q0.hist.(replied := q.hist.replied)) && q0.skip <= q.skip
    ensures Skipped(c, s, i, q, now, sent) == Apply(s, i, ch) && ChangeOk(c, s, q0, ch) && Timed(c, now, ch)
  {
    if q.wait == {} {
      var k;
      ch, k := SendChange(c, s, i, q, now, sent);
    } else {
      ch := Kept(q);
    }
  }

  lemma WithoutEdnsOk(c: Config, q: Query, k: nat)
    requires QueryOk(c, q) && k < c.nserv && k !in q.noEdns
    ensures var r := q.(noEdns := q.noEdns + {k});
            InBounds(c, r) && Searching(c, r) && Retrying(c, r, 1) && Rest(c, r) == Rest(c, q)
  {
    assert |q.noEdns + {k}| == |q.noEdns| + 1;
  }

  lemma ReplyChange(c: Config, s: State, i: nat, k: nat, pkt: seq<byte>, status: int, now: nat, sent: Sending,
                    id: Id)
    returns (ch: Change)
    requires |pkt| >= Packets.HSIZE
    requires i < |s.active| && QueryOk(c, s.active[i]) && c.ntries >= 1
    ensures Reply(c, s, i, k, pkt, status, now, sent, id) == Apply(s, i, ch) && ChangeOk(c, s, s.active[i], ch)
    ensures Timed(c, now, ch)
    ensures k !in s.active[i].wait ==> ch == Kept(s.active[i])
  {
    var q0 := s.active[i];
    if k !in q0.wait {
      ch := Kept(q0);
      assert s.active[i := q0] == s.active;
    } else {
      HeardOk(c, q0, k);
      ch := AfterReplyChange(c, s, i, q0, Heard(q0, k), k, pkt, status, now, sent, id);
    }
  }

  lemma HeardOk(c: Config, q: Query, k: nat)
    requires QueryOk(c, q) && k in q.wait
    ensures var r := Heard(q, k); QueryOk(c, r) && QueryOk(c, r.(skip := r.skip + {k})) && Rest(c, r) == Rest(c, q)
  {
    OwingHeard(q, k);
    var r := Heard(q, k);
    assert Owing(r.(skip := r.skip + {k})) by { assert Owing(r); }
  }

  lemma AfterReplyChange(c: Config, s: State, i: nat, q0: Query, q: Query, k: nat, pkt: seq<byte>, status: int,
                         now: nat, sent: Sending, id: Id)
    returns (ch: Change)
    requires i < |s.active| && QueryOk(c, q0) && c.ntries >= 1 && k in q0.wait && q == Heard(q0, k)
    requires |pkt| >= Packets.HSIZE
    requires QueryOk(c, q) && QueryOk(c, q.(skip := q.skip + {k})) && Rest(c, q) == Rest(c, q0)
    ensures AfterReply(c, s, i, q, k, pkt, status, now, sent, id) == Apply(s, i, ch) && ChangeOk(c, s, q0, ch)
    ensures Timed(c, now, ch)
  {
    match VerdictOf(pkt) {
      case Positive =>
        RetryBound(c, q);
        EndOk(c, q, Answered(status));
        ch := Ended(Done(q, Answered(status)));
      case NoAnswer => ch := SearchOnChange(c, s, i, q0, q, pkt, now, sent, id);
      case NxDomain => ch := SearchOnChange(c, s, i, q0, q, pkt, now, sent, id);
      case FormErr =>
        if c.udpbuf > MAXPACKET && k !in q.noEdns {
          WithoutEdnsOk(c, q, k);
          ch := SendThisChange(c, s, i, q.(noEdns := q.noEdns + {k}), k, now, sent);
        } else {
          ch := SkippedChange(c, s, i, q0, q.(skip := q.skip + {k}), now, sent);
        }
      case Trouble => ch := SkippedChange(c, s, i, q0, q.(skip := q.skip + {k}), now, sent);
    }
  }

  lemma NewQueryOk(c: Config, serial: nat, stamp: nat, dn: Labels, typcls: seq<byte>, flags: Flags, noSearch: bool,
                   id: Id)
    requires Labelled(dn) && |Wire(dn)| <= MAXDN + 1 && c.ntries >= 1
    ensures var q := NewQuery(c, serial, stamp, dn, typcls, flags, noSearch, id);
            QueryOk(c, q) && q.serial == serial && q.deadline == 0 && q.hist.stamp == stamp && q.hist.total == 0
  {
    var q := NewQuery(c, serial, stamp, dn, typcls, flags, noSearch, id);
    assert q.hist.answers == [];
    if Overlong(dn) {
      NothingFits(c, dn, true, if noSearch then |c.search| else 0);
      NothingFits(c, dn, false, 0);
      assert q.hist.tried == [dn];
    } else if AsIsFirst(c, dn, noSearch) {
      assert q.hist.tried == [dn];
    } else {
      FirstCandidate(c, dn);
      var k := NextFit(c, dn, false, 0);
      assert q.hist.tried == [dn + Suffix(c, k)];
    }
  }

  lemma FirstCandidate(c: Config, dn: Labels)
    requires Labelled(dn) && |Wire(dn)| <= MAXDN
    ensures var k := NextFit(c, dn, false, 0);
            && k <= |c.search| && Labelled(dn + Suffix(c, k)) && |Wire(dn + Suffix(c, k))| <= MAXDN
            && Fitting(c, dn, false, 0) == [dn + Suffix(c, k)] + Fitting(c, dn, Suffix(c, k) == [], k + 1)
  {
    AsIsFits(c, dn, 0);
    FittingFromNext(c, dn, false, 0);
    LabelBytesConcat(dn, Suffix(c, NextFit(c, dn, false, 0)));
  }

  // ---------- the whole state ----------

  // Earlier deadlines stand first. Among equal deadlines a query that has not been sent yet stands before
  // one that has; of two that have not, the one submitted later; of two that have, the one sent earlier.
  ghost predicate Before(a: Query, b: Query) {
    a.deadline < b.deadline || (a.deadline == b.deadline && TieBefore(a, b))
  }

  ghost predicate TieBefore(a: Query, b: Query) {
    if a.hist.total == 0 then b.hist.total > 0 || (a.hist.stamp > b.hist.stamp && a.serial > b.serial)
    else b.hist.total > 0 && a.hist.stamp < b.hist.stamp
  }

  ghost predicate Ordered(qs: seq<Query>) {
    forall i, j :: 0 <= i < j < |qs| ==> Before(qs[i], qs[j])
  }

  // All that is on record happened before this time.
  ghost predicate Stamped(qs: seq<Query>, now: nat) {
    forall i :: 0 <= i < |qs| ==> qs[i].hist.stamp < now
  }

  function LogSerials(log: seq<Done>): seq<nat> {
    if log == [] then [] else [log[0].q.serial] + LogSerials(log[1..])
  }

  function UpTo(n: nat): seq<nat> {
    if n == 0 then [] else UpTo(n - 1) + [n - 1]
  }

  // Every query submitted so far is in exactly one of four places.
  ghost function Accounted(s: State): multiset<nat> {
    multiset(Serials(s.active)) + multiset(LogSerials(s.log)) + multiset(s.cancelled) + multiset(s.dropped)
  }

  ghost predicate Ledger(s: State) {
    Accounted(s) == multiset(UpTo(s.submitted))
  }

  ghost predicate QueriesOk(c: Config, qs: seq<Query>) {
    forall i :: 0 <= i < |qs| ==> QueryOk(c, qs[i])
  }

  ghost predicate LogOk(c: Config, log: seq<Done>) {
    forall i :: 0 <= i < |log| ==> DoneOk(c, log[i])
  }

  ghost predicate Inv(c: Config, s: State) {
    QueriesOk(c, s.active) && LogOk(c, s.log) && Ordered(s.active) && Stamped(s.active, s.ticks) && Ledger(s)
  }

  lemma {:induction false} SerialsConcat(a: seq<Query>, b: seq<Query>)
    ensures Serials(a + b) == Serials(a) + Serials(b)
  {
    if a == [] {
      assert a + b == b;
    } else {
      SerialsConcat(a[1..], b);
      assert (a + b)[1..] == a[1..] + b;
      Assoc([a[0].serial], Serials(a[1..]), Serials(b));
    }
  }

  lemma {:induction false} LogSerialsSnoc(log: seq<Done>, d: Done)
    ensures LogSerials(log + [d]) == LogSerials(log) + [d.q.serial]
  {
    if log == [] {
      assert log + [d] == [d];
    } else {
      LogSerialsSnoc(log[1..], d);
      assert (log + [d])[1..] == log[1..] + [d];
      Assoc([log[0].q.serial], LogSerials(log[1..]), [d.q.serial]);
    }
  }

  lemma SerialsCount(a: seq<Query>, b: seq<Query>)
    ensures multiset(Serials(a + b)) == multiset(Serials(a)) + multiset(Serials(b))
  {
    SerialsConcat(a, b);
  }

  lemma SerialsAround(a: seq<Query>, q: Query, b: seq<Query>)
    ensures multiset(Serials(a + [q] + b)) == multiset(Serials(a + b)) + multiset{q.serial}
  {
    SerialsCount(a + [q], b);
    SerialsCount(a, [q]);
    SerialsCount(a, b);
    assert Serials([q]) == [q.serial];
  }

  lemma SerialsWithout(qs: seq<Query>, i: nat)
    requires i < |qs|
    ensures multiset(Serials(qs)) == multiset(Serials(Without(qs, i))) + multiset{qs[i].serial}
  {
    CutOut(qs, i);
    SerialsAround(qs[..i], qs[i], qs[i + 1..]);
  }

  lemma {:induction false} UpToCount(n: nat, k: nat)
    ensures multiset(UpTo(n))[k] == (if k < n then 1 else 0) && |UpTo(n)| == n
  {
    if n > 0 {
      UpToCount(n - 1, k);
    }
  }

  lemma SerialBelow(s: State, i: nat)
    requires Ledger(s) && i < |s.active|
    ensures s.active[i].serial < s.submitted
    ensures multiset(Serials(s.active))[s.active[i].serial] == 1
  {
    var n := s.active[i].serial;
    SerialsWithout(s.active, i);
    UpToCount(s.submitted, n);
    assert Accounted(s)[n] >= 1;
  }

  lemma {:induction false} PlaceIs(qs: seq<Query>, q: Query) returns (k: nat)
    ensures k <= |qs| && Place(qs, q) == qs[..k] + [q] + qs[k..]
    ensures (k > 0 ==> qs[k - 1].deadline <= q.deadline) && forall j :: k <= j < |qs| ==> qs[j].deadline > q.deadline
  {
    if qs == [] || qs[|qs| - 1].deadline <= q.deadline {
      k := |qs|;
      Whole(qs);
    } else {
      var front := qs[..|qs| - 1];
      k := PlaceIs(front, q);
      assert front[..k] == qs[..k] && front[k..] + [qs[|qs| - 1]] == qs[k..];
      Assoc(front[..k] + [q], front[k..], [qs[|qs| - 1]]);
    }
  }

  lemma SerialsPlace(qs: seq<Query>, q: Query)
    ensures multiset(Serials(Place(qs, q))) == multiset(Serials(qs)) + multiset{q.serial}
  {
    var k := PlaceIs(qs, q);
    SerialsAround(qs[..k], q, qs[k..]);
    CutTwo(qs, k);
  }

  lemma SerialsKept(qs: seq<Query>, i: nat, q: Query)
    requires i < |qs| && q.serial == qs[i].serial
    ensures multiset(Serials(qs[i := q])) == multiset(Serials(qs))
  {
    SerialsWithout(qs, i);
    SerialsWithout(qs[i := q], i);
    assert Without(qs, i) == Without(qs[i := q], i);
  }

  lemma OrderedWithout(qs: seq<Query>, i: nat)
    requires i < |qs| && Ordered(qs)
    ensures Ordered(Without(qs, i))
  {
  }

  // A query with a later stamp than all others keeps the order.
  lemma OrderedPlace(qs: seq<Query>, q: Query)
    requires Ordered(qs) && Stamped(qs, q.hist.stamp) && q.hist.total > 0
    ensures Ordered(Place(qs, q))
  {
    var k := PlaceIs(qs, q);
    var r := qs[..k] + [q] + qs[k..];
    forall i, j | 0 <= i < j < |r| ensures Before(r[i], r[j]) {
      assert r[i] == if i < k then qs[i] else if i == k then q else qs[i - 1];
      assert r[j] == if j < k then qs[j] else if j == k then q else qs[j - 1];
      if j == k && i < k - 1 {
        assert Before(qs[i], qs[k - 1]);
      }
    }
  }

  lemma WithoutKeeps(c: Config, qs: seq<Query>, i: nat, now: nat)
    requires i < |qs| && QueriesOk(c, qs) && Ordered(qs) && Stamped(qs, now)
    ensures QueriesOk(c, Without(qs, i)) && Ordered(Without(qs, i)) && Stamped(Without(qs, i), now)
  {
    OrderedWithout(qs, i);
    StampedWithout(qs, i, now);
    QueriesWithout(c, qs, i);
  }

  lemma QueriesWithout(c: Config, qs: seq<Query>, i: nat)
    requires i < |qs| && QueriesOk(c, qs)
    ensures QueriesOk(c, Without(qs, i))
  {
    forall j | 0 <= j < |qs| - 1 ensures QueryOk(c, Without(qs, i)[j]) {
      assert Without(qs, i)[j] == qs[if j < i then j else j + 1];
    }
  }

  lemma StampedWithout(qs: seq<Query>, i: nat, now: nat)
    requires i < |qs| && Stamped(qs, now)
    ensures Stamped(Without(qs, i), now)
  {
  }

  lemma QueriesPlace(c: Config, qs: seq<Query>, q: Query)
    requires QueriesOk(c, qs) && QueryOk(c, q)
    ensures QueriesOk(c, Place(qs, q))
  {
    var k := PlaceIs(qs, q);
    forall j | 0 <= j < |qs| + 1 ensures QueryOk(c, Place(qs, q)[j]) {
      Inserted(qs, k, q, j);
    }
  }

  lemma StampedPlace(qs: seq<Query>, q: Query)
    requires Stamped(qs, q.hist.stamp)
    ensures Stamped(Place(qs, q), q.hist.stamp + 1)
  {
    var k := PlaceIs(qs, q);
    forall j | 0 <= j < |qs| + 1 ensures Place(qs, q)[j].hist.stamp < q.hist.stamp + 1 {
      Inserted(qs, k, q, j);
    }
  }

  lemma KeptKeeps(c: Config, qs: seq<Query>, i: nat, q: Query, now: nat)
    requires i < |qs| && QueriesOk(c, qs) && Ordered(qs) && Stamped(qs, now)
    requires QueryOk(c, q) && PlaceKept(qs[i], q)
    ensures QueriesOk(c, qs[i := q]) && Ordered(qs[i := q]) && Stamped(qs[i := q], now)
  {
    var r := qs[i := q];
    forall j, k | 0 <= j < k < |r| ensures Before(r[j], r[k]) {
      assert Before(qs[j], qs[k]);
    }
  }

  lemma LogOkSnoc(c: Config, log: seq<Done>, d: Done)
    requires LogOk(c, log) && DoneOk(c, d)
    ensures LogOk(c, log + [d])
  {
  }

  lemma ApplyOk(c: Config, s: State, i: nat, ch: Change)
    requires i < |s.active| && Inv(c, s) && ChangeOk(c, s, s.active[i], ch)
    ensures var t := Apply(s, i, ch);
            QueriesOk(c, t.active) && LogOk(c, t.log) && Ordered(t.active) && Stamped(t.active, t.ticks)
  {
    WithoutKeeps(c, s.active, i, s.ticks);
    match ch {
      case Moved(q) =>
        var rest := Without(s.active, i);
        QueriesPlace(c, rest, q);
        OrderedPlace(rest, q);
        StampedPlace(rest, q);
      case Kept(q) => KeptKeeps(c, s.active, i, q, s.ticks);
      case Ended(d) => LogOkSnoc(c, s.log, d);
    }
  }

  lemma ApplyLedger(c: Config, s: State, i: nat, ch: Change)
    requires i < |s.active| && InBounds(c, s.active[i]) && ChangeOk(c, s, s.active[i], ch)
    ensures Accounted(Apply(s, i, ch)) == Accounted(s)
  {
    SerialsWithout(s.active, i);
    match ch {
      case Moved(q) => SerialsPlace(Without(s.active, i), q);
      case Kept(q) => SerialsKept(s.active, i, q);
      case Ended(d) => LogSerialsSnoc(s.log, d);
    }
  }

  lemma ApplyInv(c: Config, s: State, i: nat, ch: Change)
    requires i < |s.active| && Inv(c, s) && ChangeOk(c, s, s.active[i], ch)
    ensures Inv(c, Apply(s, i, ch))
  {
    ApplyOk(c, s, i, ch);
    ApplyLedger(c, s, i, ch);
  }

  // ---------- every step, every run ----------

  // A new query in front keeps the order: it is due at once, and nothing is newer.
  lemma FrontKeeps(c: Config, qs: seq<Query>, q: Query)
    requires QueriesOk(c, qs) && Ordered(qs) && Stamped(qs, q.hist.stamp)
    requires QueryOk(c, q) && q.deadline == 0 && q.hist.total == 0
    requires forall i :: 0 <= i < |qs| ==> qs[i].serial < q.serial
    ensures QueriesOk(c, [q] + qs) && Ordered([q] + qs) && Stamped([q] + qs, q.hist.stamp + 1)
  {
    var r := [q] + qs;
    forall j, k | 0 <= j < k < |r| ensures Before(r[j], r[k]) {
      if j > 0 { assert Before(qs[j - 1], qs[k - 1]); }
    }
  }

  lemma AddHeadInv(c: Config, s: State, q: Query)
    requires Inv(c, s) && QueryOk(c, q) && q.serial == s.submitted
    requires q.deadline == 0 && q.hist.stamp == s.ticks && q.hist.total == 0
    ensures Inv(c, AddHead(s, q))
  {
    forall i | 0 <= i < |s.active| ensures s.active[i].serial < q.serial {
      SerialBelow(s, i);
    }
    FrontKeeps(c, s.active, q);
    SubmitLedger(s, q);
  }

  lemma SubmitLedger(s: State, q: Query)
    requires Ledger(s) && q.serial == s.submitted
    ensures Ledger(AddHead(s, q))
  {
    SerialsCount([q], s.active);
    assert Serials([q]) == [q.serial];
  }

  lemma CancelInv(c: Config, s: State, i: nat)
    requires Inv(c, s) && i < |s.active|
    ensures Inv(c, Cancelled(s, i))
  {
    CancelLedger(s, i);
    WithoutKeeps(c, s.active, i, s.ticks);
  }

  lemma CancelLedger(s: State, i: nat)
    requires Ledger(s) && i < |s.active|
    ensures Ledger(Cancelled(s, i))
  {
    SerialsWithout(s.active, i);
  }

  lemma CloseInv(c: Config, s: State)
    requires Inv(c, s)
    ensures Inv(c, Closed(s))
  {
    assert Serials([]) == [];
  }

  // An expired deadline or a reply changes one query, in one of three ways.
  lemma EventChange(c: Config, s: State, e: Event) returns (i: nat, ch: Change)
    requires QueriesOk(c, s.active) && c.Valid() && Enabled(c, s, e) && (e.Expire? || e.Answer?)
    ensures i == (if e.Expire? then 0 else e.entry) && i < |s.active|
    ensures Step(c, s, e) == Apply(s, i, ch) && ChangeOk(c, s, s.active[i], ch) && Timed(c, e.now, ch)
  {
    match e {
      case Expire(now, sent) =>
        i := 0;
        var k;
        ch, k := SendChange(c, s, 0, s.active[0], now, sent);
      case Answer(n, k, pkt, status, now, sent, id) =>
        i := n;
        ch := ReplyChange(c, s, n, k, pkt, status, now, sent, id);
    }
  }

  lemma StepInv(c: Config, s: State, e: Event)
    requires Inv(c, s) && c.Valid() && Enabled(c, s, e)
    ensures Inv(c, Step(c, s, e))
  {
    match e {
      case Submit(dn, typcls, flags, noSearch, id) =>
        NewQueryOk(c, s.submitted, s.ticks, dn, typcls, flags, noSearch, id);
        AddHeadInv(c, s, NewQuery(c, s.submitted, s.ticks, dn, typcls, flags, noSearch, id));
      case Cancel(i) => CancelInv(c, s, i);
      case Close => CloseInv(c, s);
      case _ =>
        var i, ch := EventChange(c, s, e);
        ApplyInv(c, s, i, ch);
    }
  }

  lemma {:induction false} RunInv(c: Config, s: State, es: seq<Event>)
    requires Inv(c, s) && c.Valid()
    ensures Inv(c, Run(c, s, es))
    decreases |es|
  {
    if es != [] {
      if Enabled(c, s, es[0]) {
        StepInv(c, s, es[0]);
        RunInv(c, Step(c, s, es[0]), es[1..]);
      } else {
        RunInv(c, s, es[1..]);
      }
    }
  }

  // The search list may change while no query is active; what is on record stays valid.
  lemma SearchChanged(c: Config, s: State, search: seq<Labels>)
    requires Inv(c, s) && s.active == []
    ensures Inv(c.(search := search), s)
  {
    forall i | 0 <= i < |s.log| ensures DoneOk(c.(search := search), s.log[i]) {
      assert DoneOk(c, s.log[i]);
    }
  }

  lemma StartInv(c: Config)
    ensures Inv(c, START)
  {
  }
}
