// The promises of the resolver, for every run from the start: any submissions, any replies, any clock,
// any failures of the network.
module ResolverTheorems {
  import opened Seqs
  import opened DomainNames
  import Packets
  import opened ResolverModel
  import opened ResolverRuns

  lemma RunOk(c: Config, es: seq<Event>)
    requires c.Valid()
    ensures Inv(c, Run(c, START, es))
  {
    StartInv(c);
    RunInv(c, START, es);
  }

  // ---------- exactly once ----------

  lemma {:induction false} SerialsLength(qs: seq<Query>)
    ensures |Serials(qs)| == |qs|
  {
    if qs != [] { SerialsLength(qs[1..]); }
  }

  lemma {:induction false} LogSerialsLength(log: seq<Done>)
    ensures |LogSerials(log)| == |log|
  {
    if log != [] { LogSerialsLength(log[1..]); }
  }

  // The same for any state that meets the invariant, also one between two changes of the search list.
  lemma EachOnce(c: Config, s: State, n: nat)
    requires Inv(c, s)
    ensures multiset(Serials(s.active))[n] + multiset(LogSerials(s.log))[n]
              + multiset(s.cancelled)[n] + multiset(s.dropped)[n] == (if n < s.submitted then 1 else 0)
    ensures |s.active| == s.submitted - |s.log| - |s.cancelled| - |s.dropped|
  {
    UpToCount(s.submitted, n);
    SerialsLength(s.active);
    LogSerialsLength(s.log);
    Sizes(Serials(s.active), LogSerials(s.log), s.cancelled, s.dropped, UpTo(s.submitted));
  }

  // Each query submitted is in exactly one place, exactly once: still active, completed with one
  // callback, cancelled, or dropped by closing the context; and so the active count is what is left.
  lemma ExactlyOnce(c: Config, es: seq<Event>, n: nat)
    requires c.Valid()
    ensures var s := Run(c, START, es);
            && multiset(Serials(s.active))[n] + multiset(LogSerials(s.log))[n]
                 + multiset(s.cancelled)[n] + multiset(s.dropped)[n] == (if n < s.submitted then 1 else 0)
            && |s.active| == s.submitted - |s.log| - |s.cancelled| - |s.dropped|
  {
    RunOk(c, es);
    EachOnce(c, Run(c, START, es), n);
  }

  lemma Sizes(a: seq<nat>, b: seq<nat>, d: seq<nat>, e: seq<nat>, all: seq<nat>)
    requires multiset(a) + multiset(b) + multiset(d) + multiset(e) == multiset(all)
    ensures |a| + |b| + |d| + |e| == |all|
    ensures forall n: nat :: multiset(a)[n] + multiset(b)[n] + multiset(d)[n] + multiset(e)[n] == multiset(all)[n]
  {
    assert |multiset(a) + multiset(b) + multiset(d) + multiset(e)| == |multiset(all)|;
  }

  // ---------- order ----------

  // The active list is sorted by deadline. Among equal deadlines the queries that have not been sent yet
  // come first, the one submitted last at the front; behind them those that have, in the order of their
  // last sending. (`stamp` is the time of that sending; serial numbers count the submissions.)
  lemma SortedByDeadline(c: Config, es: seq<Event>, i: nat, j: nat)
    requires c.Valid() && i < j < |Run(c, START, es).active|
    ensures var s := Run(c, START, es);
            var a, b := s.active[i], s.active[j];
            && a.deadline <= b.deadline
            && (a.deadline == b.deadline && a.hist.total > 0 ==> b.hist.total > 0 && a.hist.stamp < b.hist.stamp)
            && (a.deadline == b.deadline && a.hist.total == 0 && b.hist.total == 0 ==> a.serial > b.serial)
  {
    RunOk(c, es);
    assert Before(Run(c, START, es).active[i], Run(c, START, es).active[j]);
  }

  // ---------- bounded retries ----------

  lemma {:induction false} FittingLength(c: Config, orig: Labels, asIsDone: bool, k: nat)
    requires k <= |c.search| + 1
    ensures |Fitting(c, orig, asIsDone, k)| <= |c.search| + 1 - k
    decreases |c.search| + 1 - k
  {
    if k <= |c.search| {
      FittingLength(c, orig, asIsDone || Suffix(c, k) == [], k + 1);
      FittingLength(c, orig, asIsDone, k + 1);
    }
  }

  // However the network behaves, a query goes out at most ntries * nserv + nserv times between two
  // changes of its id, and so a bounded number of times in its life.
  lemma BoundedRetries(c: Config, es: seq<Event>)
    requires c.Valid()
    ensures var s := Run(c, START, es);
            && (forall i :: 0 <= i < |s.active| ==>
                  |s.active[i].hist.sentTo| <= Sends(c) && s.active[i].hist.total <= (|c.search| + 2) * Sends(c))
            && (forall i :: 0 <= i < |s.log| ==> s.log[i].q.hist.total <= (|s.log[i].q.hist.search| + 2) * Sends(c))
  {
    var s := Run(c, START, es);
    RunOk(c, es);
    forall i | 0 <= i < |s.active|
      ensures |s.active[i].hist.sentTo| <= Sends(c) && s.active[i].hist.total <= (|c.search| + 2) * Sends(c)
    {
      RetryBound(c, s.active[i]);
      PlanLength(c, s.active[i]);
      MulMono(|s.active[i].hist.tried|, |c.search| + 2, Sends(c));
    }
    forall i | 0 <= i < |s.log| ensures s.log[i].q.hist.total <= (|s.log[i].q.hist.search| + 2) * Sends(c) {
      var q := s.log[i].q;
      assert DoneOk(c, s.log[i]);
      PlanLength(SettingsOf(c, q), q);
      MulMono(|q.hist.tried|, |q.hist.search| + 2, Sends(c));
    }
  }

  lemma PlanLength(c: Config, q: Query)
    requires q.hist.tried + Rest(c, q) == Plan(c, q.orig, q.hist.noSearch)
    ensures |q.hist.tried| <= |c.search| + 2
  {
    FittingLength(c, q.orig, true, 0);
    FittingLength(c, q.orig, true, |c.search|);
    FittingLength(c, q.orig, false, 0);
  }

  // ---------- what one event does to the queries ----------

  // Of the queries that are active after an event, each was active before and has made progress.
  lemma EventProgress(c: Config, s: State, e: Event, j: nat) returns (i: nat)
    requires Inv(c, s) && c.Valid() && Enabled(c, s, e) && !e.Submit? && !e.Close? && j < |Step(c, s, e).active|
    ensures i < |s.active| && InBounds(c, Step(c, s, e).active[j])
    ensures Progress(c, s.active[i], Step(c, s, e).active[j])
    ensures Step(c, s, e).active[j] != s.active[i] ==> (e.Expire? && i == 0) || (e.Answer? && i == e.entry)
  {
    if e.Cancel? {
      i := CancelProgress(c, s, e.entry, j);
    } else {
      var n, ch := EventChange(c, s, e);
      i := ApplyProgress(c, s, n, ch, j);
    }
  }

  lemma CancelProgress(c: Config, s: State, n: nat, j: nat) returns (i: nat)
    requires n < |s.active| && QueriesOk(c, s.active) && j < |Cancelled(s, n).active|
    ensures i < |s.active| && Cancelled(s, n).active[j] == s.active[i]
    ensures InBounds(c, s.active[i]) && Progress(c, s.active[i], s.active[i])
  {
    i := if j < n then j else j + 1;
    StandsStill(c, s.active[i]);
  }

  lemma StandsStill(c: Config, q: Query)
    requires QueryOk(c, q)
    ensures Progress(c, q, q)
  {
  }

  lemma ApplyProgress(c: Config, s: State, n: nat, ch: Change, j: nat) returns (i: nat)
    requires n < |s.active| && QueriesOk(c, s.active) && ChangeOk(c, s, s.active[n], ch) && j < |Apply(s, n, ch).active|
    ensures i < |s.active| && InBounds(c, Apply(s, n, ch).active[j])
    ensures Progress(c, s.active[i], Apply(s, n, ch).active[j])
    ensures i == n || Apply(s, n, ch).active[j] == s.active[i]
  {
    i := ApplyFrom(s, n, ch, j);
    StandsStill(c, s.active[i]);
  }

  // Where the entry j that stands there after the change comes from
  lemma ApplyFrom(s: State, n: nat, ch: Change, j: nat) returns (i: nat)
    requires n < |s.active| && j < |Apply(s, n, ch).active|
    ensures i < |s.active|
    ensures var r := Apply(s, n, ch).active[j];
            r == s.active[i] || (i == n && ((ch.Moved? && r == ch.q) || (ch.Kept? && r == ch.q)))
  {
    match ch {
      case Moved(q) => i := MovedFrom(s.active, n, q, j);
      case Kept(q) => i := j;
      case Ended(d) => i := if j < n then j else j + 1;
    }
  }

  lemma MovedFrom(qs: seq<Query>, n: nat, q: Query, j: nat) returns (i: nat)
    requires n < |qs| && j < |Place(Without(qs, n), q)|
    ensures i < |qs| && (Place(Without(qs, n), q)[j] == qs[i] || (i == n && Place(Without(qs, n), q)[j] == q))
  {
    var rest := Without(qs, n);
    var k := PlaceIs(rest, q);
    Inserted(rest, k, q, j);
    var m := if j < k then j else j - 1;
    i := if j == k then n else if m < n then m else m + 1;
  }

  // ---------- replies only from servers that were asked ----------

  // A reply changes something only if it comes from a server that the query was sent to under its
  // present name, more often than replies of this server have been processed since, and that has not
  // been given up.
  lemma OnlyAskedServers(c: Config, es: seq<Event>, e: Event)
    requires c.Valid() && e.Answer? && Enabled(c, Run(c, START, es), e)
    ensures var s := Run(c, START, es);
            var q := s.active[e.entry];
            Step(c, s, e) != s ==>
              && e.server < c.nserv && e.server !in q.skip
              && multiset(q.hist.replied)[e.server] < multiset(q.hist.sentTo)[e.server]
  {
    var q := Run(c, START, es).active[e.entry];
    RunOk(c, es);
    assert QueryOk(c, q);
    if e.server in q.wait {
      OwingHeard(q, e.server);
    }
  }

  // Whatever is on record: of each server no more replies have been processed than there were sendings
  // to it, and one less while a reply is waited for.
  lemma RepliesAnswerSendings(c: Config, es: seq<Event>, i: nat, k: nat)
    requires c.Valid() && i < |Run(c, START, es).active|
    ensures var q := Run(c, START, es).active[i];
            multiset(q.hist.replied)[k] + (if k in q.wait then 1 else 0) <= multiset(q.hist.sentTo)[k]
  {
    RunOk(c, es);
    assert QueryOk(c, Run(c, START, es).active[i]);
  }

  // ---------- skipped servers stay skipped ----------

  lemma SerialOnce(s: State, i: nat, j: nat)
    requires Ledger(s) && i < |s.active| && j < |s.active| && s.active[i].serial == s.active[j].serial
    ensures i == j
  {
    SerialBelow(s, i);
    if i != j {
      CountedTwice(s.active, i, j);
    }
  }

  lemma CountedTwice(qs: seq<Query>, i: nat, j: nat)
    requires i < |qs| && j < |qs| && i != j && qs[i].serial == qs[j].serial
    ensures multiset(Serials(qs))[qs[i].serial] >= 2
  {
    var rest := Without(qs, i);
    var k := if j < i then j else j - 1;
    assert rest[k] == qs[j];
    SerialsWithout(qs, i);
    SerialsWithout(rest, k);
  }

  // r is the query q at a later time: under the same name no server that q skips has been sent to since.
  ghost predicate Later(q: Query, r: Query) {
    && |r.hist.tried| >= |q.hist.tried|
    && (|r.hist.tried| == |q.hist.tried| ==>
          && q.skip <= r.skip && |q.hist.sentTo| <= |r.hist.sentTo|
          && forall n :: |q.hist.sentTo| <= n < |r.hist.sentTo| ==> r.hist.sentTo[n] !in q.skip)
  }

  lemma LaterStep(c: Config, q: Query, r: Query, r': Query)
    requires InBounds(c, r) && InBounds(c, r') && Later(q, r) && Progress(c, r, r')
    ensures Later(q, r')
  {
  }

  // A query that is active after an event was active before, unless the event is its submission.
  lemma Ancestor(c: Config, s: State, e: Event, j: nat) returns (i: nat)
    requires Inv(c, s) && c.Valid() && j < |After(c, s, e).active| && After(c, s, e).active[j].serial < s.submitted
    ensures i < |s.active| && InBounds(c, s.active[i]) && InBounds(c, After(c, s, e).active[j])
    ensures Progress(c, s.active[i], After(c, s, e).active[j])
  {
    if !Enabled(c, s, e) {
      i := j;
    } else if e.Submit? {
      i := SubmitAncestor(c, s, e, j);
    } else {
      i := EventProgress(c, s, e, j);
    }
    assert QueryOk(c, s.active[i]);
  }

  lemma SubmitAncestor(c: Config, s: State, e: Event, j: nat) returns (i: nat)
    requires Inv(c, s) && e.Submit? && Enabled(c, s, e)
    requires j < |Step(c, s, e).active| && Step(c, s, e).active[j].serial < s.submitted
    ensures i < |s.active| && Step(c, s, e).active[j] == s.active[i]
  {
    i := j - 1;
  }

  // For any two states of a run: as long as a query has the same name, a server that it skips stays
  // skipped, and the query is not sent to it.
  lemma {:induction false} StaysSkipped(c: Config, s: State, es: seq<Event>, i: nat, j: nat)
    requires Inv(c, s) && c.Valid() && i < |s.active| && j < |Run(c, s, es).active|
    requires s.active[i].serial == Run(c, s, es).active[j].serial
    ensures Later(s.active[i], Run(c, s, es).active[j])
    decreases |es|
  {
    if es == [] {
      SerialOnce(s, i, j);
    } else {
      var front, e := es[..|es| - 1], es[|es| - 1];
      assert es == front + [e];
      RunSnoc(c, s, front, e);
      SerialBelow(s, i);
      var k := LastStep(c, s, front, e, j, s.active[i]);
      StaysSkipped(c, s, front, i, k);
    }
  }

  lemma LastStep(c: Config, s: State, front: seq<Event>, e: Event, j: nat, q: Query) returns (k: nat)
    requires Inv(c, s) && c.Valid() && j < |After(c, Run(c, s, front), e).active|
    requires After(c, Run(c, s, front), e).active[j].serial < s.submitted
    ensures var t := Run(c, s, front);
            && k < |t.active| && t.active[k].serial == After(c, t, e).active[j].serial
            && (Later(q, t.active[k]) ==> Later(q, After(c, t, e).active[j]))
  {
    RunInv(c, s, front);
    SubmittedGrows(c, s, front);
    k := OneMore(c, Run(c, s, front), e, j, q);
  }

  lemma OneMore(c: Config, t: State, e: Event, j: nat, q: Query) returns (k: nat)
    requires Inv(c, t) && c.Valid() && j < |After(c, t, e).active| && After(c, t, e).active[j].serial < t.submitted
    ensures k < |t.active| && t.active[k].serial == After(c, t, e).active[j].serial
    ensures Later(q, t.active[k]) ==> Later(q, After(c, t, e).active[j])
  {
    k := Ancestor(c, t, e, j);
    if Later(q, t.active[k]) {
      LaterStep(c, q, t.active[k], After(c, t, e).active[j]);
    }
  }

  lemma {:induction false} SubmittedGrows(c: Config, s: State, es: seq<Event>)
    requires Inv(c, s) && c.Valid()
    ensures Run(c, s, es).submitted >= s.submitted
    decreases |es|
  {
    if es != [] {
      var t := After(c, s, es[0]);
      if Enabled(c, s, es[0]) {
        StepInv(c, s, es[0]);
        if es[0].Expire? || es[0].Answer? {
          var i, ch := EventChange(c, s, es[0]);
        }
      }
      SubmittedGrows(c, t, es[1..]);
    }
  }

  lemma RunSnoc(c: Config, s: State, es: seq<Event>, e: Event)
    ensures Run(c, s, es + [e]) == After(c, Run(c, s, es), e)
  {
    RunTwice(c, s, es, [e]);
    assert [e][1..] == [];
  }

  // ---------- the verdict of a search ----------

  // A search that ran out has tried exactly the plan of the search list that it was submitted under, with the
  // name as it is exactly once. Each name was answered: no error and no records, or no such name. The
  // callback gets NODATA if some reply was of the first kind, else NXDOMAIN.
  lemma SearchVerdict(c: Config, es: seq<Event>, i: nat)
    requires c.Valid() && i < |Run(c, START, es).log| && Run(c, START, es).log[i].reason.Exhausted?
    ensures var d := Run(c, START, es).log[i];
            && d.q.hist.tried == Plan(SettingsOf(c, d.q), d.q.orig, d.q.hist.noSearch)
            && |d.q.hist.answers| == |d.q.hist.tried|
            && (forall pkt :: pkt in d.q.hist.answers ==> EmptyReply(pkt) || NoNameReply(pkt))
            && multiset(d.q.hist.tried)[d.q.orig] == 1
            && d.Status() == if exists pkt :: pkt in d.q.hist.answers && EmptyReply(pkt) then -4 else -3
  {
    var d := Run(c, START, es).log[i];
    RunOk(c, es);
    assert DoneOk(c, d);
    PlanIs(SettingsOf(c, d.q), d.q.orig, d.q.hist.noSearch, d.q.orig);
  }

  // At any time the candidates tried are a prefix of the plan, so none is tried out of turn, and the name
  // as it is at most once.
  lemma TriedInOrder(c: Config, es: seq<Event>, i: nat)
    requires c.Valid() && i < |Run(c, START, es).active|
    ensures var q := Run(c, START, es).active[i];
            && q.hist.tried != [] && q.hist.tried + Rest(c, q) == Plan(c, q.orig, q.hist.noSearch)
            && q.name == q.hist.tried[|q.hist.tried| - 1]
            && multiset(q.hist.tried)[q.orig] <= 1
  {
    var q := Run(c, START, es).active[i];
    RunOk(c, es);
    assert QueryOk(c, q);
    PlanIs(c, q.orig, q.hist.noSearch, q.orig);
    assert multiset(q.hist.tried + Rest(c, q)) == multiset(q.hist.tried) + multiset(Rest(c, q));
  }

  // ---------- expired deadlines are worked off ----------

  // How often a query can still be sent.
  ghost function Budget(c: Config, q: Query): nat {
    var most := (|c.search| + 2) * Sends(c);
    if q.hist.total < most then 1 + most - q.hist.total else 1
  }

  ghost function Fuel(c: Config, qs: seq<Query>): nat {
    if qs == [] then 0 else Budget(c, qs[0]) + Fuel(c, qs[1..])
  }

  lemma {:induction false} FuelConcat(c: Config, a: seq<Query>, b: seq<Query>)
    ensures Fuel(c, a + b) == Fuel(c, a) + Fuel(c, b)
  {
    if a == [] {
      assert a + b == b;
    } else {
      FuelConcat(c, a[1..], b);
      assert (a + b)[1..] == a[1..] + b;
    }
  }

  lemma FuelAround(c: Config, a: seq<Query>, q: Query, b: seq<Query>)
    ensures Fuel(c, a + [q] + b) == Fuel(c, a + b) + Budget(c, q)
  {
    FuelConcat(c, a + [q], b);
    FuelConcat(c, a, [q]);
    FuelConcat(c, a, b);
    assert Fuel(c, [q]) == Budget(c, q);
  }

  // Sending the query at the head, or ending it, leaves fewer sendings to come: dns_timeouts ends.
  lemma ExpireFuel(c: Config, s: State, now: nat, sent: Sending)
    requires Inv(c, s) && s.active != []
    ensures Fuel(c, Send(c, s, 0, s.active[0], now, sent).active) < Fuel(c, s.active)
  {
    var ch, k := SendChange(c, s, 0, s.active[0], now, sent);
    FuelWithout(c, s.active, 0);
    if ch.Moved? {
      MovedFuel(c, s.active[0], ch.q, Without(s.active, 0));
    }
  }

  lemma MovedFuel(c: Config, q: Query, r: Query, rest: seq<Query>)
    requires QueryOk(c, r) && r.hist.total == q.hist.total + 1
    ensures Fuel(c, Place(rest, r)) < Budget(c, q) + Fuel(c, rest)
  {
    RetryBound(c, r);
    PlanLength(c, r);
    MulMono(|r.hist.tried|, |c.search| + 2, Sends(c));
    FuelPlace(c, rest, r);
  }

  lemma ExpireInv(c: Config, s: State, now: nat, sent: Sending)
    requires Inv(c, s) && s.active != []
    ensures Inv(c, Send(c, s, 0, s.active[0], now, sent))
  {
    var ch, k := SendChange(c, s, 0, s.active[0], now, sent);
    ApplyInv(c, s, 0, ch);
  }

  lemma AnswerInv(c: Config, s: State, i: nat, k: nat, pkt: seq<byte>, status: int, now: nat, sent: Sending,
                  id: Id)
    requires Inv(c, s) && i < |s.active| && c.ntries >= 1 && |pkt| >= Packets.HSIZE
    ensures Inv(c, Reply(c, s, i, k, pkt, status, now, sent, id))
  {
    var ch := ReplyChange(c, s, i, k, pkt, status, now, sent, id);
    ApplyInv(c, s, i, ch);
  }

  // ---------- runs ----------

  ghost predicate IsTrace(c: Config, states: seq<State>, es: seq<Event>) {
    && |states| == |es| + 1
    && forall i {:trigger es[i]} :: 0 <= i < |es| ==> states[i + 1] == After(c, states[i], es[i])
  }

  // The events es lead from s to t.
  ghost predicate Leads(c: Config, s: State, es: seq<Event>, t: State) {
    exists states :: IsTrace(c, states, es) && states[0] == s && states[|es|] == t
  }

  lemma LeadsIsRun(c: Config, s: State, es: seq<Event>, t: State)
    ensures Leads(c, s, es, t) <==> t == Run(c, s, es)
  {
    if Leads(c, s, es, t) {
      var states :| IsTrace(c, states, es) && states[0] == s && states[|es|] == t;
      TraceIsRun(c, states, es);
    }
    var states := TraceOf(c, s, es);
    TraceIsRun(c, states, es);
  }

  lemma {:induction false} TraceIsRun(c: Config, states: seq<State>, es: seq<Event>)
    requires IsTrace(c, states, es)
    ensures states[|es|] == Run(c, states[0], es)
    decreases |es|
  {
    if es != [] {
      assert states[1] == After(c, states[0], es[0]);
      forall i {:trigger es[1..][i]} | 0 <= i < |es| - 1
        ensures states[1..][i + 1] == After(c, states[1..][i], es[1..][i])
      {
        assert es[1..][i] == es[i + 1];
      }
      TraceIsRun(c, states[1..], es[1..]);
    }
  }

  lemma {:induction false} TraceOf(c: Config, s: State, es: seq<Event>) returns (states: seq<State>)
    ensures IsTrace(c, states, es) && states[0] == s
    decreases |es|
  {
    if es == [] {
      states := [s];
    } else {
      var rest := TraceOf(c, After(c, s, es[0]), es[1..]);
      states := [s] + rest;
      forall i {:trigger es[i]} | 0 <= i < |es| ensures states[i + 1] == After(c, states[i], es[i]) {
        if i > 0 {
          assert es[i] == es[1..][i - 1];
        }
      }
    }
  }

  lemma {:induction false} RunTwice(c: Config, s: State, es: seq<Event>, fs: seq<Event>)
    ensures Run(c, s, es + fs) == Run(c, Run(c, s, es), fs)
    decreases |es|
  {
    if es == [] {
      assert es + fs == fs;
    } else {
      assert (es + fs)[0] == es[0] && (es + fs)[1..] == es[1..] + fs;
      RunTwice(c, After(c, s, es[0]), es[1..], fs);
    }
  }

  lemma LeadsNowhere(c: Config, s: State)
    ensures Leads(c, s, [], s)
  {
    LeadsIsRun(c, s, [], s);
  }

  lemma LeadsOn(c: Config, s: State, es: seq<Event>, t: State, fs: seq<Event>, u: State)
    requires Leads(c, s, es, t) && Leads(c, t, fs, u)
    ensures Leads(c, s, es + fs, u)
  {
    LeadsIsRun(c, s, es, t);
    LeadsIsRun(c, t, fs, u);
    LeadsIsRun(c, s, es + fs, u);
    RunTwice(c, s, es, fs);
  }

  lemma OneEvent(c: Config, s: State, e: Event)
    ensures Leads(c, s, [e], After(c, s, e))
  {
    LeadsIsRun(c, s, [e], After(c, s, e));
    assert [e][1..] == [];
  }

  lemma LeadsExpire(c: Config, s: State, es: seq<Event>, t: State, now: nat, sent: Sending)
    requires Leads(c, s, es, t) && t.active != [] && t.active[0].deadline <= now
    ensures Leads(c, s, es + [Expire(now, sent)], Send(c, t, 0, t.active[0], now, sent))
  {
    OneEvent(c, t, Expire(now, sent));
    LeadsOn(c, s, es, t, [Expire(now, sent)], After(c, t, Expire(now, sent)));
  }

  lemma LeadsReply(c: Config, s: State, e: Event)
    requires e.Answer? && e.entry < |s.active| && |e.pkt| >= Packets.HSIZE
    ensures Leads(c, s, [e], Reply(c, s, e.entry, e.server, e.pkt, e.status, e.now, e.sent, e.newid))
  {
    OneEvent(c, s, e);
  }

  // The smallest deadline is the one at the head.
  lemma HeadIsFirst(s: State, i: nat)
    requires Ordered(s.active) && i < |s.active|
    ensures s.active[0].deadline <= s.active[i].deadline
  {
    if i > 0 {
      assert Before(s.active[0], s.active[i]);
    }
  }

  // ---------- waiting for one query ----------

  // Events that come from the clock and the network alone.
  ghost predicate Network(es: seq<Event>) {
    forall e :: e in es ==> e.Expire? || e.Answer?
  }

  lemma NetworkOne(e: Event)
    requires e.Expire? || e.Answer?
    ensures Network([e])
  {
  }

  lemma NetworkStep(c: Config, s: State, e: Event)
    requires Inv(c, s) && c.Valid() && Enabled(c, s, e) && (e.Expire? || e.Answer?)
    ensures var t := Step(c, s, e);
            Inv(c, t) && t.submitted == s.submitted && t.cancelled == s.cancelled && t.dropped == s.dropped
  {
    StepInv(c, s, e);
    var i, ch := EventChange(c, s, e);
  }

  lemma {:induction false} NetworkKeeps(c: Config, s: State, es: seq<Event>)
    requires Inv(c, s) && c.Valid() && Network(es)
    ensures var t := Run(c, s, es);
            Inv(c, t) && t.submitted == s.submitted && t.cancelled == s.cancelled && t.dropped == s.dropped
    decreases |es|
  {
    if es != [] {
      assert es[0] in es;
      if Enabled(c, s, es[0]) {
        NetworkStep(c, s, es[0]);
        NetworkKeeps(c, Step(c, s, es[0]), es[1..]);
      } else {
        NetworkKeeps(c, s, es[1..]);
      }
    }
  }

  // Whatever comes from the clock and the network, there are never more sendings to come than before.
  lemma {:induction false} NetworkFuel(c: Config, s: State, es: seq<Event>)
    requires Inv(c, s) && c.Valid() && Network(es)
    ensures Fuel(c, Run(c, s, es).active) <= Fuel(c, s.active)
    decreases |es|
  {
    if es != [] {
      assert es[0] in es;
      if Enabled(c, s, es[0]) {
        var i, ch := EventChange(c, s, es[0]);
        ApplyFuel(c, s, i, ch);
        StepInv(c, s, es[0]);
      }
      NetworkFuel(c, After(c, s, es[0]), es[1..]);
    }
  }

  lemma ApplyFuel(c: Config, s: State, i: nat, ch: Change)
    requires i < |s.active| && QueriesOk(c, s.active) && ChangeOk(c, s, s.active[i], ch)
    ensures Fuel(c, Apply(s, i, ch).active) <= Fuel(c, s.active)
  {
    FuelWithout(c, s.active, i);
    match ch {
      case Moved(q) => FuelPlace(c, Without(s.active, i), q);
      case Kept(q) =>
        FuelWithout(c, s.active[i := q], i);
        assert Without(s.active[i := q], i) == Without(s.active, i);
      case Ended(d) =>
    }
  }

  lemma FuelWithout(c: Config, qs: seq<Query>, i: nat)
    requires i < |qs|
    ensures Fuel(c, qs) == Budget(c, qs[i]) + Fuel(c, Without(qs, i))
  {
    CutOut(qs, i);
    FuelAround(c, qs[..i], qs[i], qs[i + 1..]);
  }

  lemma FuelPlace(c: Config, qs: seq<Query>, q: Query)
    ensures Fuel(c, Place(qs, q)) == Budget(c, q) + Fuel(c, qs)
  {
    var k := PlaceIs(qs, q);
    CutTwo(qs, k);
    FuelAround(c, qs[..k], q, qs[k..]);
  }

  // Whether the first deadline has passed.
  ghost function Due(qs: seq<Query>, now: nat): nat {
    if qs != [] && qs[0].deadline <= now then 1 else 0
  }

  lemma DueBound(c: Config, qs: seq<Query>, now: nat)
    ensures Due(qs, now) <= Fuel(c, qs)
  {
  }

  // Expiry events that work off all deadlines up to now use up a sending, if one was due.
  lemma WorkedOff(c: Config, s: State, es: seq<Event>, now: nat)
    requires Inv(c, s) && c.Valid() && (forall e :: e in es ==> e.Expire? && e.now == now)
    requires Due(Run(c, s, es).active, now) == 0
    ensures Fuel(c, Run(c, s, es).active) + Due(s.active, now) <= Fuel(c, s.active)
  {
    if Due(s.active, now) == 0 {
      NetworkFuel(c, s, es);
    } else {
      assert es != [] && es[0] in es;
      ExpireFuel(c, s, now, es[0].sent);
      ExpireInv(c, s, now, es[0].sent);
      NetworkFuel(c, After(c, s, es[0]), es[1..]);
    }
  }

  // While nothing is cancelled or closed, an active query stays active until its callback runs. So when
  // the list is empty, and dns_timeouts has nothing to wait for, the callback has run.
  lemma StillThere(c: Config, s: State, es: seq<Event>, t: State, n: nat)
    requires Inv(c, s) && c.Valid() && Network(es) && n in Serials(s.active) && Leads(c, s, es, t)
    ensures (n in Serials(t.active) || n in LogSerials(t.log)) && (t.active == [] ==> n in LogSerials(t.log))
  {
    LeadsIsRun(c, s, es, t);
    NetworkKeeps(c, s, es);
    SameSum(Serials(s.active), LogSerials(s.log), Serials(t.active), LogSerials(t.log), s.cancelled, s.dropped, n);
    assert t.active == [] ==> Serials(t.active) == [];
  }

  lemma SameSum(a: seq<nat>, b: seq<nat>, a': seq<nat>, b': seq<nat>, d: seq<nat>, e: seq<nat>, n: nat)
    requires multiset(a) + multiset(b) + multiset(d) + multiset(e)
             == multiset(a') + multiset(b') + multiset(d) + multiset(e)
    requires n in a
    ensures n in a' || n in b'
  {
    assert multiset(a)[n] + multiset(b)[n] == multiset(a')[n] + multiset(b')[n] by {
      assert (multiset(a) + multiset(b) + multiset(d) + multiset(e))[n]
          == (multiset(a') + multiset(b') + multiset(d) + multiset(e))[n];
    }
    assert multiset(a)[n] > 0;
  }
}
