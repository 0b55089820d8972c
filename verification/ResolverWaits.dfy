// How long the resolver waits: the 32-bit backoff, and the waits and deadlines of whole runs.
module ResolverWaits {
  import opened Seqs
  import opened Bits
  import opened DomainNames
  import Packets
  import opened ResolverModel
  import opened ResolverRuns
  import opened ResolverTheorems

  // Below this a number of seconds fits an int, and below this its thousandfold does.
  const INTLIMIT := 0x8000_0000
  const POLLLIMIT := 2147484

  // ---------- the time between two tries ----------

  lemma {:induction false} Pow2Sum(m: nat, n: nat)
    ensures Pow2(m + n) == Pow2(m) * Pow2(n)
  {
    if m > 0 {
      Pow2Sum(m - 1, n);
      assert Pow2(m + n) == 2 * (Pow2(m - 1) * Pow2(n)) == (2 * Pow2(m - 1)) * Pow2(n);
    }
  }

  lemma Pow2Of32()
    ensures Pow2(32) == 0x1_0000_0000 && Pow2(31) == 0x8000_0000 && Pow2(24) == 0x100_0000
  {
    assert Pow2(8) == 0x100;
    Pow2Sum(8, 8);
    Pow2Sum(8, 16);
    Pow2Sum(16, 16);
  }

  // The wait is timeout * 2^try at all tries that the options allow, if and only if it still fits 32 bits
  // at the last of them.
  lemma BackoffExact(timeout: nat, ntries: nat, beyond: nat)
    requires 1 <= ntries <= 32
    ensures (forall try: nat :: try < ntries ==> Backoff(timeout, try, beyond) == timeout * Pow2(try))
       <==> timeout * Pow2(ntries - 1) < 0x1_0000_0000
  {
    var last := ntries - 1;
    if timeout * Pow2(last) < 0x1_0000_0000 {
      forall try: nat | try < ntries ensures Backoff(timeout, try, beyond) == timeout * Pow2(try) {
        Pow2Grows(try, last);
        MulMono(Pow2(try), Pow2(last), timeout);
      }
    } else {
      assert Backoff(timeout, last, beyond) != timeout * Pow2(last);
    }
  }

  // A query that has just been sent is due in one second if there is another server to ask, and else in
  // timeout * 2^try seconds, as long as that fits 32 bits.
  lemma DeadlineIs(c: Config, q: Query, k: nat, now: nat, beyond: nat, stamp: nat)
    requires q.servi <= c.nserv && q.try < 32 && c.timeout * Pow2(q.try) < 0x1_0000_0000
    ensures Sent(c, q, k, now, beyond, stamp).deadline
         == now + if exists j :: q.servi <= j < c.nserv && j !in q.skip then 1 else c.timeout * Pow2(q.try)
  {
  }

  lemma {:induction false} Pow2Grows(m: nat, n: nat)
    requires m <= n
    ensures Pow2(m) <= Pow2(n)
    decreases n - m
  {
    if m < n { Pow2Grows(m + 1, n); }
  }

  // The shift loses all its bits exactly if the timeout is a multiple of 2^(32 - try).
  lemma BackoffIsZero(timeout: nat, try: nat, beyond: nat)
    requires try < 32
    ensures Backoff(timeout, try, beyond) == 0 <==> timeout % Pow2(32 - try) == 0
  {
    Pow2Of32();
    Pow2Sum(try, 32 - try);
    ShiftedMod(timeout, Pow2(try), Pow2(32 - try));
  }

  lemma ShiftedMod(x: nat, a: nat, b: nat)
    requires a > 0 && b > 0
    ensures a * b > 0 && (x * a % (a * b) == 0 <==> x % b == 0)
  {
    var q, r := x / b, x % b;
    assert x == b * q + r;
    assert a * b > 0 by { MulMono(1, a, b); }
    assert x * a == (a * b) * q + r * a by {
      assert (b * q + r) * a == b * q * a + r * a;
      assert b * q * a == (a * b) * q;
    }
    assert r * a < a * b by {
      MulMono(r + 1, b, a);
      assert (r + 1) * a == r * a + a;
    }
    DivModUnique(x * a, a * b, q, r * a);
    assert r * a == 0 <==> r == 0;
  }

  // No wait vanishes at any try that the options allow, if and only if the timeout is no multiple of
  // 2^(33 - ntries).
  lemma BackoffNeverZero(timeout: nat, ntries: nat, beyond: nat)
    requires 1 <= ntries <= 32
    ensures (forall try: nat :: try < ntries ==> Backoff(timeout, try, beyond) != 0)
       <==> timeout % Pow2(33 - ntries) != 0
  {
    BackoffIsZero(timeout, ntries - 1, beyond);
    if timeout % Pow2(33 - ntries) != 0 {
      forall try: nat | try < ntries ensures Backoff(timeout, try, beyond) != 0 {
        BackoffIsZero(timeout, try, beyond);
        Pow2Sum(33 - ntries, ntries - 1 - try);
        FactorDivides(timeout, Pow2(33 - ntries), Pow2(ntries - 1 - try));
      }
    }
  }

  lemma FactorDivides(x: nat, a: nat, b: nat)
    requires a > 0 && b > 0
    ensures a * b > 0 && (x % (a * b) == 0 ==> x % a == 0)
  {
    assert a * b > 0 by { MulMono(1, a, b); }
    if x % (a * b) == 0 {
      var q := x / (a * b);
      assert x == (a * b) * q == a * (b * q) + 0;
      DivModUnique(x, a, b * q, 0);
    }
  }

  // If the shifted timeout gets to the limit at all, it does so first at a try where it still fits 32 bits.
  lemma {:induction false} CrossingTry(timeout: nat, limit: nat, n: nat) returns (try: nat)
    requires 1 <= timeout < 0x1_0000_0000 && limit <= INTLIMIT && timeout * Pow2(n) >= limit
    ensures try <= n && try < 32 && Backoff(timeout, try, 0) >= limit
    decreases n
  {
    if n == 0 {
      try := 0;
    } else if timeout * Pow2(n - 1) >= limit {
      try := CrossingTry(timeout, limit, n - 1);
    } else {
      try := n;
      assert timeout * Pow2(n) == 2 * (timeout * Pow2(n - 1));
      ShiftBelow(timeout, n - 1);
    }
  }

  lemma ShiftBelow(timeout: nat, n: nat)
    requires timeout >= 1 && timeout * Pow2(n) < INTLIMIT
    ensures n < 31
  {
    Pow2Of32();
    if n >= 31 {
      Pow2Grows(31, n);
      MulMono(1, timeout, Pow2(n));
    }
  }

  lemma EarlierBelow(timeout: nat, last: nat, limit: nat, try: nat, beyond: nat)
    requires 1 <= timeout && limit <= INTLIMIT && timeout * Pow2(last) < limit && try <= last
    ensures Backoff(timeout, try, beyond) < limit
  {
    ShiftBelow(timeout, last);
    Pow2Grows(try, last);
    MulMono(Pow2(try), Pow2(last), timeout);
  }

  // All waits that the options allow are below a limit of at most 2^31 if and only if the last one is,
  // computed without the wrap-around.
  lemma BackoffBelow(timeout: nat, ntries: nat, limit: nat)
    requires 1 <= timeout < 0x1_0000_0000 && ntries >= 1 && limit <= INTLIMIT
    ensures (forall try: nat, beyond: nat :: try < ntries ==> Backoff(timeout, try, beyond) < limit)
       <==> timeout * Pow2(ntries - 1) < limit
  {
    if timeout * Pow2(ntries - 1) < limit {
      forall try: nat, beyond: nat | try < ntries ensures Backoff(timeout, try, beyond) < limit {
        EarlierBelow(timeout, ntries - 1, limit, try, beyond);
      }
    } else {
      var try := CrossingTry(timeout, limit, ntries - 1);
      assert Backoff(timeout, try, 0) >= limit;
    }
  }

  // ---------- any try is reached ----------

  // The events of the clock and the network happened by this time.
  ghost predicate Past(es: seq<Event>, now: nat) {
    forall e :: e in es && (e.Expire? || e.Answer?) ==> e.now <= now
  }

  lemma PastMore(es: seq<Event>, e: Event, now: nat, later: nat)
    requires Past(es, now) && now <= later && (e.Expire? || e.Answer? ==> e.now <= later)
    ensures Past(es + [e], later)
  {
  }

  lemma PastJoined(es: seq<Event>, fs: seq<Event>, now: nat)
    requires Past(es, now) && Past(fs, now) && Network(es) && Network(fs)
    ensures Past(es + fs, now) && Network(es + fs)
  {
  }

  // A datagram that is a reply, or not, as a run of events
  lemma ReplyRun(c: Config, s: State, t: State, ok: bool, e: Event, now: nat) returns (es: seq<Event>)
    requires ok ==> e.Answer? && e.now == now && e.entry < |s.active| && |e.pkt| >= Packets.HSIZE
                    && t == Reply(c, s, e.entry, e.server, e.pkt, e.status, now, e.sent, e.newid)
    requires !ok ==> t == s
    ensures es == (if ok then [e] else []) && Leads(c, s, es, t) && Network(es) && Past(es, now)
  {
    if ok {
      es := [e];
      LeadsReply(c, s, e);
      NetworkOne(e);
    } else {
      es := [];
      LeadsNowhere(c, s);
    }
  }

  // How long a query waits that was sent to server j in try t, when no server is to be skipped.
  function WaitAfter(c: Config, t: nat, j: nat): nat {
    if j + 1 < c.nserv then 1 else Backoff(c.timeout, t, 0)
  }

  // There is one query, and it has just been sent to server j in try t.
  ghost predicate SentTo(c: Config, es: seq<Event>, now: nat, q: Query, t: nat, j: nat) {
    var s := Run(c, START, es);
    && Past(es, now) && Enabled(c, s, Expire(now, Gone(0))) && Step(c, s, Expire(now, Gone(0))).active == [q]
    && q.hist.stamp == s.ticks
    && q.try == t && q.servi == j + 1 && q.skip == {} && q.deadline == now + WaitAfter(c, t, j)
  }

  // When nothing is answered, each expired deadline sends the query to the next server, through all
  // tries.
  lemma {:induction false} KthSending(c: Config, t: nat, j: nat) returns (es: seq<Event>, now: nat, q: Query)
    requires c.Valid() && t < c.ntries && j < c.nserv
    ensures SentTo(c, es, now, q, t, j)
    decreases t, j
  {
    if t == 0 && j == 0 {
      es, now, q := FirstSending(c);
    } else {
      var front, last, p;
      if j > 0 {
        front, last, p := KthSending(c, t, j - 1);
      } else {
        front, last, p := KthSending(c, t - 1, c.nserv - 1);
      }
      var e := Expire(last, Gone(0));
      es, now := front + [e], p.deadline;
      RunSnoc(c, START, front, e);
      PastMore(front, e, last, now);
      q := NextSending(c, Run(c, START, es), p, now, t, j);
    }
  }

  lemma FirstSending(c: Config) returns (es: seq<Event>, now: nat, q: Query)
    requires c.Valid() && c.nserv > 0
    ensures SentTo(c, es, now, q, 0, 0)
  {
    var e := Submit([], [0, 1, 0, 1], Flags(false, false, false, false), true, Id(0, 1));
    assert Wire([]) == [0];
    RunSnoc(c, START, [], e);
    assert [] + [e] == [e];
    es, now := [e], 0;
    var s := Run(c, START, es);
    assert Without(s.active, 0) == [];
    q := Sent(c, s.active[0].(servi := 1), 0, 0, 0, s.ticks);
  }

  lemma NextSending(c: Config, s: State, p: Query, now: nat, t: nat, j: nat) returns (q: Query)
    requires c.Valid() && s.active == [p] && p.skip == {} && t < c.ntries && j < c.nserv
    requires if j > 0 then p.try == t && p.servi == j else p.try + 1 == t && p.servi == c.nserv
    ensures Send(c, s, 0, p, now, Gone(0)).active == [q] && q.hist.stamp == s.ticks
    ensures q.try == t && q.servi == j + 1 && q.skip == {} && q.deadline == now + WaitAfter(c, t, j)
  {
    assert Without(s.active, 0) == [];
    q := Sent(c, p.(servi := j + 1, try := t), j, now, 0, s.ticks);
  }

  // ---------- waits that vanish ----------

  // In a run an expired deadline or a reply sends a query that is due again at once.
  ghost predicate DueAtOnce(c: Config, es: seq<Event>, e: Event, q: Query) {
    var s := Run(c, START, es);
    && (e.Expire? || e.Answer?) && Enabled(c, s, e) && q in Step(c, s, e).active
    && q.hist.stamp == s.ticks && q.deadline == e.now
  }

  lemma NoneNewest(qs: seq<Query>, q: Query, now: nat)
    requires Stamped(qs, now) && q.hist.stamp == now
    ensures q !in qs
  {
  }

  lemma NewestIs(rest: seq<Query>, t: Query, q: Query, now: nat)
    requires Stamped(rest, now) && q in Place(rest, t) && q.hist.stamp == now
    ensures q == t
  {
    var n := PlaceIs(rest, t);
    NoneNewest(rest, q, now);
    assert rest == rest[..n] + rest[n..];
  }

  // What has just been sent is the query that the event has moved.
  lemma JustSent(c: Config, s: State, e: Event, q: Query)
    requires Inv(c, s) && c.Valid() && Enabled(c, s, e) && (e.Expire? || e.Answer?)
    requires q in Step(c, s, e).active && q.hist.stamp == s.ticks
    ensures c.nserv > 0 && DueBy(c, e.now, q)
  {
    var i, ch := EventChange(c, s, e);
    if ch.Moved? {
      StampedWithout(s.active, i, s.ticks);
      NewestIs(Without(s.active, i), ch.q, q, s.ticks);
      SomeServer(c, ch.q);
    } else {
      NotSent(c, s, i, ch, q);
    }
  }

  lemma NotSent(c: Config, s: State, i: nat, ch: Change, q: Query)
    requires i < |s.active| && InBounds(c, s.active[i]) && ChangeOk(c, s, s.active[i], ch) && !ch.Moved?
    requires Stamped(s.active, s.ticks) && q.hist.stamp == s.ticks
    ensures q !in Apply(s, i, ch).active
  {
    StampedWithout(s.active, i, s.ticks);
    NoneNewest(if ch.Kept? then s.active[i := ch.q] else Without(s.active, i), q, s.ticks);
  }

  lemma SomeServer(c: Config, q: Query)
    requires QueryOk(c, q) && q.hist.total > 0
    ensures c.nserv > 0
  {
    RetryBound(c, q);
  }

  // With at most 32 tries, no query is due again when it has just been sent, unless the timeout is a
  // multiple of 2^(33 - ntries).
  lemma NeverDueAtOnce(c: Config, es: seq<Event>, e: Event, q: Query)
    requires c.Valid() && c.ntries <= 32 && (c.nserv == 0 || c.timeout % Pow2(33 - c.ntries) != 0)
    ensures !DueAtOnce(c, es, e, q)
  {
    RunOk(c, es);
    if DueAtOnce(c, es, e, q) {
      JustSent(c, Run(c, START, es), e, q);
      DueLater(c, e.now, q);
    }
  }

  lemma DueLater(c: Config, now: nat, q: Query)
    requires 1 <= c.ntries <= 32 && c.timeout % Pow2(33 - c.ntries) != 0 && DueBy(c, now, q)
    ensures q.deadline > now
  {
    if q.deadline != now + 1 {
      var try: nat, beyond: nat :| try < c.ntries && q.deadline == now + Backoff(c.timeout, try, beyond);
      BackoffNeverZero(c.timeout, c.ntries, beyond);
      assert Backoff(c.timeout, try, beyond) != 0;
    }
  }

  // A run with a query that is due again at once exists if and only if there is a server and the timeout
  // is a multiple of 2^(33 - ntries).
  lemma WaitVanishesIff(c: Config)
    requires c.Valid() && c.ntries <= 32
    ensures (exists es, e, q :: DueAtOnce(c, es, e, q)) <==> c.nserv > 0 && c.timeout % Pow2(33 - c.ntries) == 0
  {
    if c.nserv > 0 && c.timeout % Pow2(33 - c.ntries) == 0 {
      var es, now, q := KthSending(c, c.ntries - 1, c.nserv - 1);
      BackoffIsZero(c.timeout, c.ntries - 1, 0);
      assert DueAtOnce(c, es, Expire(now, Gone(0)), q);
    } else {
      forall es, e, q ensures !DueAtOnce(c, es, e, q) {
        NeverDueAtOnce(c, es, e, q);
      }
    }
  }

  // A timeout of 256 seconds, 25 tries and one server: settings within the ranges of the options.
  const LONGWAIT := Config(256, 25, 0, MAXPACKET, 1, [])

  // So the wait does vanish: at the 25th try the query is sent, and it is due at once.
  lemma BackoffCanVanish()
    ensures LONGWAIT.Valid()
    ensures exists es, e, q :: DueAtOnce(LONGWAIT, es, e, q) && q.try == 24
  {
    var es, now, q := KthSending(LONGWAIT, 24, 0);
    Pow2Of32();
    assert DueAtOnce(LONGWAIT, es, Expire(now, Gone(0)), q);
  }

  // ---------- deadlines within a limit ----------

  // No deadline lies as far ahead as the limit.
  ghost predicate Near(qs: seq<Query>, now: nat, limit: nat) {
    forall i :: 0 <= i < |qs| ==> qs[i].deadline < now + limit
  }

  // The longest wait that the options ask for is below the limit, or nothing is ever sent.
  ghost predicate ShortWaits(c: Config, limit: nat)
    requires c.ntries >= 1
  {
    c.nserv == 0 || c.timeout * Pow2(c.ntries - 1) < limit
  }

  // The range of the option timeout, an unsigned int, and of the limits looked at here.
  ghost predicate InRange(c: Config, limit: nat) {
    c.Valid() && 1 <= c.timeout < 0x1_0000_0000 && 2 <= limit <= INTLIMIT
  }

  lemma StepNear(c: Config, s: State, e: Event, now: nat, limit: nat)
    requires Inv(c, s) && InRange(c, limit) && ShortWaits(c, limit) && Enabled(c, s, e)
    requires Near(s.active, now, limit) && (e.Expire? || e.Answer? ==> e.now <= now)
    ensures Near(Step(c, s, e).active, now, limit)
  {
    match e {
      case Submit(dn, typcls, flags, noSearch, id) =>
        NewQueryOk(c, s.submitted, s.ticks, dn, typcls, flags, noSearch, id);
      case Cancel(i) =>
      case Close =>
      case _ =>
        var i, ch := EventChange(c, s, e);
        ApplyNear(c, s, i, ch, e.now, now, limit);
    }
  }

  lemma ApplyNear(c: Config, s: State, i: nat, ch: Change, at: nat, now: nat, limit: nat)
    requires i < |s.active| && QueriesOk(c, s.active) && ChangeOk(c, s, s.active[i], ch) && Timed(c, at, ch)
    requires InRange(c, limit) && ShortWaits(c, limit) && Near(s.active, now, limit) && at <= now
    ensures Near(Apply(s, i, ch).active, now, limit)
  {
    if ch.Moved? {
      SomeServer(c, ch.q);
      BackoffBelow(c.timeout, c.ntries, limit);
      NearPlace(Without(s.active, i), ch.q, now, limit);
    }
  }

  lemma NearPlace(qs: seq<Query>, q: Query, now: nat, limit: nat)
    requires Near(qs, now, limit) && q.deadline < now + limit
    ensures Near(Place(qs, q), now, limit)
  {
    var k := PlaceIs(qs, q);
    forall j | 0 <= j < |qs| + 1 ensures Place(qs, q)[j].deadline < now + limit {
      Inserted(qs, k, q, j);
    }
  }

  lemma {:induction false} RunNear(c: Config, s: State, es: seq<Event>, now: nat, limit: nat)
    requires Inv(c, s) && InRange(c, limit) && ShortWaits(c, limit) && Near(s.active, now, limit) && Past(es, now)
    ensures Near(Run(c, s, es).active, now, limit)
    decreases |es|
  {
    if es != [] {
      assert es[0] in es;
      if Enabled(c, s, es[0]) {
        StepNear(c, s, es[0], now, limit);
        StepInv(c, s, es[0]);
      }
      RunNear(c, After(c, s, es[0]), es[1..], now, limit);
    }
  }

  // The settings and deadlines keep within the limit.
  ghost predicate Calm(c: Config, qs: seq<Query>, now: nat, limit: nat) {
    InRange(c, limit) && ShortWaits(c, limit) && Near(qs, now, limit)
  }

  // Whatever limit these deadlines kept within, the later ones do.
  ghost predicate CalmKept(c: Config, qs0: seq<Query>, now0: nat, qs: seq<Query>, now: nat) {
    forall limit :: Calm(c, qs0, now0, limit) ==> Calm(c, qs, now, limit)
  }

  lemma RunCalm(c: Config, s: State, es: seq<Event>, now: nat)
    requires Inv(c, s) && Past(es, now)
    ensures CalmKept(c, s.active, now, Run(c, s, es).active, now)
  {
    forall limit | Calm(c, s.active, now, limit) ensures Calm(c, Run(c, s, es).active, now, limit) {
      RunNear(c, s, es, now, limit);
    }
  }

  // In every run, looked at when the clock stands no earlier than at any event before, all deadlines are
  // within the limit if and only if the longest wait that the options ask for is below it.
  lemma WaitsBelow(c: Config, limit: nat)
    requires InRange(c, limit)
    ensures (forall es, now :: Past(es, now) ==> Near(Run(c, START, es).active, now, limit)) <==> ShortWaits(c, limit)
  {
    if ShortWaits(c, limit) {
      StartInv(c);
      forall es, now: nat | Past(es, now) ensures Near(Run(c, START, es).active, now, limit) {
        RunNear(c, START, es, now, limit);
      }
    } else {
      var t := CrossingTry(c.timeout, limit, c.ntries - 1);
      var es, now := LongWait(c, t);
      assert Run(c, START, es).active[0].deadline == now + Backoff(c.timeout, t, 0);
    }
  }

  // A run that ends with a query that waits for the backoff of try t.
  lemma LongWait(c: Config, t: nat) returns (es: seq<Event>, now: nat)
    requires c.Valid() && t < c.ntries && c.nserv > 0
    ensures Past(es, now)
    ensures var qs := Run(c, START, es).active; |qs| == 1 && qs[0].deadline == now + Backoff(c.timeout, t, 0)
  {
    var front, last, q := KthSending(c, t, c.nserv - 1);
    es, now := front + [Expire(last, Gone(0))], last;
    RunSnoc(c, START, front, Expire(last, Gone(0)));
    PastMore(front, Expire(last, Gone(0)), last, now);
  }

  // ---------- the wait that dns_timeouts returns ----------

  // The conversion to int, in two's complement
  function AsInt(x: int): int {
    var n := x % 0x1_0000_0000;
    if n < INTLIMIT then n else n - 0x1_0000_0000
  }

  // The end of dns_timeouts, where no deadline has passed
  function TimeToWait(qs: seq<Query>, maxwait: int, now: nat): int {
    if qs == [] then maxwait
    else
      var w := AsInt(qs[0].deadline - now);
      if maxwait < 0 || maxwait > w then w else maxwait
  }

  // What the caller wants: all deadlines lie ahead, and wait is the time until the first of them, but no
  // more than maxwait unless that is negative.
  ghost predicate Waits(qs: seq<Query>, maxwait: int, now: nat, wait: int) {
    && (forall i :: 0 <= i < |qs| ==> qs[i].deadline > now)
    && (forall i :: 0 <= i < |qs| ==> wait <= qs[i].deadline - now)
    && (maxwait >= 0 ==> wait <= maxwait)
    && (qs != [] ==> wait >= 0)
    && (wait == maxwait || exists i :: 0 <= i < |qs| && wait == qs[i].deadline - now)
  }

  // The result is that if and only if the time to the first deadline fits an int, or what the conversion
  // leaves of it is still no less than maxwait.
  lemma WaitIsRight(qs: seq<Query>, maxwait: int, now: nat)
    requires Ordered(qs) && (qs != [] ==> qs[0].deadline > now)
    ensures Waits(qs, maxwait, now, TimeToWait(qs, maxwait, now))
       <==> qs == [] || qs[0].deadline < now + INTLIMIT || 0 <= maxwait <= AsInt(qs[0].deadline - now)
  {
    forall i | 0 <= i < |qs| ensures qs[0].deadline <= qs[i].deadline {
      if i > 0 {
        assert Before(qs[0], qs[i]);
      }
    }
  }

  // What dns_timeouts promises when the list was qs0 before it and is qs now: all deadlines lie ahead, and the
  // result is what the caller wants if the time to the first of them fits an int, and so always when the
  // options keep the waits below 2^31 and the clock does not go back.
  ghost predicate WaitPromise(c: Config, qs0: seq<Query>, qs: seq<Query>, maxwait: int, now: nat, wait: int) {
    && (forall i :: 0 <= i < |qs| ==> qs[i].deadline > now)
    && wait == TimeToWait(qs, maxwait, now)
    && (Waits(qs, maxwait, now, wait) <==>
          qs == [] || qs[0].deadline < now + INTLIMIT || 0 <= maxwait <= AsInt(qs[0].deadline - now))
    && (Calm(c, qs0, now, INTLIMIT) ==> Waits(qs, maxwait, now, wait))
  }

  // After dns_timeouts has worked off what was due
  lemma WorkedOffWait(c: Config, s: State, es: seq<Event>, t: State, maxwait: int, now: nat)
    requires Inv(c, s) && Inv(c, t) && Past(es, now) && Leads(c, s, es, t)
    requires t.active != [] ==> t.active[0].deadline > now
    ensures WaitPromise(c, s.active, t.active, maxwait, now, TimeToWait(t.active, maxwait, now))
  {
    HeadAhead(t, now);
    CalmWait(c, s, es, t, now);
    WaitPromised(c, s.active, t.active, maxwait, now);
  }

  lemma WaitPromised(c: Config, qs0: seq<Query>, qs: seq<Query>, maxwait: int, now: nat)
    requires Ordered(qs) && forall i :: 0 <= i < |qs| ==> qs[i].deadline > now
    requires Calm(c, qs0, now, INTLIMIT) && qs != [] ==> qs[0].deadline < now + INTLIMIT
    ensures WaitPromise(c, qs0, qs, maxwait, now, TimeToWait(qs, maxwait, now))
  {
    WaitIsRight(qs, maxwait, now);
  }

  lemma CalmWait(c: Config, s: State, es: seq<Event>, t: State, now: nat)
    requires Inv(c, s) && Past(es, now) && Leads(c, s, es, t)
    ensures Calm(c, s.active, now, INTLIMIT) && t.active != [] ==> t.active[0].deadline < now + INTLIMIT
  {
    LeadsIsRun(c, s, es, t);
    RunCalm(c, s, es, now);
    if Calm(c, s.active, now, INTLIMIT) && t.active != [] {
      CalmFirst(c, s.active, t.active, now);
    }
  }

  lemma HeadAhead(s: State, now: nat)
    requires Ordered(s.active) && (s.active != [] ==> s.active[0].deadline > now)
    ensures forall i :: 0 <= i < |s.active| ==> s.active[i].deadline > now
  {
    forall i | 0 <= i < |s.active| ensures s.active[i].deadline > now {
      HeadIsFirst(s, i);
    }
  }

  lemma CalmFirst(c: Config, qs0: seq<Query>, qs: seq<Query>, now: nat)
    requires CalmKept(c, qs0, now, qs, now) && Calm(c, qs0, now, INTLIMIT) && qs != []
    ensures qs[0].deadline < now + INTLIMIT
  {
    assert Calm(c, qs, now, INTLIMIT);
  }

  // A timeout of 256 seconds, 24 tries and one server, again within the ranges of the options.
  const NEGATIVEWAIT := Config(256, 24, 0, MAXPACKET, 1, [])

  // After the 24th try the time to the deadline is 2^31 seconds. Whatever maxwait is, dns_timeouts
  // returns a negative number, although a query is active.
  lemma WaitTurnsNegative(maxwait: int)
    ensures NEGATIVEWAIT.Valid()
    ensures exists es, now: nat :: Past(es, now) && var qs := Run(NEGATIVEWAIT, START, es).active;
              qs != [] && qs[0].deadline == now + INTLIMIT && TimeToWait(qs, maxwait, now) < 0
  {
    var es, now := LongWait(NEGATIVEWAIT, 23);
    Pow2Of32();
    assert 2 * Pow2(23) == Pow2(24);
    assert Past(es, now);
  }
}
