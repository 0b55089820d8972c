// The rounds of dns_resolve: what poll brings, and what the options and the clock allow to promise.
module ResolverRounds {
  import opened DomainNames
  import opened ResolverModel
  import opened ResolverTheorems
  import opened ResolverWaits

  datatype Datagram = Datagram(bytes: seq<byte>, from: nat)

  // A return of poll: the wait is over and nothing has arrived, or it returns at some other time, with the
  // datagrams that have arrived. The clock may be set back meanwhile; it does not go below 0.
  datatype Round = Quiet(late: nat) | Woken(step: int, dgrams: seq<Datagram>)

  // The clock does not go back.
  ghost predicate Steady(rounds: seq<Round>) {
    forall i :: 0 <= i < |rounds| && rounds[i].Woken? ==> rounds[i].step >= 0
  }

  function Quiets(rounds: seq<Round>): nat {
    if rounds == [] then 0
    else Quiets(rounds[..|rounds| - 1]) + if rounds[|rounds| - 1].Quiet? then 1 else 0
  }

  lemma QuietsMore(rounds: seq<Round>, n: nat)
    requires n < |rounds|
    ensures Quiets(rounds[..n + 1]) == Quiets(rounds[..n]) + if rounds[n].Quiet? then 1 else 0
  {
    assert rounds[..n + 1][..n] == rounds[..n];
  }

  // The sendings to come at first; whether all waits fit an int, and whether they do in milliseconds.
  datatype Terms = Terms(fuel: nat, fits: bool, polls: bool)

  ghost function TermsOf(c: Config, qs: seq<Query>, start: nat, rounds: seq<Round>): Terms {
    Terms(Fuel(c, qs), Calm(c, qs, start, INTLIMIT) && Steady(rounds), Calm(c, qs, start, POLLLIMIT) && Steady(rounds))
  }

  // Each quiet round so far has used up a sending of those to come at first, or the sending is due now.
  ghost predicate Paid(c: Config, rounds: seq<Round>, used: nat, fuel: nat, qs: seq<Query>, now: nat) {
    used <= |rounds| && Quiets(rounds[..used]) + Fuel(c, qs) <= fuel + Due(qs, now)
  }

  // What the terms promise holds so far.
  ghost predicate Going(c: Config, rounds: seq<Round>, used: nat, terms: Terms, qs: seq<Query>, now: nat) {
    && used <= |rounds|
    && (terms.fits || terms.polls ==> Steady(rounds))
    && (terms.fits ==> Calm(c, qs, now, INTLIMIT))
    && (terms.polls ==> Calm(c, qs, now, POLLLIMIT) && Paid(c, rounds, used, terms.fuel, qs, now))
  }

  // The wait is negative as an int, although a query is active.
  ghost predicate Stuck(terms: Terms, qs: seq<Query>, now: nat) {
    !terms.fits && TimeToWait(qs, -1, now) < 0
  }

  // Of the first `used` rounds at most `fuel` were quiet.
  ghost predicate QuietAtMost(rounds: seq<Round>, used: nat, fuel: nat) {
    used <= |rounds| && Quiets(rounds[..used]) <= fuel
  }

  lemma StartGoing(c: Config, rounds: seq<Round>, terms: Terms, qs: seq<Query>, start: nat)
    requires terms == TermsOf(c, qs, start, rounds)
    ensures Going(c, rounds, 0, terms, qs, start)
  {
    assert rounds[..0] == [];
  }

  lemma PaidOff(c: Config, rounds: seq<Round>, used: nat, terms: Terms, qs: seq<Query>, now: nat)
    requires Going(c, rounds, used, terms, qs, now)
    ensures terms.polls ==> QuietAtMost(rounds, used, terms.fuel)
  {
    DueBound(c, qs, now);
  }

  // dns_timeouts uses up a sending if one is due, and leaves all deadlines ahead.
  ghost predicate Worked(c: Config, qs0: seq<Query>, now0: nat, qs1: seq<Query>) {
    && Fuel(c, qs1) + Due(qs0, now0) <= Fuel(c, qs0) && CalmKept(c, qs0, now0, qs1, now0)
    && forall i :: 0 <= i < |qs1| ==> qs1[i].deadline > now0
  }

  // After a quiet round a sending is due, if the wait in milliseconds fitted an int.
  ghost predicate Polled(c: Config, round: Round, qs1: seq<Query>, now0: nat, qs: seq<Query>, now: nat) {
    if round.Quiet? then
      qs == qs1 && now >= now0 && (qs != [] && qs[0].deadline < now0 + POLLLIMIT ==> Due(qs, now) == 1)
    else
      Fuel(c, qs) <= Fuel(c, qs1) && (round.step >= 0 ==> now >= now0) && CalmKept(c, qs1, now, qs, now)
  }

  lemma QuietRound(c: Config, round: Round, qs: seq<Query>, now0: nat, wait: nat, now: nat)
    requires round.Quiet? && qs != [] && qs[0].deadline > now0 && wait == TimeToWait(qs, -1, now0)
    requires now == now0 + (if wait * 1000 < INTLIMIT then wait else 0) + round.late
    ensures Polled(c, round, qs, now0, qs, now)
  {
  }

  lemma GoingTurn(c: Config, rounds: seq<Round>, used: nat, terms: Terms, qs0: seq<Query>, now0: nat, qs1: seq<Query>,
                  more: bool, qs: seq<Query>, now: nat)
    requires Going(c, rounds, used, terms, qs0, now0) && Worked(c, qs0, now0, qs1)
    requires if more then used < |rounds| && qs1 != [] && Polled(c, rounds[used], qs1, now0, qs, now)
             else qs == qs1 && now == now0
    ensures Going(c, rounds, if more then used + 1 else used, terms, qs, now)
    ensures terms.fits && qs1 != [] ==> TimeToWait(qs1, -1, now0) > 0
  {
    if more {
      QuietsMore(rounds, used);
      if terms.fits {
        CalmLater(c, qs1, now0, rounds[used], qs, now, INTLIMIT);
      }
      if terms.polls {
        CalmLater(c, qs1, now0, rounds[used], qs, now, POLLLIMIT);
      }
    }
  }

  lemma CalmLater(c: Config, qs1: seq<Query>, now0: nat, round: Round, qs: seq<Query>, now: nat, limit: nat)
    requires Calm(c, qs1, now0, limit) && Polled(c, round, qs1, now0, qs, now) && (round.Woken? ==> round.step >= 0)
    ensures Calm(c, qs, now, limit)
  {
    assert Calm(c, qs1, now, limit);
  }
}
