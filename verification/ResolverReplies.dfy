// What the header of a reply does to its query, in terms of the bytes of the packet and of the callback.
module ResolverReplies {
  import opened Seqs
  import opened DomainNames
  import opened ReplyHeader
  import opened ResolverModel
  import opened ResolverRuns
  import opened ResolverTheorems
  import opened ResolverMessages

  // A callback that has been run.
  datatype Call = Call(serial: nat, status: int)

  function CallsOf(log: seq<Done>): seq<Call> {
    if log == [] then [] else CallsOf(log[..|log| - 1]) + [Call(log[|log| - 1].q.serial, log[|log| - 1].Status())]
  }

  lemma CallsMore(log: seq<Done>, d: Done)
    ensures CallsOf(log + [d]) == CallsOf(log) + [Call(d.q.serial, d.Status())]
  {
    assert (log + [d])[..|log|] == log;
  }

  // Query i is waiting for a reply from server k.
  ghost predicate Waiting(c: Config, s: State, i: nat, k: nat) {
    Inv(c, s) && c.Valid() && i < |s.active| && k in s.active[i].wait
  }

  // The query has ended, and its callback gets the status.
  ghost predicate CalledBack(s: State, t: State, i: nat, status: int)
    requires i < |s.active|
  {
    CallsOf(t.log) == CallsOf(s.log) + [Call(s.active[i].serial, status)] && t.active == Without(s.active, i)
  }

  lemma EndCalls(s: State, i: nat, q: Query, reason: Reason)
    requires i < |s.active| && q.serial == s.active[i].serial
    ensures CalledBack(s, End(s, i, q, reason), i, Done(q, reason).Status())
  {
    CallsMore(s.log, Done(q, reason));
  }

  // No error, not truncated, and some answers: the callback gets what the reply is worth.
  lemma PositiveReply(c: Config, s: State, i: nat, k: nat, pkt: seq<byte>, status: int, now: nat, sent: Sending, id: Id)
    requires Waiting(c, s, i, k) && |pkt| >= 12
    requires pkt[3] % 16 == 0 && pkt[2] / 2 % 2 == 0 && (pkt[6] != 0 || pkt[7] != 0)
    ensures CalledBack(s, Reply(c, s, i, k, pkt, status, now, sent, id), i, status)
  {
    EndCalls(s, i, Heard(s.active[i], k), Answered(status));
  }

  // No such name (3), or no error and no answers, when no candidate is left: the callback gets NODATA (-4) if
  // this reply or an earlier one was of the second kind, else NXDOMAIN (-3).
  lemma LastNegativeReply(c: Config, s: State, i: nat, k: nat, pkt: seq<byte>, status: int, now: nat, sent: Sending,
                          id: Id)
    requires Waiting(c, s, i, k) && (NoNameReply(pkt) || EmptyReply(pkt)) && Rest(c, s.active[i]) == []
    ensures CalledBack(s, Reply(c, s, i, k, pkt, status, now, sent, id), i,
                       if EmptyReply(pkt) || SomeEmpty(s.active[i].hist.answers) then -4 else -3)
  {
    var q := Heard(s.active[i], k);
    VerdictBytes(pkt);
    FittingFromNext(c, q.orig, q.asIsDone, q.next);
    assert QueryOk(c, s.active[i]);
    var n := NextFit(c, q.orig, q.asIsDone, q.next);
    var r := q.(next := n, hist := q.hist.(answers := q.hist.answers + [pkt]));
    EndCalls(s, i, r, Exhausted(OutcomeOf(VerdictOf(pkt))));
  }

  // No callback has been run, or that of the query with TEMPFAIL (-1), because no server is left or no sending
  // came through.
  ghost predicate OnlyFails(s: State, t: State, i: nat)
    requires i < |s.active|
  {
    t.log == s.log
    || (|t.log| == |s.log| + 1 && t.log[..|s.log|] == s.log && t.log[|s.log|].q.serial == s.active[i].serial
        && t.log[|s.log|].reason.Failed? && t.log[|s.log|].Status() == -1)
  }

  // A query that has only been sent: nothing else about it has changed.
  ghost predicate JustMoved(u: Query, r: Query) {
    && r.serial == u.serial && r.name == u.name && r.flags == u.flags && r.skip == u.skip && r.noEdns == u.noEdns
    && r.hist == u.hist.(sentTo := r.hist.sentTo, total := r.hist.total, stamp := r.hist.stamp)
    && |r.hist.sentTo| == |u.hist.sentTo| + 1 && r.hist.sentTo[..|u.hist.sentTo|] == u.hist.sentTo
  }

  // Sending the query, which has become u: it stays active, sent once, or it fails.
  lemma SendEffect(c: Config, s: State, i: nat, u: Query, now: nat, sent: Sending, r: Query)
    requires Ledger(s) && i < |s.active| && u.serial == s.active[i].serial
    ensures var t := Send(c, s, i, u, now, sent);
            OnlyFails(s, t, i) && (r in t.active && r.serial == u.serial ==> JustMoved(u, r))
  {
    match Choose(c, u) {
      case Server(v, k) =>
        SendThisEffect(c, s, i, v, k, now, sent, r);
      case NoServer(v) =>
        if r in Without(s.active, i) && r.serial == u.serial {
          OnlyThis(s, i, r);
        }
    }
  }

  lemma SendThisEffect(c: Config, s: State, i: nat, u: Query, k: nat, now: nat, sent: Sending, r: Query)
    requires Ledger(s) && i < |s.active| && u.serial == s.active[i].serial
    ensures var t := SendThis(c, s, i, u, k, now, sent);
            && OnlyFails(s, t, i)
            && (r in t.active && r.serial == u.serial ==> JustMoved(u, r) && r.hist.sentTo == u.hist.sentTo + [k])
  {
    var t := SendThis(c, s, i, u, k, now, sent);
    if r in t.active && r.serial == u.serial {
      if sent.Gone? {
        InPlace(Without(s.active, i), Sent(c, u, k, now, sent.beyond, s.ticks), r);
      }
      if r in Without(s.active, i) {
        OnlyThis(s, i, r);
      }
    }
  }

  lemma InPlace(qs: seq<Query>, q: Query, r: Query)
    ensures r in Place(qs, q) <==> r == q || r in qs
  {
    var n := PlaceIs(qs, q);
    CutTwo(qs, n);
  }

  // No other query has this serial number.
  lemma OnlyThis(s: State, i: nat, r: Query)
    requires Ledger(s) && i < |s.active| && r in Without(s.active, i)
    ensures r.serial != s.active[i].serial
  {
    var rest := Without(s.active, i);
    var j :| 0 <= j < |rest| && rest[j] == r;
    if r.serial == s.active[i].serial {
      SerialOnce(s, i, if j < i then j else j + 1);
    }
  }

  // The same replies, when a candidate is left: the first one left is the next name, which may be asked of all
  // servers again, and no other verdict than a failure to send is given.
  lemma NegativeReply(c: Config, s: State, i: nat, k: nat, pkt: seq<byte>, status: int, now: nat, sent: Sending, id: Id,
                      r: Query)
    requires Waiting(c, s, i, k) && (NoNameReply(pkt) || EmptyReply(pkt)) && Rest(c, s.active[i]) != []
    ensures var t := Reply(c, s, i, k, pkt, status, now, sent, id);
            && OnlyFails(s, t, i)
            && (r in t.active && r.serial == s.active[i].serial ==>
                  && r.name == Rest(c, s.active[i])[0] && r.hist.tried == s.active[i].hist.tried + [r.name]
                  && r.hist.answers == s.active[i].hist.answers + [pkt] && r.skip == {} && r.noEdns == {})
  {
    var q := Heard(s.active[i], k);
    VerdictBytes(pkt);
    FittingFromNext(c, q.orig, q.asIsDone, q.next);
    var n := NextFit(c, q.orig, q.asIsDone, q.next);
    var u := TakeUp(c, q.(hist := q.hist.(answers := q.hist.answers + [pkt])), n, id);
    SendEffect(c, s, i, if EmptyReply(pkt) then u.(seenNoData := true) else u, now, sent, r);
  }

  // A reply that says nothing about the name: another code than 0, 1, 3 and 4, or a truncated one; or a
  // complaint about the format (1 or 4) when EDNS0 cannot be given up, because it is not used or has been.
  ghost predicate Useless(c: Config, q: Query, k: nat, pkt: seq<byte>) {
    && |pkt| >= 12
    && var code := pkt[3] % 16;
       || code !in {0, 1, 3, 4}
       || (code == 0 && pkt[2] / 2 % 2 == 1)
       || (code in {1, 4} && (c.udpbuf <= 512 || k in q.noEdns))
  }

  // The query is not completed by this server's word. As long as it is active, with the same name, the server
  // is skipped; while another reply is awaited nothing is sent.
  lemma UselessReply(c: Config, s: State, i: nat, k: nat, pkt: seq<byte>, status: int, now: nat, sent: Sending, id: Id,
                     r: Query)
    requires Waiting(c, s, i, k) && Useless(c, s.active[i], k, pkt)
    ensures var q, t := s.active[i], Reply(c, s, i, k, pkt, status, now, sent, id);
            && OnlyFails(s, t, i)
            && (r in t.active && r.serial == q.serial ==>
                  k in r.skip && r.name == q.name && r.hist.tried == q.hist.tried && r.hist.answers == q.hist.answers)
            && (q.wait != {k} ==> t == s.(active := s.active[i := Heard(q, k).(skip := q.skip + {k})]))
  {
    var q := s.active[i];
    var u := Heard(q, k).(skip := q.skip + {k});
    UselessIs(c, s, i, k, pkt, status, now, sent, id);
    if q.wait == {k} {
      SendEffect(c, s, i, u, now, sent, r);
    } else {
      KeptIs(s, i, u, r);
    }
  }

  lemma UselessIs(c: Config, s: State, i: nat, k: nat, pkt: seq<byte>, status: int, now: nat, sent: Sending, id: Id)
    requires i < |s.active| && k in s.active[i].wait && Useless(c, s.active[i], k, pkt)
    ensures var q := s.active[i]; var u := Heard(q, k).(skip := q.skip + {k});
            && (q.wait == {k} ==> Reply(c, s, i, k, pkt, status, now, sent, id) == Send(c, s, i, u, now, sent))
            && (q.wait != {k} ==> Reply(c, s, i, k, pkt, status, now, sent, id) == s.(active := s.active[i := u]))
  {
    var q := s.active[i];
    assert q.wait == {k} <==> q.wait - {k} == {};
  }

  lemma KeptIs(s: State, i: nat, u: Query, r: Query)
    requires Ledger(s) && i < |s.active| && u.serial == s.active[i].serial
    ensures r in s.active[i := u] && r.serial == u.serial ==> r == u
  {
    if r in s.active[i := u] && r != u {
      var j :| 0 <= j < |s.active| && s.active[i := u][j] == r;
      if r.serial == u.serial {
        SerialOnce(s, i, j);
      }
    }
  }

  // A complaint about the format (1 or 4) from a server that has not been asked without EDNS0: it is asked
  // again at once, and the query that goes to it has no OPT record unless DNSSEC is wanted.
  lemma FormatReply(c: Config, s: State, i: nat, k: nat, pkt: seq<byte>, status: int, now: nat, sent: Sending, id: Id,
                    r: Query)
    requires Waiting(c, s, i, k) && |pkt| >= 12 && pkt[3] % 16 in {1, 4}
    requires c.udpbuf > 512 && k !in s.active[i].noEdns
    ensures var q, t := s.active[i], Reply(c, s, i, k, pkt, status, now, sent, id);
            && OnlyFails(s, t, i) && (sent.Gone? ==> t.log == s.log)
            && (r in t.active && r.serial == q.serial ==>
                  && r.hist.sentTo == q.hist.sentTo + [k] && r.name == q.name && r.skip == q.skip
                  && Labelled(r.name) && NoOpt(r, c.udpbuf, k))
  {
    var q := s.active[i];
    assert QueryOk(c, q);
    var u := Heard(q, k).(noEdns := q.noEdns + {k});
    FormatIs(c, s, i, k, pkt, status, now, sent, id);
    SendThisEffect(c, s, i, u, k, now, sent, r);
    if r.name == u.name && k in r.noEdns {
      WithoutOpt(r, c.udpbuf, k);
    }
  }

  lemma FormatIs(c: Config, s: State, i: nat, k: nat, pkt: seq<byte>, status: int, now: nat, sent: Sending, id: Id)
    requires i < |s.active| && k in s.active[i].wait && |pkt| >= 12 && pkt[3] % 16 in {1, 4}
    requires c.udpbuf > 512 && k !in s.active[i].noEdns
    ensures var u := Heard(s.active[i], k).(noEdns := s.active[i].noEdns + {k});
            Reply(c, s, i, k, pkt, status, now, sent, id) == SendThis(c, s, i, u, k, now, sent)
  {
  }

  lemma WithoutOpt(q: Query, udpbuf: nat, k: nat)
    requires Labelled(q.name) && k in q.noEdns
    ensures NoOpt(q, udpbuf, k)
  {
  }

  // The packet for this server ends behind the question and announces no further records, unless DO is set.
  ghost predicate NoOpt(q: Query, udpbuf: nat, k: nat)
    requires Labelled(q.name)
  {
    !q.flags.setDo ==>
      var packet := QueryPacket(q, udpbuf, k);
      packet[10] == 0 && packet[11] == 0 && |packet| == 12 + |Copied(Wire(q.name))| + |q.typcls|
  }

  // ---------- what the callback gets ----------

  // The replies that complete a query, and the statuses they complete it with.
  ghost predicate RightCalls(c: Config, s: State, i: nat, k: nat, pkt: seq<byte>, status: int, calls0: seq<Call>,
                             calls: seq<Call>)
    requires i < |s.active|
  {
    var q := s.active[i];
    k in q.wait && |pkt| >= 12 ==>
      && (pkt[3] % 16 == 0 && pkt[2] / 2 % 2 == 0 && (pkt[6] != 0 || pkt[7] != 0) ==>
            calls == calls0 + [Call(q.serial, status)])
      && ((NoNameReply(pkt) || EmptyReply(pkt)) && Rest(c, q) == [] ==>
            calls == calls0 + [Call(q.serial, if EmptyReply(pkt) || SomeEmpty(q.hist.answers) then -4 else -3)])
  }

  lemma ReplyCalls(c: Config, s: State, i: nat, k: nat, pkt: seq<byte>, status: int, now: nat, sent: Sending, id: Id)
    requires Inv(c, s) && c.Valid() && i < |s.active| && |pkt| >= 12
    ensures var t := Reply(c, s, i, k, pkt, status, now, sent, id);
            RightCalls(c, s, i, k, pkt, status, CallsOf(s.log), CallsOf(t.log))
  {
    if k in s.active[i].wait {
      if pkt[3] % 16 == 0 && pkt[2] / 2 % 2 == 0 && (pkt[6] != 0 || pkt[7] != 0) {
        PositiveReply(c, s, i, k, pkt, status, now, sent, id);
      }
      if (NoNameReply(pkt) || EmptyReply(pkt)) && Rest(c, s.active[i]) == [] {
        LastNegativeReply(c, s, i, k, pkt, status, now, sent, id);
      }
    }
  }
}
