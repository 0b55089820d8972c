// The order in which a search tries its names, in terms of the settings and of what the caller has asked for.
module ResolverOrder {
  import opened DomainNames
  import opened ResolverModel
  import opened ResolverRuns
  import opened ResolverTheorems

  // The element of the search list at place k; behind the list stands the root.
  function SuffixAt(search: seq<Labels>, k: nat): Labels {
    if k < |search| then search[k] else []
  }

  ghost predicate RootFree(search: seq<Labels>, n: nat) {
    forall k :: 0 <= k < n ==> SuffixAt(search, k) != []
  }

  // A search has a name for place k: a suffix is wanted if the name with it keeps within 255 bytes. The root
  // stands for the name as it is, which is wanted once, unless it is tried before the suffixes.
  ghost predicate Wanted(orig: Labels, search: seq<Labels>, asIsDone: bool, k: nat) {
    && k <= |search|
    && if SuffixAt(search, k) == [] then !asIsDone && RootFree(search, k)
       else Labelled(orig + search[k]) && |Wire(orig + search[k])| <= 255
  }

  // All places that are wanted from place `from` on, in the order of the list.
  ghost predicate Places(orig: Labels, search: seq<Labels>, asIsDone: bool, from: nat, ks: seq<nat>) {
    && (forall i, j :: 0 <= i < j < |ks| ==> ks[i] < ks[j])
    && (forall k {:trigger Wanted(orig, search, asIsDone, k)} ::
          from <= k && Wanted(orig, search, asIsDone, k) ==> k in ks)
    && (forall i :: 0 <= i < |ks| ==> from <= ks[i] && Wanted(orig, search, asIsDone, ks[i]))
  }

  // These names are those of the first places.
  ghost predicate Along(orig: Labels, search: seq<Labels>, names: seq<Labels>, ks: seq<nat>) {
    |names| <= |ks| && forall i :: 0 <= i < |names| ==> names[i] == orig + SuffixAt(search, ks[i])
  }

  lemma FitsIs(c: Config, orig: Labels, asIsDone: bool, k: nat)
    requires Labelled(orig) && |Wire(orig)| <= 255 && k <= |c.search|
    ensures Fits(c, orig, asIsDone || !RootFree(c.search, k), k) <==> Wanted(orig, c.search, asIsDone, k)
  {
    if SuffixAt(c.search, k) == [] {
      assert Wire([]) == [0];
    } else {
      if Labelled(c.search[k]) {
        LabelBytesConcat(orig, c.search[k]);
      } else {
        var i :| 0 <= i < |c.search[k]| && !(1 <= |c.search[k][i]| < 256);
        assert (orig + c.search[k])[|orig| + i] == c.search[k][i];
      }
    }
  }

  lemma PlaceMore(orig: Labels, search: seq<Labels>, asIsDone: bool, from: nat, names: seq<Labels>, ks: seq<nat>)
    requires Places(orig, search, asIsDone, from + 1, ks) && Wanted(orig, search, asIsDone, from)
    requires Along(orig, search, names, ks)
    ensures Places(orig, search, asIsDone, from, [from] + ks)
    ensures Along(orig, search, [orig + SuffixAt(search, from)] + names, [from] + ks)
  {
    var all := [from] + ks;
    forall k {:trigger Wanted(orig, search, asIsDone, k)} | from <= k && Wanted(orig, search, asIsDone, k)
      ensures k in all
    {
      assert k == from || k in ks;
    }
  }

  // The candidates of a search are the names of the places wanted, one after the other.
  lemma {:induction false} FittingOrder(c: Config, orig: Labels, asIsDone: bool, from: nat) returns (ks: seq<nat>)
    requires Labelled(orig) && |Wire(orig)| <= 255
    ensures var names := Fitting(c, orig, asIsDone || !RootFree(c.search, from), from);
            Places(orig, c.search, asIsDone, from, ks) && |names| == |ks| && Along(orig, c.search, names, ks)
    decreases |c.search| + 1 - from
  {
    if from > |c.search| {
      ks := [];
    } else {
      FitsIs(c, orig, asIsDone, from);
      ks := FittingOrder(c, orig, asIsDone, from + 1);
      RootFreeMore(c.search, from);
      if Wanted(orig, c.search, asIsDone, from) {
        PlaceMore(orig, c.search, asIsDone, from,
                  Fitting(c, orig, asIsDone || !RootFree(c.search, from + 1), from + 1), ks);
        ks := [from] + ks;
      }
    }
  }

  lemma RootFreeMore(search: seq<Labels>, k: nat)
    ensures RootFree(search, k + 1) <==> RootFree(search, k) && SuffixAt(search, k) != []
  {
  }

  // The order of the documentation: without a search only the name as it is; with more labels than ndots the
  // name as it is and then the suffixes; else the suffixes, and the name as it is where the root stands. A name
  // of 256 bytes, which the caller may give, is only tried as it is.
  ghost predicate OrderIs(ndots: nat, q: Query, ks: seq<nat>) {
    var orig, search, tried := q.orig, q.hist.search, q.hist.tried;
    if q.hist.noSearch || Overlong(orig) then tried == [orig]
    else if |orig| > ndots then
      tried != [] && tried[0] == orig && Places(orig, search, true, 0, ks) && Along(orig, search, tried[1..], ks)
    else Places(orig, search, false, 0, ks) && Along(orig, search, tried, ks)
  }

  // All names have been tried.
  ghost predicate AllTried(ndots: nat, q: Query, ks: seq<nat>) {
    q.hist.noSearch || Overlong(q.orig)
    || |q.hist.tried| == |ks| + if |q.orig| > ndots then 1 else 0
  }

  // When no element of the search list is the root, the name as it is comes last, behind every suffix that
  // fits.
  lemma AsIsLast(orig: Labels, search: seq<Labels>, ks: seq<nat>)
    requires Places(orig, search, false, 0, ks) && RootFree(search, |search|)
    ensures ks != [] && orig + SuffixAt(search, ks[|ks| - 1]) == orig
    ensures forall i :: 0 <= i < |ks| - 1 ==> ks[i] < |search|
    ensures forall k :: 0 <= k < |search| && k !in ks ==> !Labelled(orig + search[k]) || |Wire(orig + search[k])| > 255
  {
    assert Wanted(orig, search, false, |search|);
    var i :| 0 <= i < |ks| && ks[i] == |search|;
    assert orig + [] == orig;
    forall k | 0 <= k < |search| && k !in ks
      ensures !Labelled(orig + search[k]) || |Wire(orig + search[k])| > 255
    {
      assert SuffixAt(search, k) != [] && !Wanted(orig, search, false, k);
    }
  }

  lemma PlanOrder(c: Config, q: Query) returns (ks: seq<nat>)
    requires Labelled(q.orig) && q.hist.search == c.search && q.hist.tried != []
    requires q.hist.tried <= Plan(c, q.orig, q.hist.noSearch)
    ensures OrderIs(c.ndots, q, ks)
    ensures q.hist.tried == Plan(c, q.orig, q.hist.noSearch) ==> AllTried(c.ndots, q, ks)
  {
    var tried := q.hist.tried;
    if |Wire(q.orig)| > 255 {
      ks := [];
      NothingFits(c, q.orig, true, if q.hist.noSearch then |c.search| else 0);
    } else if q.hist.noSearch {
      ks := [];
      assert Fitting(c, q.orig, true, |c.search|) == [];
    } else {
      assert RootFree(c.search, 0);
      ks := FittingOrder(c, q.orig, |q.orig| > c.ndots, 0);
    }
  }

  // So it is for every query that is active in any state of any run; the name that it asks for is the last
  // one tried.
  lemma TriedOrder(c: Config, es: seq<Event>, i: nat) returns (ks: seq<nat>)
    requires c.Valid() && i < |Run(c, START, es).active|
    ensures var q := Run(c, START, es).active[i];
            OrderIs(c.ndots, q, ks) && q.hist.tried != [] && q.name == q.hist.tried[|q.hist.tried| - 1]
  {
    var q := Run(c, START, es).active[i];
    RunOk(c, es);
    assert QueryOk(c, q);
    ks := PlanOrder(c, q);
  }

  // And for every query that has been completed; if its search ran out, all names were tried.
  lemma CompletedOrder(c: Config, es: seq<Event>, i: nat) returns (ks: seq<nat>)
    requires c.Valid() && i < |Run(c, START, es).log|
    ensures var d := Run(c, START, es).log[i];
            OrderIs(c.ndots, d.q, ks) && (d.reason.Exhausted? ==> AllTried(c.ndots, d.q, ks))
  {
    var d := Run(c, START, es).log[i];
    RunOk(c, es);
    assert DoneOk(c, d);
    PlanIs(SettingsOf(c, d.q), d.q.orig, d.q.hist.noSearch, d.q.orig);
    ks := PlanOrder(SettingsOf(c, d.q), d.q);
  }

  // What is on record about a new query is what its caller has asked for.
  lemma SubmittedAs(c: Config, s: State, e: Event)
    requires e.Submit? && Enabled(c, s, e)
    ensures var q := Step(c, s, e).active[0];
            && q.serial == s.submitted && q.orig == e.dn && q.typcls == e.typcls && q.flags == e.flags
            && q.hist.noSearch == e.noSearch && q.hist.search == c.search && q.hist.sentTo == [] && q.deadline == 0
  {
  }
}
