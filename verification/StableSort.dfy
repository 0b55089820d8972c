// Bottom-up merging of runs, as the sort macros of utlist.h and uthash.h perform it, and the proof
// that repeating it until one run is left gives the stable sort of the sequence.
//
// The elements T stay anonymous (list nodes, hash handles); `key` reads what the comparison sees.
module StableSort {
  import opened Seqs

  type Cmp<!D> = (D, D) -> int

  // What the macros ask of the comparison: "at most zero" is a total preorder.
  ghost predicate TotalPreorder<D(!new)>(cmp: Cmp<D>) {
    && (forall a, b :: cmp(a, b) <= 0 || cmp(b, a) <= 0)
    && (forall a, b, c :: cmp(a, b) <= 0 && cmp(b, c) <= 0 ==> cmp(a, c) <= 0)
  }

  ghost predicate Le<T, D>(cmp: Cmp<D>, key: T -> D, x: T, y: T) {
    cmp(key(x), key(y)) <= 0
  }

  // x and y compare equal in both directions.
  ghost predicate Tie<T, D>(cmp: Cmp<D>, key: T -> D, x: T, y: T) {
    Le(cmp, key, x, y) && Le(cmp, key, y, x)
  }

  ghost predicate Sorted<T, D>(cmp: Cmp<D>, key: T -> D, s: seq<T>) {
    forall i, j :: 0 <= i < j < |s| ==> Le(cmp, key, s[i], s[j])
  }

  // The elements of s that tie with x, in the order in which s lists them.
  ghost function TiesWith<T, D>(cmp: Cmp<D>, key: T -> D, x: T, s: seq<T>): seq<T> {
    if s == [] then []
    else if Tie(cmp, key, x, s[0]) then [s[0]] + TiesWith(cmp, key, x, s[1..])
    else TiesWith(cmp, key, x, s[1..])
  }

  // t lists exactly the elements of s, in ascending order, ties in the order of s.
  ghost predicate StableSortOf<T, D>(cmp: Cmp<D>, key: T -> D, s: seq<T>, t: seq<T>) {
    && multiset(t) == multiset(s)
    && Sorted(cmp, key, t)
    && (forall x :: x in s ==> TiesWith(cmp, key, x, t) == TiesWith(cmp, key, x, s))
  }

  // Merging the runs s[pi..pe] and s[qi..qe] takes from the first on a tie.
  ghost function Merge<T, D>(cmp: Cmp<D>, key: T -> D, s: seq<T>, pi: nat, pe: nat, qi: nat, qe: nat): seq<T>
    requires pi <= pe <= |s| && qi <= qe <= |s|
    decreases pe - pi + qe - qi
  {
    if pi == pe && qi == qe then []
    else if pi < pe && (qi < qe ==> Le(cmp, key, s[pi], s[qi]))
    then [s[pi]] + Merge(cmp, key, s, pi + 1, pe, qi, qe)
    else [s[qi]] + Merge(cmp, key, s, pi, pe, qi + 1, qe)
  }

  // One pass over the list from position start on: neighbouring runs of length k are merged two by two.
  ghost function MergePass<T, D>(cmp: Cmp<D>, key: T -> D, s: seq<T>, start: nat, k: nat): seq<T>
    requires k > 0 && start <= |s|
    decreases |s| - start
  {
    if start == |s| then []
    else
      var pe := Min(start + k, |s|);
      var qe := Min(pe + k, |s|);
      Merge(cmp, key, s, start, pe, pe, qe) + MergePass(cmp, key, s, qe, k)
  }

  // Cut from the left into pieces of length k (the last may be shorter), every piece is sorted.
  ghost predicate RunsSorted<T, D>(cmp: Cmp<D>, key: T -> D, s: seq<T>, k: nat)
    requires k > 0
    decreases |s|
  {
    s == [] || (Sorted(cmp, key, s[..Min(k, |s|)]) && RunsSorted(cmp, key, s[Min(k, |s|)..], k))
  }

  // ---------- merging two runs ----------

  lemma {:induction false} MergeElements<T, D>(cmp: Cmp<D>, key: T -> D, s: seq<T>, pi: nat, pe: nat, qi: nat, qe: nat)
    requires pi <= pe <= |s| && qi <= qe <= |s|
    ensures multiset(Merge(cmp, key, s, pi, pe, qi, qe)) == multiset(s[pi..pe]) + multiset(s[qi..qe])
    decreases pe - pi + qe - qi
  {
    if pi == pe && qi == qe {
    } else if pi < pe && (qi < qe ==> Le(cmp, key, s[pi], s[qi])) {
      CutFirst(s, pi, pe);
      MergeElements(cmp, key, s, pi + 1, pe, qi, qe);
      MultisetCons(s[pi], Merge(cmp, key, s, pi + 1, pe, qi, qe));
    } else {
      CutFirst(s, qi, qe);
      MergeElements(cmp, key, s, pi, pe, qi + 1, qe);
      MultisetCons(s[qi], Merge(cmp, key, s, pi, pe, qi + 1, qe));
    }
  }

  lemma {:induction false} MergeLength<T, D>(cmp: Cmp<D>, key: T -> D, s: seq<T>, pi: nat, pe: nat, qi: nat, qe: nat)
    requires pi <= pe <= |s| && qi <= qe <= |s|
    ensures |Merge(cmp, key, s, pi, pe, qi, qe)| == pe - pi + qe - qi
    decreases pe - pi + qe - qi
  {
    if pi == pe && qi == qe {
    } else if pi < pe && (qi < qe ==> Le(cmp, key, s[pi], s[qi])) {
      MergeLength(cmp, key, s, pi + 1, pe, qi, qe);
    } else {
      MergeLength(cmp, key, s, pi, pe, qi + 1, qe);
    }
  }

  lemma SortedCons<T, D(!new)>(cmp: Cmp<D>, key: T -> D, x: T, s: seq<T>)
    requires Sorted(cmp, key, s)
    requires forall y :: y in multiset(s) ==> Le(cmp, key, x, y)
    ensures Sorted(cmp, key, [x] + s)
  {
    var t := [x] + s;
    forall i, j | 0 <= i < j < |t| ensures Le(cmp, key, t[i], t[j]) {
      assert t[j] == s[j - 1];
      if i == 0 { assert s[j - 1] in multiset(s); } else { assert t[i] == s[i - 1]; }
    }
  }

  lemma HeadIsLeast<T, D(!new)>(cmp: Cmp<D>, key: T -> D, s: seq<T>)
    requires TotalPreorder(cmp) && Sorted(cmp, key, s) && s != []
    ensures forall y :: y in multiset(s) ==> Le(cmp, key, s[0], y)
  {
    forall y | y in multiset(s) ensures Le(cmp, key, s[0], y) {
      var i :| 0 <= i < |s| && s[i] == y;
    }
  }

  // x is least in two runs whose heads it precedes.
  lemma LeastOfBoth<T, D(!new)>(cmp: Cmp<D>, key: T -> D, x: T, a: seq<T>, b: seq<T>)
    requires TotalPreorder(cmp) && Sorted(cmp, key, a) && Sorted(cmp, key, b)
    requires a != [] ==> Le(cmp, key, x, a[0])
    requires b != [] ==> Le(cmp, key, x, b[0])
    ensures forall y :: y in multiset(a) + multiset(b) ==> Le(cmp, key, x, y)
  {
    if a != [] { HeadIsLeast(cmp, key, a); }
    if b != [] { HeadIsLeast(cmp, key, b); }
  }

  lemma {:induction false} MergeSorted<T, D(!new)>(cmp: Cmp<D>, key: T -> D, s: seq<T>, pi: nat, pe: nat,
                                            qi: nat, qe: nat)
    requires pi <= pe <= |s| && qi <= qe <= |s|
    requires TotalPreorder(cmp) && Sorted(cmp, key, s[pi..pe]) && Sorted(cmp, key, s[qi..qe])
    ensures Sorted(cmp, key, Merge(cmp, key, s, pi, pe, qi, qe))
    decreases pe - pi + qe - qi
  {
    if pi == pe && qi == qe {
    } else if pi < pe && (qi < qe ==> Le(cmp, key, s[pi], s[qi])) {
      CutFirst(s, pi, pe);
      MergeSorted(cmp, key, s, pi + 1, pe, qi, qe);
      MergeElements(cmp, key, s, pi + 1, pe, qi, qe);
      LeastOfBoth(cmp, key, s[pi], s[pi + 1..pe], s[qi..qe]);
      SortedCons(cmp, key, s[pi], Merge(cmp, key, s, pi + 1, pe, qi, qe));
    } else {
      CutFirst(s, qi, qe);
      MergeSorted(cmp, key, s, pi, pe, qi + 1, qe);
      MergeElements(cmp, key, s, pi, pe, qi + 1, qe);
      LeastOfBoth(cmp, key, s[qi], s[pi..pe], s[qi + 1..qe]);
      SortedCons(cmp, key, s[qi], Merge(cmp, key, s, pi, pe, qi + 1, qe));
    }
  }

  lemma {:induction false} TiesConcat<T, D>(cmp: Cmp<D>, key: T -> D, x: T, a: seq<T>, b: seq<T>)
    ensures TiesWith(cmp, key, x, a + b) == TiesWith(cmp, key, x, a) + TiesWith(cmp, key, x, b)
  {
    if a == [] {
      assert a + b == b;
    } else {
      TiesConcat(cmp, key, x, a[1..], b);
      assert (a + b)[1..] == a[1..] + b;
    }
  }

  lemma {:induction false} NoTies<T, D>(cmp: Cmp<D>, key: T -> D, x: T, s: seq<T>)
    requires forall i :: 0 <= i < |s| ==> !Tie(cmp, key, x, s[i])
    ensures TiesWith(cmp, key, x, s) == []
  {
    if s != [] {
      NoTies(cmp, key, x, s[1..]);
    }
  }

  lemma TiesCons<T, D>(cmp: Cmp<D>, key: T -> D, x: T, y: T, s: seq<T>)
    ensures TiesWith(cmp, key, x, [y] + s)
         == (if Tie(cmp, key, x, y) then [y] else []) + TiesWith(cmp, key, x, s)
  {
    assert ([y] + s)[1..] == s;
  }

  // Merging sorted runs keeps, for every x, the order of the elements that tie with x.
  lemma {:induction false} MergeStable<T, D(!new)>(cmp: Cmp<D>, key: T -> D, x: T, s: seq<T>, pi: nat,
                                            pe: nat, qi: nat, qe: nat)
    requires pi <= pe <= |s| && qi <= qe <= |s|
    requires TotalPreorder(cmp) && Sorted(cmp, key, s[pi..pe])
    ensures TiesWith(cmp, key, x, Merge(cmp, key, s, pi, pe, qi, qe))
         == TiesWith(cmp, key, x, s[pi..pe]) + TiesWith(cmp, key, x, s[qi..qe])
    decreases pe - pi + qe - qi
  {
    if pi == pe && qi == qe {
    } else if pi < pe && (qi < qe ==> Le(cmp, key, s[pi], s[qi])) {
      var t := TiesOfFirst(cmp, key, x, s, pi, pe);
      MergeStable(cmp, key, x, s, pi + 1, pe, qi, qe);
      TiesCons(cmp, key, x, s[pi], Merge(cmp, key, s, pi + 1, pe, qi, qe));
      Assoc(t, TiesWith(cmp, key, x, s[pi + 1..pe]), TiesWith(cmp, key, x, s[qi..qe]));
    } else {
      TakeSecond(cmp, key, x, s, pi, pe, qi, qe);
      var t := TiesOfFirst(cmp, key, x, s, qi, qe);
      MergeStable(cmp, key, x, s, pi, pe, qi + 1, qe);
      TiesCons(cmp, key, x, s[qi], Merge(cmp, key, s, pi, pe, qi + 1, qe));
      Assoc(t, TiesWith(cmp, key, x, s[pi..pe]), TiesWith(cmp, key, x, s[qi + 1..qe]));
    }
  }

  lemma TiesOfFirst<T, D>(cmp: Cmp<D>, key: T -> D, x: T, s: seq<T>, i: nat, j: nat) returns (t: seq<T>)
    requires i < j <= |s|
    ensures t == if Tie(cmp, key, x, s[i]) then [s[i]] else []
    ensures TiesWith(cmp, key, x, s[i..j]) == t + TiesWith(cmp, key, x, s[i + 1..j])
  {
    CutFirst(s, i, j);
    TiesCons(cmp, key, x, s[i], s[i + 1..j]);
    t := if Tie(cmp, key, x, s[i]) then [s[i]] else [];
  }

  // When the head of the second run is taken and ties with x, nothing in the first run does.
  lemma TakeSecond<T, D(!new)>(cmp: Cmp<D>, key: T -> D, x: T, s: seq<T>, pi: nat, pe: nat, qi: nat, qe: nat)
    requires pi <= pe <= |s| && qi < qe <= |s|
    requires TotalPreorder(cmp) && Sorted(cmp, key, s[pi..pe])
    requires pi < pe ==> !Le(cmp, key, s[pi], s[qi])
    ensures Tie(cmp, key, x, s[qi]) ==> TiesWith(cmp, key, x, s[pi..pe]) == []
  {
    var a := s[pi..pe];
    if Tie(cmp, key, x, s[qi]) {
      forall i | 0 <= i < |a| ensures !Tie(cmp, key, x, a[i]) {
        assert Le(cmp, key, a[0], a[i]);
      }
      NoTies(cmp, key, x, a);
    }
  }

  // ---------- one pass ----------

  // The first step of a pass: m is what its first two runs merge to.
  lemma PassStep<T, D>(cmp: Cmp<D>, key: T -> D, s: seq<T>, start: nat, k: nat, pe: nat, qe: nat)
    returns (m: seq<T>, rest: seq<T>)
    requires k > 0 && start < |s| && pe == Min(start + k, |s|) && qe == Min(pe + k, |s|)
    ensures m == Merge(cmp, key, s, start, pe, pe, qe) && rest == MergePass(cmp, key, s, qe, k)
    ensures MergePass(cmp, key, s, start, k) == m + rest
  {
    m, rest := Merge(cmp, key, s, start, pe, pe, qe), MergePass(cmp, key, s, qe, k);
  }

  lemma {:induction false} PassElements<T, D>(cmp: Cmp<D>, key: T -> D, s: seq<T>, start: nat, k: nat)
    requires k > 0 && start <= |s|
    ensures multiset(MergePass(cmp, key, s, start, k)) == multiset(s[start..])
    ensures |MergePass(cmp, key, s, start, k)| == |s| - start
    decreases |s| - start
  {
    if start < |s| {
      var pe := Min(start + k, |s|);
      var qe := Min(pe + k, |s|);
      var m, rest := PassStep(cmp, key, s, start, k, pe, qe);
      MergeElements(cmp, key, s, start, pe, pe, qe);
      MergeLength(cmp, key, s, start, pe, pe, qe);
      PassElements(cmp, key, s, qe, k);
      Cut3(s, start, pe, qe);
    }
  }

  // The first two runs of the list from start on, and the rest.
  lemma CutRuns<T, D>(cmp: Cmp<D>, key: T -> D, s: seq<T>, start: nat, k: nat, pe: nat, qe: nat)
    requires k > 0 && start < |s| && RunsSorted(cmp, key, s[start..], k)
    requires pe == Min(start + k, |s|) && qe == Min(pe + k, |s|)
    ensures Sorted(cmp, key, s[start..pe]) && Sorted(cmp, key, s[pe..qe]) && RunsSorted(cmp, key, s[qe..], k)
    ensures s[start..] == s[start..pe] + s[pe..qe] + s[qe..]
  {
    CutRun(cmp, key, s, start, k, pe);
    if pe < |s| {
      CutRun(cmp, key, s, pe, k, qe);
    }
    Cut3(s, start, pe, qe);
  }

  lemma CutRun<T, D>(cmp: Cmp<D>, key: T -> D, s: seq<T>, start: nat, k: nat, pe: nat)
    requires k > 0 && start < |s| && RunsSorted(cmp, key, s[start..], k) && pe == Min(start + k, |s|)
    ensures Sorted(cmp, key, s[start..pe]) && RunsSorted(cmp, key, s[pe..], k)
  {
    CutAt(s, start, k, pe - start);
  }

  lemma RunsCons<T, D>(cmp: Cmp<D>, key: T -> D, m: seq<T>, t: seq<T>, k: nat)
    requires k > 0 && m != [] && Sorted(cmp, key, m) && RunsSorted(cmp, key, t, k)
    requires |m| == k || (|m| < k && t == [])
    ensures RunsSorted(cmp, key, m + t, k)
  {
    var s := m + t;
    assert s[..Min(k, |s|)] == m && s[Min(k, |s|)..] == t;
  }

  lemma {:induction false} PassRuns<T, D(!new)>(cmp: Cmp<D>, key: T -> D, s: seq<T>, start: nat, k: nat)
    requires k > 0 && start <= |s| && TotalPreorder(cmp) && RunsSorted(cmp, key, s[start..], k)
    ensures RunsSorted(cmp, key, MergePass(cmp, key, s, start, k), 2 * k)
    decreases |s| - start
  {
    if start < |s| {
      var pe := Min(start + k, |s|);
      var qe := Min(pe + k, |s|);
      CutRuns(cmp, key, s, start, k, pe, qe);
      var m := FirstMergedRun(cmp, key, s, start, k, pe, qe);
      PassRuns(cmp, key, s, qe, k);
      RunsCons(cmp, key, m, MergePass(cmp, key, s, qe, k), 2 * k);
    }
  }

  lemma FirstMergedRun<T, D(!new)>(cmp: Cmp<D>, key: T -> D, s: seq<T>, start: nat, k: nat, pe: nat, qe: nat)
    returns (m: seq<T>)
    requires k > 0 && start < |s| && TotalPreorder(cmp)
    requires pe == Min(start + k, |s|) && qe == Min(pe + k, |s|)
    requires Sorted(cmp, key, s[start..pe]) && Sorted(cmp, key, s[pe..qe])
    ensures Sorted(cmp, key, m) && m != []
    ensures |m| == 2 * k || (|m| < 2 * k && MergePass(cmp, key, s, qe, k) == [])
    ensures MergePass(cmp, key, s, start, k) == m + MergePass(cmp, key, s, qe, k)
  {
    m := Merge(cmp, key, s, start, pe, pe, qe);
    MergeSorted(cmp, key, s, start, pe, pe, qe);
    MergeLength(cmp, key, s, start, pe, pe, qe);
  }

  lemma {:induction false} PassStable<T, D(!new)>(cmp: Cmp<D>, key: T -> D, x: T, s: seq<T>, start: nat, k: nat)
    requires k > 0 && start <= |s| && TotalPreorder(cmp) && RunsSorted(cmp, key, s[start..], k)
    ensures TiesWith(cmp, key, x, MergePass(cmp, key, s, start, k)) == TiesWith(cmp, key, x, s[start..])
    decreases |s| - start
  {
    if start < |s| {
      var pe := Min(start + k, |s|);
      var qe := Min(pe + k, |s|);
      CutRuns(cmp, key, s, start, k, pe, qe);
      var m, rest := PassStep(cmp, key, s, start, k, pe, qe);
      MergeStable(cmp, key, x, s, start, pe, pe, qe);
      TiesConcat(cmp, key, x, s[start..pe], s[pe..qe]);
      PassStable(cmp, key, x, s, qe, k);
      TiesConcat(cmp, key, x, m, rest);
      TiesConcat(cmp, key, x, s[start..pe] + s[pe..qe], s[qe..]);
    }
  }

  lemma {:induction false} RunsOfOne<T, D(!new)>(cmp: Cmp<D>, key: T -> D, s: seq<T>)
    ensures RunsSorted(cmp, key, s, 1)
  {
    if s != [] {
      RunsOfOne(cmp, key, s[1..]);
    }
  }

  // Passes with run length k, 2k, 4k, ... until one run covers the list.
  ghost function BottomUp<T, D>(cmp: Cmp<D>, key: T -> D, s: seq<T>, k: nat): seq<T>
    requires k > 0
    decreases if |s| > k then |s| - k else 0
  {
    if |s| <= k then s
    else
      PassElements(cmp, key, s, 0, k);
      BottomUp(cmp, key, MergePass(cmp, key, s, 0, k), 2 * k)
  }

  lemma ShortPass<T, D>(cmp: Cmp<D>, key: T -> D, s: seq<T>, k: nat)
    requires k > 0 && |s| <= k
    ensures MergePass(cmp, key, s, 0, k) == s
  {
    if s != [] {
      SingleRun(cmp, key, s, 0);
      assert Merge(cmp, key, s, 0, |s|, |s|, |s|) + [] == s;
    }
  }

  // One pass more does not change what the passes lead to.
  lemma BottomUpStep<T, D>(cmp: Cmp<D>, key: T -> D, s: seq<T>, k: nat)
    requires k > 0
    ensures BottomUp(cmp, key, MergePass(cmp, key, s, 0, k), 2 * k) == BottomUp(cmp, key, s, k)
  {
    if |s| <= k {
      ShortPass(cmp, key, s, k);
    }
  }

  lemma {:induction false} SingleRun<T, D>(cmp: Cmp<D>, key: T -> D, s: seq<T>, pi: nat)
    requires pi <= |s|
    ensures Merge(cmp, key, s, pi, |s|, |s|, |s|) == s[pi..]
    decreases |s| - pi
  {
    if pi < |s| {
      SingleRun(cmp, key, s, pi + 1);
    }
  }

  lemma {:induction false} BottomUpInvariant<T, D(!new)>(cmp: Cmp<D>, key: T -> D, x: T, s: seq<T>, k: nat)
    requires k > 0 && TotalPreorder(cmp) && RunsSorted(cmp, key, s, k)
    ensures Sorted(cmp, key, BottomUp(cmp, key, s, k))
    ensures multiset(BottomUp(cmp, key, s, k)) == multiset(s)
    ensures TiesWith(cmp, key, x, BottomUp(cmp, key, s, k)) == TiesWith(cmp, key, x, s)
    decreases if |s| > k then |s| - k else 0
  {
    if |s| <= k {
      if s != [] { assert s[..Min(k, |s|)] == s; }
    } else {
      assert s[0..] == s;
      PassElements(cmp, key, s, 0, k);
      PassRuns(cmp, key, s, 0, k);
      PassStable(cmp, key, x, s, 0, k);
      BottomUpInvariant(cmp, key, x, MergePass(cmp, key, s, 0, k), 2 * k);
    }
  }

  // The loop that the sort macros run computes the stable sort.
  lemma BottomUpIsStableSort<T, D(!new)>(cmp: Cmp<D>, key: T -> D, s: seq<T>)
    requires TotalPreorder(cmp)
    ensures StableSortOf(cmp, key, s, BottomUp(cmp, key, s, 1))
  {
    RunsOfOne(cmp, key, s);
    if s != [] {
      BottomUpInvariant(cmp, key, s[0], s, 1);
    }
    forall x | x in s ensures TiesWith(cmp, key, x, BottomUp(cmp, key, s, 1)) == TiesWith(cmp, key, x, s) {
      BottomUpInvariant(cmp, key, x, s, 1);
    }
  }

  // ---------- the stable sort is unique ----------

  lemma {:induction false} StableSortUnique<T, D(!new)>(cmp: Cmp<D>, key: T -> D, s: seq<T>, t: seq<T>, u: seq<T>)
    requires TotalPreorder(cmp) && StableSortOf(cmp, key, s, t) && StableSortOf(cmp, key, s, u)
    ensures t == u
  {
    forall x | x in multiset(s) ensures TiesWith(cmp, key, x, t) == TiesWith(cmp, key, x, u) {
      assert x in s;
    }
    SameTiesSameList(cmp, key, t, u);
  }

  lemma {:induction false} SameTiesSameList<T, D(!new)>(cmp: Cmp<D>, key: T -> D, t: seq<T>, u: seq<T>)
    requires TotalPreorder(cmp) && multiset(t) == multiset(u)
    requires Sorted(cmp, key, t) && Sorted(cmp, key, u)
    requires forall x :: x in multiset(t) ==> TiesWith(cmp, key, x, t) == TiesWith(cmp, key, x, u)
    ensures t == u
  {
    assert |multiset(t)| == |t| && |multiset(u)| == |u|;
    if t != [] {
      SameHead(cmp, key, t, u);
      forall x | x in multiset(t[1..])
        ensures TiesWith(cmp, key, x, t[1..]) == TiesWith(cmp, key, x, u[1..])
      {
        TiesTail(cmp, key, x, t);
        TiesTail(cmp, key, x, u);
      }
      SameTiesSameList(cmp, key, t[1..], u[1..]);
    }
  }

  // The heads are least elements that tie with one another, so both are the first such element.
  lemma SameHead<T, D(!new)>(cmp: Cmp<D>, key: T -> D, t: seq<T>, u: seq<T>)
    requires TotalPreorder(cmp) && multiset(t) == multiset(u) && t != [] && u != []
    requires Sorted(cmp, key, t) && Sorted(cmp, key, u)
    requires forall x :: x in multiset(t) ==> TiesWith(cmp, key, x, t) == TiesWith(cmp, key, x, u)
    ensures t[0] == u[0] && multiset(t[1..]) == multiset(u[1..])
    ensures t == [t[0]] + t[1..] && u == [u[0]] + u[1..]
    ensures forall x :: x in multiset(t[1..]) ==> x in multiset(t)
  {
    CutHead(t);
    CutHead(u);
    assert t[0] in multiset(u) && u[0] in multiset(t);
    HeadIsLeast(cmp, key, t);
    HeadIsLeast(cmp, key, u);
    assert Tie(cmp, key, t[0], t[0]) && Tie(cmp, key, t[0], u[0]);
    assert TiesWith(cmp, key, t[0], t)[0] == t[0];
    assert TiesWith(cmp, key, t[0], u)[0] == u[0];
    MultisetCancel(t[0], multiset(t[1..]), multiset(u[1..]));
  }

  lemma TiesTail<T, D>(cmp: Cmp<D>, key: T -> D, x: T, s: seq<T>)
    requires s != []
    ensures Tie(cmp, key, x, s[0]) ==> TiesWith(cmp, key, x, s)[1..] == TiesWith(cmp, key, x, s[1..])
    ensures !Tie(cmp, key, x, s[0]) ==> TiesWith(cmp, key, x, s) == TiesWith(cmp, key, x, s[1..])
  {
  }
}
