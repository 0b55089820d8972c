// Facts about slices that the proofs of the other modules use again and again.
module Seqs {

  function Min(a: nat, b: nat): nat { if a < b then a else b }

  ghost predicate Distinct<T>(s: seq<T>) {
    forall i, j :: 0 <= i < j < |s| ==> s[i] != s[j]
  }

  ghost function Elems<T>(s: seq<T>): set<T> {
    set x | x in s
  }

  lemma CutFirst<T>(s: seq<T>, i: nat, j: nat)
    requires i < j <= |s|
    ensures s[i..j] == [s[i]] + s[i + 1..j]
    ensures multiset(s[i..j]) == multiset{s[i]} + multiset(s[i + 1..j])
  {
    assert s[i..j] == [s[i]] + s[i + 1..j];
  }

  lemma MultisetCons<T>(x: T, s: seq<T>)
    ensures multiset([x] + s) == multiset{x} + multiset(s)
  {
  }

  lemma CutHead<T>(s: seq<T>)
    requires s != []
    ensures s == [s[0]] + s[1..]
    ensures multiset(s) == multiset{s[0]} + multiset(s[1..])
  {
    assert s == [s[0]] + s[1..];
  }

  lemma MultisetCancel<T>(x: T, a: multiset<T>, b: multiset<T>)
    requires multiset{x} + a == multiset{x} + b
    ensures a == b
  {
    assert a == (multiset{x} + a) - multiset{x};
    assert b == (multiset{x} + b) - multiset{x};
  }

  lemma Assoc<T>(a: seq<T>, b: seq<T>, c: seq<T>)
    ensures a + (b + c) == (a + b) + c
    ensures a == [] || b == [] ==> a + (b + c) == b + (a + c)
  {
    assert a == [] ==> a + c == c && a + (b + c) == b + c;
    assert b == [] ==> b + c == c && b + (a + c) == a + c;
  }

  lemma Assoc4<T>(a: seq<T>, b: seq<T>, c: seq<T>, d: seq<T>)
    ensures (a + b + c) + d == a + (b + (c + d))
  {
  }

  lemma MoveOver<T>(done: seq<T>, a: seq<T>, more: seq<T>, rest: seq<T>)
    requires rest == a + more
    ensures (done + a) + more == done + rest
  {
  }

  lemma Cut3<T>(s: seq<T>, a: nat, b: nat, c: nat)
    requires a <= b <= c <= |s|
    ensures s[a..] == s[a..b] + s[b..c] + s[c..]
    ensures multiset(s[a..]) == multiset(s[a..b]) + multiset(s[b..c]) + multiset(s[c..])
  {
    assert s[a..] == s[a..b] + s[b..c] + s[c..];
  }

  lemma CutAt<T>(s: seq<T>, a: nat, n: nat, m: nat)
    requires a <= |s| && m == (if a + n < |s| then n else |s| - a)
    ensures s[a..][..m] == s[a..a + m] && s[a..][m..] == s[a + m..]
  {
  }

  lemma Whole<T>(s: seq<T>)
    ensures s[0..] == s && s[..|s|] == s && s[0..|s|] == s && s[|s|..] == []
  {
  }

  lemma CutOut<T>(s: seq<T>, i: nat)
    requires i < |s|
    ensures s == s[..i] + [s[i]] + s[i + 1..]
  {
  }

  lemma Prefix<T>(w: seq<T>, s: seq<T>)
    requires |w| <= |s| && s[..|w|] == w
    ensures s == [] + w + s[|w|..]
  {
  }

  lemma CutTwo<T>(s: seq<T>, k: nat)
    requires k <= |s|
    ensures s == s[..k] + s[k..]
  {
  }

  lemma Inserted<T>(s: seq<T>, k: nat, x: T, j: nat)
    requires k <= |s| && j <= |s|
    ensures (s[..k] + [x] + s[k..])[j] == if j < k then s[j] else if j == k then x else s[j - 1]
  {
  }

  lemma Within<T>(s: seq<T>, pos: nat, w: seq<T>, a: nat, b: nat)
    requires pos + |w| <= |s| && s[pos..pos + |w|] == w && a <= b <= |w|
    ensures s[pos + a..pos + b] == w[a..b]
  {
    forall i | 0 <= i < b - a ensures s[pos + a..pos + b][i] == w[a..b][i] {
      assert s[pos..pos + |w|][a + i] == s[pos + a + i];
    }
  }
}
