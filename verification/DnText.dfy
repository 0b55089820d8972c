// The byte loops of udns_dn.c over domain names.
module DnText {
  import opened Seqs
  import opened DomainNames

  // dns_dnlen: the length of the name at pos, terminator included
  method DnLen(dn: seq<byte>, pos: nat) returns (len: nat)
    requires Terminated(dn, pos)
    ensures len == |Wire(LabelsAt(dn, pos))| && pos + len <= |dn| && dn[pos..pos + len] == Wire(LabelsAt(dn, pos))
  {
    WireAt(dn, pos);
    var d: nat := pos;
    while dn[d] != 0
      invariant pos <= d && Terminated(dn, d)
      invariant d - pos + |Wire(LabelsAt(dn, d))| == |Wire(LabelsAt(dn, pos))|
      decreases |dn| - d
    {
      var c: nat := dn[d];
      d := d + 1 + c;
    }
    len := d - pos + 1;
  }

  // dns_dntodn: copies the name at pos if it fits ddnsiz bytes
  method DnToDn(sdn: seq<byte>, pos: nat, ddn: array<byte>, ddnsiz: nat) returns (r: nat)
    requires Terminated(sdn, pos) && ddnsiz <= ddn.Length
    modifies ddn
    ensures var w := Wire(LabelsAt(sdn, pos));
            && r == (if |w| <= ddnsiz then |w| else 0)
            && (r > 0 ==> ddn[..r] == w)
            && ddn[r..] == old(ddn[r..])
  {
    var sdnlen := DnLen(sdn, pos);
    if ddnsiz < sdnlen {
      return 0;
    }
    forall i | 0 <= i < sdnlen {
      ddn[i] := sdn[pos + i];
    }
    assert ddn[..sdnlen] == sdn[pos..pos + sdnlen];
    return sdnlen;
  }

  // dns_dnlabels
  method DnLabels(dn: seq<byte>, pos: nat) returns (l: nat)
    requires Terminated(dn, pos)
    ensures l == |LabelsAt(dn, pos)|
  {
    var d: nat := pos;
    l := 0;
    while dn[d] != 0
      invariant Terminated(dn, d) && l + |LabelsAt(dn, d)| == |LabelsAt(dn, pos)|
      decreases |dn| - d
    {
      l := l + 1;
      var c: nat := dn[d];
      d := d + 1 + c;
    }
  }

  // dns_dnequal: the length of the names when they are the same but for case, else 0
  method DnEqual(dn1: seq<byte>, p1: nat, dn2: seq<byte>, p2: nat) returns (r: nat)
    requires Terminated(dn1, p1) && Terminated(dn2, p2)
    ensures r != 0 <==> SameName(LabelsAt(dn1, p1), LabelsAt(dn2, p2))
    ensures r != 0 ==> r == |Wire(LabelsAt(dn1, p1))|
  {
    var i: nat, j: nat := p1, p2;
    while true
      invariant p1 <= i && Terminated(dn1, i) && Terminated(dn2, j)
      invariant SameName(LabelsAt(dn1, i), LabelsAt(dn2, j)) <==> SameName(LabelsAt(dn1, p1), LabelsAt(dn2, p2))
      invariant i - p1 + |Wire(LabelsAt(dn1, i))| == |Wire(LabelsAt(dn1, p1))|
      decreases |dn1| - i
    {
      ghost var a, b := LabelsAt(dn1, i), LabelsAt(dn2, j);
      var c: nat := dn1[i];
      if c != dn2[j] {
        DifferentHeads(a, b);
        return 0;
      }
      if c == 0 {
        i := i + 1;
        return i - p1;
      }
      TerminatedStep(dn1, i);
      TerminatedStep(dn2, j);
      i, j := i + 1, j + 1;
      var same := SameBytes(dn1, i, dn2, j, c);
      if !same {
        assert !SameLabel(a[0], b[0]);
        return 0;
      }
      SameTail(a, b);
      i, j := i + c, j + c;
    }
  }

  // The inner loop of dns_dnequal: c bytes, but for case
  method SameBytes(dn1: seq<byte>, i: nat, dn2: seq<byte>, j: nat, c: nat) returns (same: bool)
    requires i + c <= |dn1| && j + c <= |dn2|
    ensures same <==> SameLabel(dn1[i..i + c], dn2[j..j + c])
  {
    ghost var a, b := dn1[i..i + c], dn2[j..j + c];
    var k := 0;
    while k < c
      invariant 0 <= k <= c
      invariant forall m :: 0 <= m < k ==> Lower(a[m]) == Lower(b[m])
    {
      if Lower(dn1[i + k]) != Lower(dn2[j + k]) {
        assert Lower(a[k]) != Lower(b[k]);
        return false;
      }
      assert a[k] == dn1[i + k] && b[k] == dn2[j + k];
      k := k + 1;
    }
    return true;
  }

  lemma DifferentHeads(a: Labels, b: Labels)
    requires if a == [] then b != [] else b == [] || |a[0]| != |b[0]|
    ensures !SameName(a, b)
  {
    if a != [] && b != [] { assert !SameLabel(a[0], b[0]); }
  }

  lemma SameTail(a: Labels, b: Labels)
    requires a != [] && b != [] && SameLabel(a[0], b[0])
    ensures SameName(a[1..], b[1..]) <==> SameName(a, b)
  {
    if SameName(a[1..], b[1..]) {
      forall i | 0 <= i < |a| ensures SameLabel(a[i], b[i]) {
        if i > 0 { assert SameLabel(a[1..][i - 1], b[1..][i - 1]); }
      }
    }
    if SameName(a, b) {
      forall i | 0 <= i < |a| - 1 ensures SameLabel(a[1..][i], b[1..][i]) {
        assert SameLabel(a[i + 1], b[i + 1]);
      }
    }
  }

  // ---------- to text ----------

  // How many bytes the two switch statements write for one byte.
  method EscapeSize(b: byte) returns (n: nat)
    ensures n == |Escape(b)|
  {
    if Special(b) { n := 2; } else if b <= 0x20 || b >= 0x7f { n := 4; } else { n := 1; }
  }

  // The text that remains to be written at byte i of a label that ends at le.
  ghost function RestOfText(dn: seq<byte>, i: nat, le: nat): seq<byte>
    requires i <= le && Terminated(dn, le)
  {
    EscapeAll(dn[i..le]) + DottedText(LabelsAt(dn, le))
  }

  lemma OneByteLess(dn: seq<byte>, i: nat, le: nat)
    requires i < le && Terminated(dn, le)
    ensures RestOfText(dn, i, le) == Escape(dn[i]) + RestOfText(dn, i + 1, le)
  {
    CutFirst(dn, i, le);
    Assoc(Escape(dn[i]), EscapeAll(dn[i + 1..le]), DottedText(LabelsAt(dn, le)));
  }

  // dns_dntop_size
  method DnToPSize(dn: seq<byte>, pos: nat) returns (size: nat)
    requires Terminated(dn, pos)
    ensures var n := TextSize(LabelsAt(dn, pos)); size == if n > MAXNAME then 0 else n
  {
    size := 0;
    var d: nat := pos;
    ghost var total := Rest(dn, pos, 0);
    while dn[d] != 0
      invariant Terminated(dn, d) && Rest(dn, d, size) == total
      decreases |dn| - d
    {
      d, size := SizeStep(dn, d, size);
    }
    size := size + 1;
    if size > MAXNAME {
      size := 0;
    }
  }

  method SizeStep(dn: seq<byte>, d0: nat, size0: nat) returns (d: nat, size: nat)
    requires Terminated(dn, d0) && dn[d0] != 0
    ensures d0 < d <= |dn| && Terminated(dn, d) && Rest(dn, d, size) == Rest(dn, d0, size0)
  {
    FirstLabel(dn, d0);
    size := size0;
    if size != 0 {
      size := size + 1;
    }
    var c: nat := dn[d0];
    size := LabelSize(dn, d0 + 1, d0 + 1 + c, size);
    d := d0 + 1 + c;
  }

  // The size so far and what the labels from d on will add to it.
  ghost function Rest(dn: seq<byte>, d: nat, size: nat): nat
    requires Terminated(dn, d)
  {
    size + if size == 0 then |TextOf(LabelsAt(dn, d))| else |DottedText(LabelsAt(dn, d))|
  }

  // At the start of a label: the text is the label's bytes and the dotted rest, behind a dot unless it
  // is the first.
  lemma FirstLabel(dn: seq<byte>, d: nat)
    requires Terminated(dn, d) && dn[d] != 0
    ensures var le := d + 1 + dn[d];
            && Terminated(dn, le)
            && TextOf(LabelsAt(dn, d)) == RestOfText(dn, d + 1, le)
            && DottedText(LabelsAt(dn, d)) == [DOT] + RestOfText(dn, d + 1, le)
  {
    var le := d + 1 + dn[d];
    assert Terminated(dn, le);
    Assoc([DOT], EscapeAll(dn[d + 1..le]), DottedText(LabelsAt(dn, le)));
    assert LabelsAt(dn, d)[1..] == LabelsAt(dn, le);
  }

  lemma LabelDone(dn: seq<byte>, le: nat)
    requires Terminated(dn, le)
    ensures RestOfText(dn, le, le) == DottedText(LabelsAt(dn, le))
  {
    assert dn[le..le] == [];
  }

  // The do loop of dns_dntop_size over the bytes of one label
  method LabelSize(dn: seq<byte>, start: nat, le: nat, size0: nat) returns (size: nat)
    requires start < le && Terminated(dn, le)
    ensures size > 0 && size + |DottedText(LabelsAt(dn, le))| == size0 + |RestOfText(dn, start, le)|
  {
    size := size0;
    var d := start;
    while d < le
      invariant start <= d <= le && (d > start ==> size > 0)
      invariant size + |RestOfText(dn, d, le)| == size0 + |RestOfText(dn, start, le)|
    {
      OneByteLess(dn, d, le);
      var n := EscapeSize(dn[d]);
      size := size + n;
      d := d + 1;
    }
    LabelDone(dn, le);
  }

  // ---------- writing the text ----------

  // name holds s from position base on.
  ghost predicate Holds(name: array<byte>, base: nat, s: seq<byte>)
    reads name
  {
    base + |s| <= name.Length && name[base..base + |s|] == s
  }

  // Nothing outside the range lo..hi has changed since the array was `was`.
  ghost predicate OnlyWithin(name: array<byte>, was: seq<byte>, lo: nat, hi: nat)
    reads name
  {
    |was| == name.Length && forall i :: 0 <= i < name.Length && !(lo <= i < hi) ==> name[i] == was[i]
  }

  lemma HoldsMore(name: array<byte>, base: nat, out: seq<byte>, e: seq<byte>)
    requires base + |out| + |e| <= name.Length
    requires forall i :: 0 <= i < |out| ==> name[base + i] == out[i]
    requires forall i :: 0 <= i < |e| ==> name[base + |out| + i] == e[i]
    ensures Holds(name, base, out + e)
  {
  }

  // ---------- how much is written ----------

  // dns_dntop writes in pieces: a byte in its text form, a dot, and the zero byte at the end.
  ghost function BytePieces(s: seq<byte>): seq<seq<byte>> {
    if s == [] then [] else [Escape(s[0])] + BytePieces(s[1..])
  }

  ghost function DottedPieces(labels: Labels): seq<seq<byte>> {
    if labels == [] then [] else [[DOT]] + (BytePieces(labels[0]) + DottedPieces(labels[1..]))
  }

  ghost function Pieces(labels: Labels): seq<seq<byte>> {
    (if labels == [] then [] else BytePieces(labels[0]) + DottedPieces(labels[1..])) + [[0]]
  }

  // The room that must be left for a piece: one byte more than it takes when it is a backslash and digits.
  ghost function PieceRoom(piece: seq<byte>): nat {
    if |piece| == 4 then 5 else |piece|
  }

  // How many bytes go out before the first piece that does not fit.
  ghost function Written(pieces: seq<seq<byte>>, room: nat): (n: nat)
    ensures n <= room
  {
    if pieces == [] || PieceRoom(pieces[0]) > room then 0
    else |pieces[0]| + Written(pieces[1..], room - |pieces[0]|)
  }

  // How many bytes of the text of a name go out into this room.
  ghost function Stored(labels: Labels, room: nat): (n: nat)
    ensures n <= room && n <= TextSize(labels)
  {
    FlatText(labels);
    WrittenAll(Pieces(labels), room);
    Written(Pieces(labels), room)
  }

  ghost function Flat(pieces: seq<seq<byte>>): seq<byte> {
    if pieces == [] then [] else pieces[0] + Flat(pieces[1..])
  }

  lemma {:induction false} FlatConcat(a: seq<seq<byte>>, b: seq<seq<byte>>)
    ensures Flat(a + b) == Flat(a) + Flat(b)
  {
    if a == [] {
      assert a + b == b;
    } else {
      FlatConcat(a[1..], b);
      assert (a + b)[1..] == a[1..] + b;
      Assoc(a[0], Flat(a[1..]), Flat(b));
    }
  }

  lemma {:induction false} FlatBytes(s: seq<byte>)
    ensures Flat(BytePieces(s)) == EscapeAll(s)
  {
    if s != [] {
      FlatBytes(s[1..]);
      assert BytePieces(s)[1..] == BytePieces(s[1..]);
    }
  }

  lemma {:induction false} FlatDotted(labels: Labels)
    ensures Flat(DottedPieces(labels)) == DottedText(labels)
  {
    if labels != [] {
      var rest := BytePieces(labels[0]) + DottedPieces(labels[1..]);
      FlatDotted(labels[1..]);
      FlatBytes(labels[0]);
      FlatConcat(BytePieces(labels[0]), DottedPieces(labels[1..]));
      assert DottedPieces(labels)[1..] == rest;
      Assoc([DOT], EscapeAll(labels[0]), DottedText(labels[1..]));
    }
  }

  lemma FlatText(labels: Labels)
    ensures Flat(Pieces(labels)) == TextOf(labels) + [0]
  {
    assert Flat([[0]]) == [0] + Flat([[0]][1..]) == [0];
    if labels == [] {
      assert Pieces(labels) == [[0]];
    } else {
      FlatBytes(labels[0]);
      FlatDotted(labels[1..]);
      FlatConcat(BytePieces(labels[0]), DottedPieces(labels[1..]));
      FlatConcat(BytePieces(labels[0]) + DottedPieces(labels[1..]), [[0]]);
    }
  }

  // Pieces that end with one that asks for no more than it takes all go out exactly if they fit.
  lemma {:induction false} WrittenAll(pieces: seq<seq<byte>>, room: nat)
    requires pieces != [] && |pieces[|pieces| - 1]| == 1
    ensures |Flat(pieces)| >= 1
    ensures Written(pieces, room) <= |Flat(pieces)|
    ensures Written(pieces, room) == |Flat(pieces)| <==> |Flat(pieces)| <= room
  {
    if |pieces| > 1 {
      if PieceRoom(pieces[0]) <= room {
        WrittenAll(pieces[1..], room - |pieces[0]|);
      } else {
        WrittenAll(pieces[1..], 0);
      }
    } else {
      assert Flat(pieces[1..]) == [];
    }
  }

  // All of the text is written if and only if it fits; and some of it always is.
  lemma StoredIs(labels: Labels, room: nat)
    ensures TextSize(labels) <= room <==> Stored(labels, room) == TextSize(labels)
    ensures Labelled(labels) && room >= 5 ==> Stored(labels, room) > 0
  {
    FlatText(labels);
    WrittenAll(Pieces(labels), room);
    if Labelled(labels) && labels != [] {
      assert BytePieces(labels[0])[0] == Escape(labels[0][0]);
      assert Pieces(labels)[0] == Escape(labels[0][0]);
    }
  }

  // What is left at byte i of a label that ends at le.
  ghost function RestPieces(dn: seq<byte>, i: nat, le: nat): seq<seq<byte>>
    requires i <= le && Terminated(dn, le)
  {
    BytePieces(dn[i..le]) + (DottedPieces(LabelsAt(dn, le)) + [[0]])
  }

  // What is left at a label boundary.
  ghost function TailPieces(dn: seq<byte>, d: nat, first: bool): seq<seq<byte>>
    requires Terminated(dn, d)
  {
    if first then Pieces(LabelsAt(dn, d)) else DottedPieces(LabelsAt(dn, d)) + [[0]]
  }

  lemma OnePieceLess(dn: seq<byte>, i: nat, le: nat)
    requires i < le && Terminated(dn, le)
    ensures RestPieces(dn, i, le) == [Escape(dn[i])] + RestPieces(dn, i + 1, le)
  {
    CutFirst(dn, i, le);
    Assoc([Escape(dn[i])], BytePieces(dn[i + 1..le]), DottedPieces(LabelsAt(dn, le)) + [[0]]);
  }

  lemma FirstPieces(dn: seq<byte>, d: nat)
    requires Terminated(dn, d) && dn[d] != 0
    ensures var le := d + 1 + dn[d];
            && Terminated(dn, le) && TailPieces(dn, d, true) == RestPieces(dn, d + 1, le)
            && TailPieces(dn, d, false) == [[DOT]] + RestPieces(dn, d + 1, le)
  {
    var le := d + 1 + dn[d];
    assert Terminated(dn, le);
    var labels := LabelsAt(dn, d);
    assert labels[1..] == LabelsAt(dn, le) && labels[0] == dn[d + 1..le];
    Assoc(BytePieces(labels[0]), DottedPieces(labels[1..]), [[0]]);
    Assoc([[DOT]], BytePieces(labels[0]) + DottedPieces(labels[1..]), [[0]]);
  }

  lemma NoPieces(dn: seq<byte>, le: nat)
    requires Terminated(dn, le)
    ensures RestPieces(dn, le, le) == TailPieces(dn, le, false)
  {
    assert dn[le..le] == [];
  }

  // What is out and what is left make up the text, and the number of bytes that go out in the end.
  ghost predicate Left(text: seq<byte>, goal: nat, out: seq<byte>, rest: seq<byte>, pieces: seq<seq<byte>>, room: nat) {
    out + rest == text && |out| + Written(pieces, room) == goal
  }

  lemma LeftStep(text: seq<byte>, goal: nat, out: seq<byte>, p: seq<byte>, rest: seq<byte>, pieces: seq<seq<byte>>,
                 room: nat)
    requires Left(text, goal, out, p + rest, [p] + pieces, room)
    ensures if PieceRoom(p) <= room then Left(text, goal, out + p, rest, pieces, room - |p|) && |out| + |p| <= goal
            else |out| == goal && out <= text
  {
    assert ([p] + pieces)[1..] == pieces;
    Assoc(out, p, rest);
  }

  // out stands in name from base up to np, and nothing else has been written.
  ghost predicate Out(name: array<byte>, was: seq<byte>, base: nat, out: seq<byte>, np: nat)
    reads name
  {
    np == base + |out| && Holds(name, base, out) && OnlyWithin(name, was, base, np)
  }

  // One byte of a label goes out in its text form, if there is room for it before ne.
  method PutEscaped(name: array<byte>, np0: nat, ne: nat, b: byte, ghost base: nat, ghost out: seq<byte>,
                    ghost was: seq<byte>)
    returns (np: nat, fits: bool)
    requires Out(name, was, base, out, np0) && np0 <= ne
    requires np0 + PieceRoom(Escape(b)) <= ne ==> np0 + |Escape(b)| <= name.Length
    modifies name
    ensures fits <==> np0 + PieceRoom(Escape(b)) <= ne
    ensures if fits then np == np0 + |Escape(b)| && Out(name, was, base, out + Escape(b), np)
            else np == np0 && Out(name, was, base, out, np)
  {
    assert forall i :: 0 <= i < |out| ==> name[base + i] == out[i] by {
      assert forall i :: 0 <= i < |out| ==> name[base..base + |out|][i] == out[i];
    }
    np := np0;
    fits := true;
    if Special(b) {
      if np + 2 > ne { return np, false; }
      name[np], name[np + 1] := BACKSLASH, b;
      np := np + 2;
    } else if b <= 0x20 || b >= 0x7f {
      if np + 4 >= ne { return np, false; }
      name[np], name[np + 1] := BACKSLASH, 0x30 + b / 100;
      name[np + 2], name[np + 3] := 0x30 + b % 100 / 10, 0x30 + b % 10;
      np := np + 4;
    } else {
      if np >= ne { return np, false; }
      name[np] := b;
      np := np + 1;
    }
    HoldsMore(name, base, out, Escape(b));
  }

  // What is still to come at a label boundary.
  ghost function TailText(dn: seq<byte>, d: nat, first: bool): seq<byte>
    requires Terminated(dn, d)
  {
    if first then TextOf(LabelsAt(dn, d)) else DottedText(LabelsAt(dn, d))
  }

  // dns_dntop: the text of the name at pos goes to name[base..], if it fits namesiz bytes; else the pieces
  // that do. The caller owes room only for what is written.
  method DnToP(dn: seq<byte>, pos: nat, name: array<byte>, base: nat, namesiz: nat) returns (r: int)
    requires Terminated(dn, pos)
    requires base + Stored(LabelsAt(dn, pos), namesiz) <= name.Length
    modifies name
    ensures r > 0 <==> TextSize(LabelsAt(dn, pos)) <= namesiz
    ensures r > 0 ==> r == TextSize(LabelsAt(dn, pos)) && Holds(name, base, TextOf(LabelsAt(dn, pos)) + [0])
    ensures r <= 0 ==> r == if namesiz >= MAXNAME then -1 else 0
    ensures OnlyWithin(name, old(name[..]), base, base + Stored(LabelsAt(dn, pos), namesiz))
    ensures Holds(name, base, (TextOf(LabelsAt(dn, pos)) + [0])[..Stored(LabelsAt(dn, pos), namesiz)])
  {
    ghost var labels := LabelsAt(dn, pos);
    StoredIs(labels, namesiz);
    ghost var out;
    var np, fits;
    np, fits, out := PutLabels(dn, pos, name, base, base + namesiz);
    if !fits {
      return if namesiz >= MAXNAME then -1 else 0;
    }
    PutByte(name, np, base, out, old(name[..]), 0);
    r := np + 1 - base;
    Whole(TextOf(labels) + [0]);
  }

  // The loop of dns_dntop, and the test for the zero byte at its end
  method PutLabels(dn: seq<byte>, pos: nat, name: array<byte>, base: nat, ne: nat)
    returns (np: nat, fits: bool, ghost out: seq<byte>)
    requires Terminated(dn, pos) && base <= ne
    requires base + Stored(LabelsAt(dn, pos), ne - base) <= name.Length
    modifies name
    ensures Out(name, old(name[..]), base, out, np) && np <= ne
    ensures var labels := LabelsAt(dn, pos); var goal := Stored(labels, ne - base);
            if fits then out == TextOf(labels) && |out| + 1 == goal
            else |out| == goal && out == (TextOf(labels) + [0])[..goal] && goal < TextSize(labels)
  {
    ghost var was := name[..];
    ghost var text, goal := TailText(dn, pos, true), Stored(LabelsAt(dn, pos), ne - base);
    assert [] + text == text;
    np, out, fits := base, [], true;
    var d: nat := pos;
    while dn[d] != 0
      invariant Terminated(dn, d) && Out(name, was, base, out, np) && np <= ne
      invariant Left(text, goal, out, TailText(dn, d, out == []), TailPieces(dn, d, out == []), ne - np)
      decreases |dn| - d
    {
      np, d, fits, out := PutLabel(dn, d, name, np, ne, base, out, was, text, goal);
      if !fits {
        CutShort(text, goal, out);
        return;
      }
    }
    AtEnd(dn, d, text, goal, out, ne - np);
    CutShort(text, |out|, out);
    fits := np < ne;
  }

  lemma CutShort(text: seq<byte>, goal: nat, out: seq<byte>)
    requires out <= text && |out| == goal
    ensures goal < |text| + 1 && out == (text + [0])[..goal]
  {
  }

  lemma AtEnd(dn: seq<byte>, d: nat, text: seq<byte>, goal: nat, out: seq<byte>, room: nat)
    requires Terminated(dn, d) && dn[d] == 0
    requires Left(text, goal, out, TailText(dn, d, out == []), TailPieces(dn, d, out == []), room)
    ensures out == text && goal == |out| + (if room >= 1 then 1 else 0)
  {
    assert TailText(dn, d, out == []) == [] && out + [] == out;
    assert TailPieces(dn, d, out == []) == [[0]];
    LastPiece(room);
  }

  lemma LastPiece(room: nat)
    ensures Written([[0]], room) == if room >= 1 then 1 else 0
  {
    var last: seq<seq<byte>> := [[0]];
    assert last[1..] == [];
  }

  method PutByte(name: array<byte>, np: nat, ghost base: nat, ghost out: seq<byte>, ghost was: seq<byte>, b: byte)
    requires Out(name, was, base, out, np) && np < name.Length
    modifies name
    ensures Out(name, was, base, out + [b], np + 1)
  {
    name[np] := b;
    assert name[base..np + 1] == name[base..np] + [b];
  }

  // One round of the label loop: the dot, and the bytes of the label at d.
  method PutLabel(dn: seq<byte>, d0: nat, name: array<byte>, np0: nat, ne: nat, base: nat, ghost out0: seq<byte>,
                  ghost was: seq<byte>, ghost text: seq<byte>, ghost goal: nat)
    returns (np: nat, d: nat, fits: bool, ghost out: seq<byte>)
    requires Terminated(dn, d0) && dn[d0] != 0 && Out(name, was, base, out0, np0) && np0 <= ne
    requires Left(text, goal, out0, TailText(dn, d0, out0 == []), TailPieces(dn, d0, out0 == []), ne - np0)
    requires base + goal <= name.Length
    modifies name
    ensures Out(name, was, base, out, np) && np <= ne
    ensures if fits then d0 < d && Terminated(dn, d) && out != []
                         && Left(text, goal, out, TailText(dn, d, false), TailPieces(dn, d, false), ne - np)
            else |out| == goal && out <= text
  {
    var c: nat := dn[d0];
    d := d0 + 1 + c;
    AtLabel(dn, d0, text, goal, out0, ne - np0);
    np, fits, out := PutDot(name, np0, ne, base, out0, was, text, goal, RestOfText(dn, d0 + 1, d),
                            RestPieces(dn, d0 + 1, d));
    if !fits {
      return;
    }
    np, fits, out := PutBytes(dn, d0 + 1, d, name, np, ne, base, out, was, text, goal);
    LabelDone(dn, d);
    NoPieces(dn, d);
  }

  lemma AtLabel(dn: seq<byte>, d: nat, text: seq<byte>, goal: nat, out: seq<byte>, room: nat)
    requires Terminated(dn, d) && dn[d] != 0
    requires Left(text, goal, out, TailText(dn, d, out == []), TailPieces(dn, d, out == []), room)
    ensures var le := d + 1 + dn[d];
            && Terminated(dn, le)
            && if out == [] then Left(text, goal, out, RestOfText(dn, d + 1, le), RestPieces(dn, d + 1, le), room)
               else Left(text, goal, out, [DOT] + RestOfText(dn, d + 1, le), [[DOT]] + RestPieces(dn, d + 1, le), room)
  {
    FirstLabel(dn, d);
    FirstPieces(dn, d);
  }

  // The dot before a label, unless it is the first.
  method PutDot(name: array<byte>, np0: nat, ne: nat, base: nat, ghost out0: seq<byte>, ghost was: seq<byte>,
                ghost text: seq<byte>, ghost goal: nat, ghost rest: seq<byte>, ghost pieces: seq<seq<byte>>)
    returns (np: nat, fits: bool, ghost out: seq<byte>)
    requires Out(name, was, base, out0, np0) && np0 <= ne && base + goal <= name.Length
    requires if out0 == [] then Left(text, goal, out0, rest, pieces, ne - np0)
             else Left(text, goal, out0, [DOT] + rest, [[DOT]] + pieces, ne - np0)
    modifies name
    ensures Out(name, was, base, out, np) && np <= ne
    ensures if fits then Left(text, goal, out, rest, pieces, ne - np) else |out| == goal && out <= text
  {
    np, out, fits := np0, out0, true;
    if np != base {
      LeftStep(text, goal, out, [DOT], rest, pieces, ne - np);
      if np >= ne {
        fits := false;
        return;
      }
      PutByte(name, np, base, out, was, DOT);
      out := out + [DOT];
      np := np + 1;
    }
  }

  // The do loop over the bytes of one label.
  method PutBytes(dn: seq<byte>, start: nat, le: nat, name: array<byte>, np0: nat, ne: nat, ghost base: nat,
                  ghost out0: seq<byte>, ghost was: seq<byte>, ghost text: seq<byte>, ghost goal: nat)
    returns (np: nat, fits: bool, ghost out: seq<byte>)
    requires start < le && Terminated(dn, le) && Out(name, was, base, out0, np0) && np0 <= ne
    requires Left(text, goal, out0, RestOfText(dn, start, le), RestPieces(dn, start, le), ne - np0)
    requires base + goal <= name.Length
    modifies name
    ensures Out(name, was, base, out, np) && np <= ne
    ensures if fits then out != [] && Left(text, goal, out, RestOfText(dn, le, le), RestPieces(dn, le, le), ne - np)
            else |out| == goal && out <= text
  {
    np, out, fits := np0, out0, true;
    var d := start;
    while d < le
      invariant start <= d <= le && (d > start ==> out != []) && Out(name, was, base, out, np) && np <= ne
      invariant Left(text, goal, out, RestOfText(dn, d, le), RestPieces(dn, d, le), ne - np)
    {
      np, fits, out := PutOne(dn, d, le, name, np, ne, base, out, was, text, goal);
      if !fits { return; }
      d := d + 1;
    }
  }

  method PutOne(dn: seq<byte>, d: nat, ghost le: nat, name: array<byte>, np0: nat, ne: nat, ghost base: nat,
                ghost out0: seq<byte>, ghost was: seq<byte>, ghost text: seq<byte>, ghost goal: nat)
    returns (np: nat, fits: bool, ghost out: seq<byte>)
    requires d < le && Terminated(dn, le) && Out(name, was, base, out0, np0) && np0 <= ne
    requires Left(text, goal, out0, RestOfText(dn, d, le), RestPieces(dn, d, le), ne - np0)
    requires base + goal <= name.Length
    modifies name
    ensures Out(name, was, base, out, np) && np <= ne
    ensures if fits then
              out != [] && Left(text, goal, out, RestOfText(dn, d + 1, le), RestPieces(dn, d + 1, le), ne - np)
            else |out| == goal && out <= text
  {
    OneByteLess(dn, d, le);
    OnePieceLess(dn, d, le);
    LeftStep(text, goal, out0, Escape(dn[d]), RestOfText(dn, d + 1, le), RestPieces(dn, d + 1, le), ne - np0);
    np, fits := PutEscaped(name, np0, ne, dn[d], base, out0, was);
    out := if fits then out0 + Escape(dn[d]) else out0;
  }
}
