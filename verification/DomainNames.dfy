// Domain names: the list of labels, its wire form (section 3.1 of RFC 1035), and its text form.
module DomainNames {
  import opened Seqs

  type byte = x: nat | x < 256

  type Labels = seq<seq<byte>>

  const MAXDN := 255
  const MAXLABEL := 63
  const MAXNAME := 1024

  const DOT: byte := 0x2e
  const BACKSLASH: byte := 0x5c

  // ---------- the wire form ----------

  // Every label fits its length byte and is not empty.
  ghost predicate Labelled(labels: Labels) {
    forall i :: 0 <= i < |labels| ==> 1 <= |labels[i]| < 256
  }

  // Section 2.3.4 of RFC 1035: labels of 1 to 63 bytes.
  ghost predicate ShortLabels(labels: Labels) {
    forall i :: 0 <= i < |labels| ==> 1 <= |labels[i]| <= MAXLABEL
  }

  // Each label behind its length, without the terminator.
  function LabelBytes(labels: Labels): seq<byte>
    requires Labelled(labels)
  {
    if labels == [] then [] else [|labels[0]|] + labels[0] + LabelBytes(labels[1..])
  }

  function Wire(labels: Labels): seq<byte>
    requires Labelled(labels)
  {
    LabelBytes(labels) + [0]
  }

  // From pos on, dn is a chain of labels that ends with the empty one.
  predicate Terminated(dn: seq<byte>, pos: nat)
    decreases |dn| - pos
  {
    pos < |dn| && (dn[pos] == 0 || Terminated(dn, pos + 1 + dn[pos]))
  }

  lemma {:induction false} TerminatedStep(dn: seq<byte>, pos: nat)
    requires Terminated(dn, pos) && dn[pos] != 0
    ensures pos + 1 + dn[pos] < |dn|
  {
  }

  function LabelsAt(dn: seq<byte>, pos: nat): (r: Labels)
    requires Terminated(dn, pos)
    ensures Labelled(r)
    decreases |dn| - pos
  {
    if dn[pos] == 0 then []
    else
      assert Terminated(dn, pos + 1 + dn[pos]);
      [dn[pos + 1..pos + 1 + dn[pos]]] + LabelsAt(dn, pos + 1 + dn[pos])
  }

  lemma {:induction false} WireAt(dn: seq<byte>, pos: nat)
    requires Terminated(dn, pos)
    ensures var w := Wire(LabelsAt(dn, pos)); pos + |w| <= |dn| && dn[pos..pos + |w|] == w
    decreases |dn| - pos
  {
    if dn[pos] != 0 {
      var next := pos + 1 + dn[pos];
      var l := dn[pos + 1..next];
      WireAt(dn, next);
      WireAtStep(dn, pos, next, LabelsAt(dn, next));
    }
  }

  lemma WireAtStep(dn: seq<byte>, pos: nat, next: nat, rest: Labels)
    requires pos < next < |dn| && next == pos + 1 + dn[pos] && dn[pos] != 0 && Labelled(rest)
    requires next + |Wire(rest)| <= |dn| && dn[next..next + |Wire(rest)|] == Wire(rest)
    ensures Labelled([dn[pos + 1..next]] + rest)
    ensures var w := Wire([dn[pos + 1..next]] + rest); pos + |w| <= |dn| && dn[pos..pos + |w|] == w
  {
    WireCons(dn[pos + 1..next], rest);
    CutLabel(dn, pos, next, next + |Wire(rest)|);
  }

  lemma WireCons(l: seq<byte>, rest: Labels)
    requires Labelled([l] + rest) && Labelled(rest)
    ensures Wire([l] + rest) == [|l|] + l + Wire(rest)
  {
    assert ([l] + rest)[1..] == rest;
  }

  lemma CutLabel(dn: seq<byte>, pos: nat, next: nat, end: nat)
    requires pos < next <= end <= |dn|
    ensures dn[pos..end] == [dn[pos]] + dn[pos + 1..next] + dn[next..end]
  {
  }

  // The wire form of a list of labels reads back as that list, whatever stands around it.
  lemma {:induction false} LabelsOfWire(pre: seq<byte>, labels: Labels, post: seq<byte>)
    requires Labelled(labels)
    ensures var dn := pre + Wire(labels) + post; Terminated(dn, |pre|) && LabelsAt(dn, |pre|) == labels
    decreases |labels|
  {
    var dn := pre + Wire(labels) + post;
    if labels != [] {
      var l := labels[0];
      var pre' := pre + [|l|] + l;
      LabelsOfWire(pre', labels[1..], post);
      assert dn == pre' + Wire(labels[1..]) + post;
      assert dn[|pre|] == |l| && dn[|pre| + 1..|pre| + 1 + |l|] == l;
    }
  }

  lemma {:induction false} LabelBytesConcat(a: Labels, b: Labels)
    requires Labelled(a) && Labelled(b)
    ensures Labelled(a + b) && LabelBytes(a + b) == LabelBytes(a) + LabelBytes(b)
  {
    if a == [] {
      assert a + b == b;
    } else {
      LabelBytesConcat(a[1..], b);
      assert a + b == [a[0]] + (a[1..] + b);
      LabelBytesCons(a[0], a[1..]);
      LabelBytesCons(a[0], a[1..] + b);
      CutHead(a);
      Assoc([|a[0]|] + a[0], LabelBytes(a[1..]), LabelBytes(b));
    }
  }

  lemma LabelBytesCons(l: seq<byte>, rest: Labels)
    requires Labelled([l] + rest) && Labelled(rest)
    ensures LabelBytes([l] + rest) == [|l|] + l + LabelBytes(rest)
  {
    assert ([l] + rest)[1..] == rest;
  }

  lemma OneLabel(l: seq<byte>)
    requires 1 <= |l| < 256
    ensures Labelled([l]) && LabelBytes([l]) == [|l|] + l
  {
    LabelBytesCons(l, []);
    assert [l] + [] == [l] && [|l|] + l + [] == [|l|] + l;
  }

  // ---------- comparing names ----------

  // Upper and lower case letters are the same.
  function Lower(c: byte): byte {
    if 0x41 <= c <= 0x5a then c - 0x41 + 0x61 else c
  }

  ghost predicate SameLabel(a: seq<byte>, b: seq<byte>) {
    |a| == |b| && forall i :: 0 <= i < |a| ==> Lower(a[i]) == Lower(b[i])
  }

  ghost predicate SameName(a: Labels, b: Labels) {
    |a| == |b| && forall i :: 0 <= i < |a| ==> SameLabel(a[i], b[i])
  }

  // The same byte, or the same letter of A to Z in the other case
  ghost predicate SameUpToCaseByte(a: nat, b: nat) {
    a == b || (65 <= a <= 90 && b == a + 32) || (65 <= b <= 90 && a == b + 32)
  }

  ghost predicate SameUpToCase(a: Labels, b: Labels) {
    && |a| == |b|
    && forall i :: 0 <= i < |a| ==>
         |a[i]| == |b[i]| && forall j :: 0 <= j < |a[i]| ==> SameUpToCaseByte(a[i][j], b[i][j])
  }

  // Names are compared byte by byte, but for the case of the letters.
  lemma SameNameIs(a: Labels, b: Labels)
    ensures SameName(a, b) <==> SameUpToCase(a, b)
  {
  }

  // ---------- the text form ----------

  // The bytes that the text form puts a backslash before: . \ " ; @ $
  predicate Special(b: byte) {
    b in {0x2e, 0x5c, 0x22, 0x3b, 0x40, 0x24}
  }

  predicate Printable(b: byte) {
    0x20 < b < 0x7f
  }

  predicate Digit(b: byte) {
    0x30 <= b <= 0x39
  }

  function Escape(b: byte): (r: seq<byte>) {
    if Special(b) then [BACKSLASH, b]
    else if !Printable(b) then [BACKSLASH, 0x30 + b / 100, 0x30 + b % 100 / 10, 0x30 + b % 10]
    else [b]
  }

  function EscapeAll(s: seq<byte>): seq<byte> {
    if s == [] then [] else Escape(s[0]) + EscapeAll(s[1..])
  }

  // Each label behind a dot.
  function DottedText(labels: Labels): seq<byte> {
    if labels == [] then [] else [DOT] + EscapeAll(labels[0]) + DottedText(labels[1..])
  }

  function TextOf(labels: Labels): seq<byte> {
    if labels == [] then [] else EscapeAll(labels[0]) + DottedText(labels[1..])
  }

  // The bytes that the text form needs, its terminator included.
  function TextSize(labels: Labels): nat {
    |TextOf(labels)| + 1
  }

  // ---------- reading the text form ----------

  datatype Token = Dot | Byte(value: byte)

  datatype Option<+T> = None | Some(value: T)

  function DigitValue(b: byte): nat
    requires Digit(b)
  {
    b - 0x30
  }

  // The token at the front of a text, and how many bytes it takes: a dot, a byte as it stands, a
  // backslash and a byte, or a backslash and one to three decimal digits of at most 255.
  function NextToken(t: seq<byte>): (r: Option<(Token, nat)>)
    requires t != []
    ensures r.Some? ==> 1 <= r.value.1 <= |t|
  {
    if t[0] == DOT then Some((Dot, 1))
    else if t[0] != BACKSLASH then Some((Byte(t[0]), 1))
    else if |t| == 1 then None
    else if !Digit(t[1]) then Some((Byte(t[1]), 2))
    else if |t| == 2 || !Digit(t[2]) then Some((Byte(DigitValue(t[1])), 2))
    else if |t| == 3 || !Digit(t[3]) then Some((Byte(DigitValue(t[1]) * 10 + DigitValue(t[2])), 3))
    else
      var v := DigitValue(t[1]) * 100 + DigitValue(t[2]) * 10 + DigitValue(t[3]);
      if v > 255 then None else Some((Byte(v), 4))
  }

  function Tokens(t: seq<byte>): Option<seq<Token>> {
    if t == [] then Some([])
    else match NextToken(t)
      case None => None
      case Some((tok, n)) =>
        match Tokens(t[n..])
        case None => None
        case Some(toks) => Some([tok] + toks)
  }

  // The bytes between the dots.
  function Split(toks: seq<Token>): (r: seq<seq<byte>>)
    ensures |r| >= 1
  {
    if toks == [] then [[]]
    else
      var rest := Split(toks[1..]);
      match toks[0]
      case Dot => [[]] + rest
      case Byte(b) => [[b] + rest[0]] + rest[1..]
  }

  // A text names a list of labels when its pieces between the dots are labels, but for a last piece
  // that may be empty; a single dot is the root.
  predicate Names(t: seq<byte>) {
    && Tokens(t).Some?
    && var s := Split(Tokens(t).value);
       t == [DOT] || ((forall i :: 0 <= i < |s| - 1 ==> 1 <= |s[i]| <= MAXLABEL) && |s[|s| - 1]| <= MAXLABEL)
  }

  function NamedLabels(t: seq<byte>): (r: Labels)
    requires Names(t)
    ensures ShortLabels(r)
  {
    var s := Split(Tokens(t).value);
    if t == [DOT] then [] else if s[|s| - 1] == [] then s[..|s| - 1] else s
  }

  // A text that ends in a dot (or is empty) is an absolute name.
  predicate Absolute(t: seq<byte>)
    requires Tokens(t).Some?
  {
    var s := Split(Tokens(t).value);
    s[|s| - 1] == []
  }

  // ---------- the round trip ----------

  lemma TokenOfEscape(b: byte, rest: seq<byte>)
    ensures NextToken(Escape(b) + rest) == Some((Byte(b), |Escape(b)|))
  {
    var t := Escape(b) + rest;
    if !Special(b) && !Printable(b) {
      assert t[1] == 0x30 + b / 100 && t[2] == 0x30 + b % 100 / 10 && t[3] == 0x30 + b % 10;
      assert b / 100 * 100 + b % 100 / 10 * 10 + b % 10 == b;
    }
  }

  function Bytes(s: seq<byte>): seq<Token> {
    if s == [] then [] else [Byte(s[0])] + Bytes(s[1..])
  }

  function DottedTokens(labels: Labels): seq<Token> {
    if labels == [] then [] else [Dot] + Bytes(labels[0]) + DottedTokens(labels[1..])
  }

  lemma {:induction false} TokensOfEscapes(s: seq<byte>, rest: seq<byte>, toks: seq<Token>)
    requires Tokens(rest) == Some(toks)
    ensures Tokens(EscapeAll(s) + rest) == Some(Bytes(s) + toks)
  {
    if s == [] {
      assert EscapeAll(s) + rest == rest && Bytes(s) + toks == toks;
    } else {
      TokensOfEscapes(s[1..], rest, toks);
      var e, more := Escape(s[0]), EscapeAll(s[1..]) + rest;
      Assoc(e, EscapeAll(s[1..]), rest);
      TokenOfEscape(s[0], more);
      TokensCons(e, more, Byte(s[0]), Bytes(s[1..]) + toks);
      Assoc([Byte(s[0])], Bytes(s[1..]), toks);
    }
  }

  lemma TokensCons(e: seq<byte>, more: seq<byte>, tok: Token, toks: seq<Token>)
    requires e != [] && NextToken(e + more) == Some((tok, |e|)) && Tokens(more) == Some(toks)
    ensures Tokens(e + more) == Some([tok] + toks)
  {
    assert (e + more)[|e|..] == more;
  }

  lemma {:induction false} TokensOfDotted(labels: Labels, rest: seq<byte>, toks: seq<Token>)
    requires Tokens(rest) == Some(toks)
    ensures Tokens(DottedText(labels) + rest) == Some(DottedTokens(labels) + toks)
  {
    if labels == [] {
      assert DottedText(labels) + rest == rest && DottedTokens(labels) + toks == toks;
    } else {
      var text, tokens := DottedText(labels[1..]), DottedTokens(labels[1..]);
      TokensOfDotted(labels[1..], rest, toks);
      TokensOfEscapes(labels[0], text + rest, tokens + toks);
      TokensCons([DOT], EscapeAll(labels[0]) + (text + rest), Dot, Bytes(labels[0]) + (tokens + toks));
      Assoc4([DOT], EscapeAll(labels[0]), text, rest);
      Assoc4([Dot], Bytes(labels[0]), tokens, toks);
    }
  }

  lemma {:induction false} SplitBytes(s: seq<byte>, toks: seq<Token>)
    ensures Split(Bytes(s) + toks) == [s + Split(toks)[0]] + Split(toks)[1..]
  {
    if s == [] {
      assert Bytes(s) + toks == toks && s + Split(toks)[0] == Split(toks)[0];
    } else {
      SplitBytes(s[1..], toks);
      Assoc([Byte(s[0])], Bytes(s[1..]), toks);
      SplitCons(Byte(s[0]), Bytes(s[1..]) + toks);
      CutHead(s);
      Assoc([s[0]], s[1..], Split(toks)[0]);
    }
  }

  lemma SplitCons(t: Token, toks: seq<Token>)
    ensures Split([t] + toks)
         == (match t
             case Dot => [[]] + Split(toks)
             case Byte(b) => [[b] + Split(toks)[0]] + Split(toks)[1..])
  {
    assert ([t] + toks)[1..] == toks;
  }

  lemma OneMoreLabel(labels: Labels, more: seq<seq<byte>>)
    requires labels != []
    ensures var s := [[]] + labels[1..] + more;
            s[0] == [] && [[]] + ([labels[0] + s[0]] + s[1..]) == [[]] + labels + more
  {
    FirstOfSplit(labels, more);
    Assoc([[]], labels, more);
  }

  lemma {:induction false} SplitDotted(labels: Labels, toks: seq<Token>)
    requires Split(toks)[0] == []
    ensures Split(DottedTokens(labels) + toks) == [[]] + labels + Split(toks)[1..]
  {
    if labels == [] {
      assert DottedTokens(labels) + toks == toks && Split(toks) == [[]] + [] + Split(toks)[1..];
    } else {
      var rest := DottedTokens(labels[1..]) + toks;
      SplitDotted(labels[1..], toks);
      SplitBytes(labels[0], rest);
      SplitCons(Dot, Bytes(labels[0]) + rest);
      Assoc4([Dot], Bytes(labels[0]), DottedTokens(labels[1..]), toks);
      OneMoreLabel(labels, Split(toks)[1..]);
    }
  }

  // Reading the text of a list of labels gives the labels back.
  lemma TextRoundTrip(labels: Labels)
    requires ShortLabels(labels)
    ensures var t := TextOf(labels);
            Names(t) && NamedLabels(t) == labels && (Absolute(t) <==> labels == [])
  {
    if labels != [] {
      TextSplits(labels, [], []);
      assert TextOf(labels) + [] == TextOf(labels) && Split([])[1..] == [] && labels + [] == labels;
      TextIsNotDot(labels);
    }
  }

  // With a dot behind it the text is absolute, and names the same labels.
  lemma DotMakesAbsolute(labels: Labels)
    requires ShortLabels(labels)
    ensures var t := TextOf(labels) + [DOT]; Names(t) && NamedLabels(t) == labels && Absolute(t)
  {
    if labels != [] {
      DotAlone();
      TextSplits(labels, [DOT], [Dot]);
      assert Split([Dot])[1..] == [[]];
      assert (labels + [[]])[..|labels|] == labels;
    }
  }

  lemma DotAlone()
    ensures Tokens([DOT]) == Some([Dot]) && Split([Dot]) == [[], []]
  {
    assert [DOT][1..] == [];
    assert Tokens([]) == Some([]) && [Dot] + [] == [Dot];
    SplitCons(Dot, []);
    assert [Dot] + [] == [Dot] && Split([]) == [[]];
  }

  lemma TextSplits(labels: Labels, more: seq<byte>, toks: seq<Token>)
    requires ShortLabels(labels) && labels != [] && Tokens(more) == Some(toks) && Split(toks)[0] == []
    ensures var t := TextOf(labels) + more; Tokens(t).Some? && Split(Tokens(t).value) == labels + Split(toks)[1..]
  {
    var rest := labels[1..];
    TokensOfDotted(rest, more, toks);
    TokensOfEscapes(labels[0], DottedText(rest) + more, DottedTokens(rest) + toks);
    Assoc(EscapeAll(labels[0]), DottedText(rest), more);
    SplitBytes(labels[0], DottedTokens(rest) + toks);
    SplitDotted(rest, toks);
    FirstOfSplit(labels, Split(toks)[1..]);
  }

  lemma FirstOfSplit(labels: Labels, more: seq<seq<byte>>)
    requires labels != []
    ensures var s := [[]] + labels[1..] + more; s[0] == [] && [labels[0] + s[0]] + s[1..] == labels + more
  {
    var s := [[]] + labels[1..] + more;
    assert labels[0] + [] == labels[0];
    assert s[1..] == labels[1..] + more;
    CutHead(labels);
    Assoc([labels[0]], labels[1..], more);
  }

  lemma TextIsNotDot(labels: Labels)
    requires labels != [] && labels[0] != []
    ensures TextOf(labels) != [DOT]
  {
    assert TextOf(labels)[0] == Escape(labels[0][0])[0];
  }

  // ---------- which bytes are escaped ----------

  // The bytes " $ . ; @ \ get a backslash; the others from ! to ~ stand for themselves; the rest are given by
  // a backslash and three decimal digits.
  lemma EscapeIs(b: byte)
    ensures b in {34, 36, 46, 59, 64, 92} ==> Escape(b) == [92, b]
    ensures 33 <= b <= 126 && b !in {34, 36, 46, 59, 64, 92} ==> Escape(b) == [b]
    ensures !(33 <= b <= 126) ==>
              var e := Escape(b); |e| == 4 && e[0] == 92 && AllDigits(e[1..]) && Decimal(e[1..]) == b
  {
    if !(33 <= b <= 126) {
      var ds := Escape(b)[1..];
      assert ds == [0x30 + b / 100, 0x30 + b % 100 / 10, 0x30 + b % 10];
      ThreeDigits(ds);
      assert b / 100 * 100 + b % 100 / 10 * 10 + b % 10 == b;
    }
  }

  ghost predicate AllDigits(ds: seq<byte>) {
    forall i :: 0 <= i < |ds| ==> 48 <= ds[i] <= 57
  }

  ghost function Numeral(digit: int): int {
    digit - 48
  }

  ghost function Decimal(ds: seq<byte>): int {
    if ds == [] then 0 else Decimal(ds[..|ds| - 1]) * 10 + Numeral(ds[|ds| - 1])
  }

  lemma ThreeDigits(ds: seq<byte>)
    ensures |ds| == 1 ==> Decimal(ds) == Numeral(ds[0])
    ensures |ds| == 2 ==> Decimal(ds) == Numeral(ds[0]) * 10 + Numeral(ds[1])
    ensures |ds| == 3 ==> Decimal(ds) == Numeral(ds[0]) * 100 + Numeral(ds[1]) * 10 + Numeral(ds[2])
  {
    if |ds| == 3 {
      assert ds[..2][..1] == ds[..1];
    }
  }

  // A backslash and one to three digits, as many as there are, stand for the byte with this number.
  lemma DigitsRead(ds: seq<byte>, rest: seq<byte>)
    requires 1 <= |ds| <= 3 && AllDigits(ds) && (|ds| == 3 || rest == [] || !(48 <= rest[0] <= 57))
    ensures NextToken([92] + ds + rest)
         == if 0 <= Decimal(ds) < 256 then Some((Byte(Decimal(ds)), 1 + |ds|)) else None
  {
    ThreeDigits(ds);
    var t := [92] + ds + rest;
    assert t[1..1 + |ds|] == ds;
    assert forall i :: 0 <= i < |ds| ==> t[1 + i] == ds[i];
    assert rest != [] ==> t[1 + |ds|] == rest[0];
  }

  // The labels with dots between them
  function WithDots(labels: Labels): seq<byte> {
    if labels == [] then [] else if |labels| == 1 then labels[0] else labels[0] + [46] + WithDots(labels[1..])
  }

  // A host name, or any name of bytes that need no escape, stands for itself in the text.
  lemma {:induction false} PlainText(labels: Labels)
    requires forall i, j :: 0 <= i < |labels| && 0 <= j < |labels[i]| ==>
               33 <= labels[i][j] <= 126 && labels[i][j] !in {34, 36, 46, 59, 64, 92}
    ensures TextOf(labels) == WithDots(labels)
    ensures DottedText(labels) == if labels == [] then [] else [46] + WithDots(labels)
  {
    if labels != [] {
      PlainBytes(labels[0]);
      PlainText(labels[1..]);
      if |labels| == 1 {
        assert TextOf(labels) == labels[0] + [];
      }
    }
  }

  lemma {:induction false} PlainBytes(s: seq<byte>)
    requires forall j :: 0 <= j < |s| ==> 33 <= s[j] <= 126 && s[j] !in {34, 36, 46, 59, 64, 92}
    ensures EscapeAll(s) == s
  {
    if s != [] {
      PlainBytes(s[1..]);
      EscapeIs(s[0]);
    }
  }

  // The text has no zero byte, so as a C string it ends where it should.
  lemma {:induction false} NoZeroInText(labels: Labels)
    ensures 0 !in DottedText(labels) && 0 !in TextOf(labels)
  {
    if labels != [] {
      NoZeroInEscapes(labels[0]);
      NoZeroInText(labels[1..]);
    }
  }

  lemma {:induction false} NoZeroInEscapes(s: seq<byte>)
    ensures 0 !in EscapeAll(s)
  {
    if s != [] {
      NoZeroInEscapes(s[1..]);
      assert 0 !in Escape(s[0]);
    }
  }

  // ---------- how long the text can get ----------

  lemma {:induction false} EscapesLength(s: seq<byte>)
    ensures |s| <= |EscapeAll(s)| <= 4 * |s|
  {
    if s != [] {
      EscapesLength(s[1..]);
    }
  }

  lemma {:induction false} DottedLength(labels: Labels)
    requires Labelled(labels)
    ensures |DottedText(labels)| + 3 * |labels| <= 4 * |LabelBytes(labels)|
    ensures |LabelBytes(labels)| >= 2 * |labels|
  {
    if labels != [] {
      DottedLength(labels[1..]);
      EscapesLength(labels[0]);
    }
  }

  // Four bytes for each byte of a label, one for each dot: a name of n wire bytes never needs more
  // than 4n - 7 bytes of text, 1013 for the longest legal name. The cap at 1024 never fires, not even
  // one byte beyond the legal length.
  lemma TextSizeBound(labels: Labels)
    requires Labelled(labels)
    ensures labels != [] ==> TextSize(labels) + 7 <= 4 * |Wire(labels)|
    ensures |Wire(labels)| <= MAXDN ==> TextSize(labels) <= 1013
    ensures |Wire(labels)| <= MAXDN + 1 ==> TextSize(labels) <= MAXNAME
  {
    DottedLength(labels);
    if labels != [] {
      assert |DottedText(labels)| == 1 + |TextOf(labels)|;
    }
  }
}
