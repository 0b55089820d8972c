// dns_ptodn: reading the text form of a domain name.
module DnFromText {
  import opened Seqs
  import opened DomainNames

  // strlen
  function StrLen(s: seq<byte>): (n: nat)
    requires 0 in s
    ensures n < |s| && s[n] == 0 && 0 !in s[..n]
  {
    if s[0] == 0 then 0 else
      var n := 1 + StrLen(s[1..]);
      assert s[..n] == [s[0]] + s[1..][..n - 1];
      n
  }

  // The text that dns_ptodn reads: namelen bytes, or a C string when namelen is 0.
  function TextArg(name: seq<byte>, namelen: nat): seq<byte>
    requires namelen <= |name| && (namelen == 0 ==> 0 in name)
  {
    name[..if namelen != 0 then namelen else StrLen(name)]
  }

  // ---------- the pieces read so far ----------

  lemma {:induction false} SplitConcat(a: seq<Token>, b: seq<Token>)
    ensures var s := Split(a);
            Split(a + b) == s[..|s| - 1] + [s[|s| - 1] + Split(b)[0]] + Split(b)[1..]
  {
    if a == [] {
      assert a + b == b && Split(a) == [[]];
      assert [] + Split(b)[0] == Split(b)[0];
    } else {
      SplitConcat(a[1..], b);
      Assoc([a[0]], a[1..], b);
      CutHead(a);
      SplitCons(a[0], a[1..]);
      SplitCons(a[0], a[1..] + b);
      var r := Split(a[1..]);
      SplitConcatStep(a[0], r, Split(b), Split(a[1..] + b), Split(a), Split(a + b));
    }
  }

  lemma SplitConcatStep(t: Token, r: seq<seq<byte>>, sb: seq<seq<byte>>, rb: seq<seq<byte>>, sa: seq<seq<byte>>,
                        sab: seq<seq<byte>>)
    requires r != [] && sb != [] && rb == r[..|r| - 1] + [r[|r| - 1] + sb[0]] + sb[1..]
    requires sa == (match t case Dot => [[]] + r case Byte(b) => [[b] + r[0]] + r[1..])
    requires sab == (match t case Dot => [[]] + rb case Byte(b) => [[b] + rb[0]] + rb[1..])
    ensures sab == sa[..|sa| - 1] + [sa[|sa| - 1] + sb[0]] + sb[1..]
  {
    if t.Byte? && |r| == 1 {
      Assoc([t.value], r[0], sb[0]);
    }
  }

  // What has been read is `done`: the finished pieces `full`, and `cur` behind the last dot.
  ghost predicate Reading(t: seq<byte>, np: nat, done: seq<Token>, full: Labels, cur: seq<byte>) {
    && np <= |t|
    && Tokens(t) == (match Tokens(t[np..]) case None => None case Some(rest) => Some(done + rest))
    && Split(done) == full + [cur]
    && ShortLabels(full)
    && (np == 0 ==> done == [])
    && (np > 0 ==> t != [DOT])
  }

  lemma ReadToken(t: seq<byte>, np: nat, done: seq<Token>, full: Labels, cur: seq<byte>, tok: Token, n: nat)
    requires Reading(t, np, done, full, cur) && np < |t| && NextToken(t[np..]) == Some((tok, n)) && t != [DOT]
    requires tok == Dot ==> 1 <= |cur| <= MAXLABEL
    ensures tok == Dot ==> Reading(t, np + n, done + [tok], full + [cur], [])
    ensures tok.Byte? ==> Reading(t, np + n, done + [tok], full, cur + [tok.value])
  {
    assert t[np..][n..] == t[np + n..];
    match Tokens(t[np + n..]) {
      case None =>
      case Some(rest) => Assoc(done, [tok], rest);
    }
    SplitConcat(done, [tok]);
    SplitOne(tok);
    var s := full + [cur];
    assert s[..|s| - 1] == full && s[|s| - 1] == cur;
    if tok == Dot {
      assert cur + [] == cur;
    }
  }

  lemma SplitOne(tok: Token)
    ensures Split([tok]) == (match tok case Dot => [[], []] case Byte(b) => [[b]])
  {
    var none: seq<Token> := [];
    var s := Split(none);
    assert s == [[]] && s[1..] == [];
    assert [tok] == [tok] + none;
    SplitCons(tok, none);
    if tok.Byte? { assert [tok.value] + s[0] == [tok.value]; }
  }

  // The pieces of the whole text begin with the finished ones and continue the current one.
  lemma WholeSplit(t: seq<byte>, np: nat, done: seq<Token>, full: Labels, cur: seq<byte>)
    requires Reading(t, np, done, full, cur) && Tokens(t).Some?
    ensures Tokens(t[np..]).Some?
    ensures var r := Split(Tokens(t[np..]).value); Split(Tokens(t).value) == full + [cur + r[0]] + r[1..]
  {
    SplitConcat(done, Tokens(t[np..]).value);
    var s := full + [cur];
    assert s[..|s| - 1] == full && s[|s| - 1] == cur;
  }

  // A dot behind an empty or an overlong piece: the text names nothing.
  lemma BadPiece(t: seq<byte>, np: nat, done: seq<Token>, full: Labels, cur: seq<byte>)
    requires Reading(t, np, done, full, cur) && np < |t| && t[np] == DOT && t != [DOT]
    requires |cur| == 0 || |cur| > MAXLABEL
    ensures !Names(t)
  {
    if Tokens(t).Some? {
      WholeSplit(t, np, done, full, cur);
      var toks := Tokens(t[np..]).value;
      assert toks[0] == Dot;
      CutHead(toks);
      SplitCons(Dot, toks[1..]);
      assert cur + [] == cur;
      assert Split(Tokens(t).value)[|full|] == cur;
    }
  }

  // A token that cannot be read: the text names nothing.
  lemma BadToken(t: seq<byte>, np: nat, done: seq<Token>, full: Labels, cur: seq<byte>)
    requires Reading(t, np, done, full, cur) && np < |t| && NextToken(t[np..]) == None
    ensures !Names(t)
  {
  }

  // One more byte would not fit: neither does the name.
  lemma TooLong(t: seq<byte>, np: nat, done: seq<Token>, full: Labels, cur: seq<byte>)
    requires Reading(t, np, done, full, cur) && np < |t| && t[np] != DOT
    requires Names(t)
    ensures Labelled(full) && |Wire(NamedLabels(t))| >= |LabelBytes(full)| + |cur| + 3
  {
    assert t != [DOT];
    WholeSplit(t, np, done, full, cur);
    PieceHasByte(t[np..]);
    var s := Split(Tokens(t).value);
    var labels := NamedLabels(t);
    var l := s[|full|];
    assert |labels| > |full| && labels[|full|] == l;
    assert forall i :: 0 <= i < |full| ==> labels[i] == s[i] == full[i];
    Longer(labels, full, l);
  }

  lemma PieceHasByte(t: seq<byte>)
    requires t != [] && t[0] != DOT && Tokens(t).Some?
    ensures |Split(Tokens(t).value)[0]| >= 1
  {
    var toks := Tokens(t).value;
    assert toks[0].Byte?;
    CutHead(toks);
    SplitCons(toks[0], toks[1..]);
  }

  lemma Longer(labels: Labels, full: Labels, l: seq<byte>)
    requires Labelled(labels) && |labels| > |full| && labels[|full|] == l
    requires forall i :: 0 <= i < |full| ==> labels[i] == full[i]
    ensures Labelled(full) && |Wire(labels)| >= |LabelBytes(full)| + |l| + 2
  {
    var rest := labels[|full|..];
    assert labels == full + rest && rest[0] == l;
    assert forall i :: 0 <= i < |full| ==> 1 <= |labels[i]| < 256;
    LabelBytesConcat(full, rest);
  }

  // The end of the text: what it names, if anything.
  lemma EndOfText(t: seq<byte>, done: seq<Token>, full: Labels, cur: seq<byte>)
    requires Reading(t, |t|, done, full, cur) && t != []
    ensures Names(t) <==> |cur| <= MAXLABEL
    ensures Names(t) ==> NamedLabels(t) == (if cur == [] then full else full + [cur]) && (Absolute(t) <==> cur == [])
  {
    assert t[|t|..] == [];
    assert done + [] == done;
    var s := full + [cur];
    assert s[|s| - 1] == cur && s[..|s| - 1] == full;
    assert forall i :: 0 <= i < |full| ==> s[i] == full[i];
  }

  lemma RootTexts()
    ensures Names([]) && NamedLabels([]) == [] && Absolute([])
    ensures Names([DOT]) && NamedLabels([DOT]) == [] && Absolute([DOT])
  {
    assert Split([]) == [[]];
    SplitOne(Dot);
    var t: seq<byte> := [DOT];
    assert t[1..] == [];
    assert NextToken(t) == Some((Dot, 1)) && Tokens(t[1..]) == Some([]);
    assert [Dot] + [] == [Dot];
  }

  // ---------- the loop ----------

  // The finished pieces stand in dn behind their lengths; the current one stands at llab..dp.
  ghost predicate Laid(dn: array<byte>, full: Labels, cur: seq<byte>, llab: nat, dp: nat)
    reads dn
  {
    && Labelled(full)
    && llab == |LabelBytes(full)| + 1
    && dp == llab + |cur| <= dn.Length
    && dn[..llab - 1] == LabelBytes(full)
    && dn[llab..dp] == cur
  }

  // dns_ptodn. isabs has a meaning only when r > 0.
  method PToDn(name: seq<byte>, namelen: nat, dn: array<byte>, dnsiz: nat) returns (r: int, isabs: bool)
    requires namelen <= |name| && (namelen == 0 ==> 0 in name)
    requires Min(dnsiz, MAXDN) <= dn.Length
    modifies dn
    ensures var t := TextArg(name, namelen);
            r > 0 <==> Names(t) && |Wire(NamedLabels(t))| <= Min(dnsiz, MAXDN)
    ensures var t := TextArg(name, namelen);
            r > 0 ==> r == |Wire(NamedLabels(t))| && dn[..r] == Wire(NamedLabels(t)) && (isabs <==> Absolute(t))
    ensures r <= 0 ==> r == 0 || r == -1
    ensures r <= 0 && (dnsiz >= MAXDN || Names(TextArg(name, namelen))) ==> r == if dnsiz >= MAXDN then -1 else 0
  {
    isabs := false;
    if dnsiz == 0 {
      return 0, isabs;
    }
    ghost var t := TextArg(name, namelen);
    var ne := if namelen != 0 then namelen else StrLen(name);
    var m := if dnsiz >= MAXDN then MAXDN else dnsiz;
    var de := m - 1;
    var dp: nat, llab: nat, np: nat := 1, 1, 0;
    ghost var done: seq<Token>, full: Labels, cur: seq<byte> := [], [], [];
    assert t[0..] == t && full + [cur] == [cur] && (Tokens(t).Some? ==> [] + Tokens(t).value == Tokens(t).value);
    var root := false;
    while np < ne
      invariant np <= ne && t == name[..ne]
      invariant root ==> t == [DOT] && np == ne && full == [] && cur == []
      invariant !root ==> Reading(t, np, done, full, cur)
      invariant Laid(dn, full, cur, llab, dp) && llab <= m && (cur != [] ==> dp <= de)
      decreases ne - np
    {
      if name[np] == DOT && dp == llab && np == 0 && np + 1 == ne {
        np := np + 1;
        root := true;
        break;
      }
      NothingRead(t, np, done, full, cur);
      var err;
      np, dp, llab, err, done, full, cur := ReadOne(name, ne, t, np, dn, dp, llab, de, dnsiz, done, full, cur);
      if err != 1 {
        return err, isabs;
      }
    }
    r, isabs := Finish(t, dn, dp, llab, m, root, done, full, cur);
  }

  lemma NothingRead(t: seq<byte>, np: nat, done: seq<Token>, full: Labels, cur: seq<byte>)
    requires Reading(t, np, done, full, cur)
    ensures np == 0 ==> full == [] && cur == []
  {
    if np == 0 {
      assert Split(done) == [[]] && |Split(done)| == |full + [cur]|;
      assert cur == Split(done)[|full|];
    }
  }

  // The end of the text: the length of the last piece, and the terminator unless that piece is empty.
  method Finish(ghost t: seq<byte>, dn: array<byte>, dp0: nat, llab: nat, ghost m: nat, ghost root: bool,
                ghost done: seq<Token>, ghost full: Labels, ghost cur: seq<byte>)
    returns (r: int, isabs: bool)
    requires if root then t == [DOT] && full == [] && cur == [] else Reading(t, |t|, done, full, cur)
    requires Laid(dn, full, cur, llab, dp0) && 0 < llab <= m <= dn.Length && (cur != [] ==> dp0 <= m - 1)
    modifies dn
    ensures r > 0 <==> Names(t)
    ensures r > 0 ==> r == |Wire(NamedLabels(t))| <= m && dn[..r] == Wire(NamedLabels(t)) && (isabs <==> Absolute(t))
    ensures r <= 0 ==> r == -1
  {
    NamesAtEnd(t, root, done, full, cur);
    if dp0 - llab > MAXLABEL {
      return -1, false;
    }
    r, isabs := Terminate(dn, dp0, llab, m, full, cur);
  }

  method Terminate(dn: array<byte>, dp0: nat, llab: nat, ghost m: nat, ghost full: Labels, ghost cur: seq<byte>)
    returns (r: int, isabs: bool)
    requires Laid(dn, full, cur, llab, dp0) && 0 < llab <= m <= dn.Length && (cur != [] ==> dp0 <= m - 1)
    requires |cur| <= MAXLABEL
    modifies dn
    ensures isabs <==> cur == []
    ensures var labels := if cur == [] then full else full + [cur];
            r == |Wire(labels)| <= m && dn[..r] == Wire(labels)
  {
    var dp := dp0;
    var c := dp - llab;
    dn[llab - 1] := c;
    if c != 0 {
      dn[dp] := 0;
      dp := dp + 1;
      isabs := false;
      LastLabel(full, cur);
      FourParts(dn[..], llab, dp - 1, LabelBytes(full), cur);
    } else {
      isabs := true;
      assert dn[..dp] == LabelBytes(full) + [0];
    }
    return dp, isabs;
  }

  lemma NamesAtEnd(t: seq<byte>, root: bool, done: seq<Token>, full: Labels, cur: seq<byte>)
    requires if root then t == [DOT] && full == [] && cur == [] else Reading(t, |t|, done, full, cur)
    ensures Names(t) <==> |cur| <= MAXLABEL
    ensures Names(t) ==> NamedLabels(t) == (if cur == [] then full else full + [cur]) && (Absolute(t) <==> cur == [])
  {
    RootTexts();
    if t == [] {
      assert Split(done) == [[]] && |Split(done)| == |full + [cur]|;
      assert cur == Split(done)[0];
    } else if !root {
      EndOfText(t, done, full, cur);
    }
  }

  lemma LastLabel(full: Labels, cur: seq<byte>)
    requires Labelled(full) && 1 <= |cur| < 256
    ensures Wire(full + [cur]) == LabelBytes(full) + [|cur|] + cur + [0]
  {
    OneLabel(cur);
    LabelBytesConcat(full, [cur]);
    Assoc(LabelBytes(full), [|cur|], cur);
  }

  lemma FourParts(s: seq<byte>, llab: nat, dp: nat, a: seq<byte>, cur: seq<byte>)
    requires 1 <= llab <= dp < |s| && |cur| < 256
    requires s[..llab - 1] == a && s[llab - 1] == |cur| && s[llab..dp] == cur && s[dp] == 0
    ensures s[..dp + 1] == a + [|cur|] + cur + [0]
  {
  }

  // One round of the loop: a dot or a byte. err is 1 to go on, else the value to return.
  method ReadOne(name: seq<byte>, ne: nat, ghost t: seq<byte>, np0: nat, dn: array<byte>, dp0: nat, llab0: nat,
                 de: nat, dnsiz: nat, ghost done0: seq<Token>, ghost full0: Labels, ghost cur0: seq<byte>)
    returns (np: nat, dp: nat, llab: nat, err: int, ghost done: seq<Token>, ghost full: Labels, ghost cur: seq<byte>)
    requires ne <= |name| && t == name[..ne] && np0 < ne && t != [DOT]
    requires Reading(t, np0, done0, full0, cur0)
    requires Laid(dn, full0, cur0, llab0, dp0) && llab0 <= de + 1 && (cur0 != [] ==> dp0 <= de)
    requires de + 1 == Min(dnsiz, MAXDN) <= dn.Length
    modifies dn
    ensures np0 < np <= ne
    ensures err == 1 ==> Reading(t, np, done, full, cur)
    ensures err == 1 ==> Laid(dn, full, cur, llab, dp) && llab <= de + 1 && (cur != [] ==> dp <= de)
    ensures err != 1 ==> !(Names(t) && |Wire(NamedLabels(t))| <= Min(dnsiz, MAXDN))
    ensures err != 1 ==> err == 0 || err == -1
    ensures err != 1 && (dnsiz >= MAXDN || Names(t)) ==> err == if dnsiz >= MAXDN then -1 else 0
  {
    assert t[np0..][0] == name[np0];
    if name[np0] == DOT {
      np, dp, llab, done, cur := np0 + 1, dp0 + 1, dp0 + 1, done0 + [Dot], [];
      err, full := ReadDot(t, np0, dn, dp0, llab0, done0, full0, cur0);
    } else if dp0 >= de {
      if Names(t) { TooLong(t, np0, done0, full0, cur0); }
      err := if dnsiz >= MAXDN then -1 else 0;
      np, dp, llab, done, full, cur := np0 + 1, dp0, llab0, done0, full0, cur0;
    } else {
      llab, full := llab0, full0;
      err, np, dp, done, cur := ReadChar(name, ne, t, np0, dn, dp0, llab0, done0, full0, cur0);
    }
  }

  // A dot ends the current piece.
  method ReadDot(ghost t: seq<byte>, np: nat, dn: array<byte>, dp: nat, llab: nat,
                 ghost done: seq<Token>, ghost full: Labels, ghost cur: seq<byte>)
    returns (err: int, ghost full': Labels)
    requires np < |t| && t[np] == DOT && t != [DOT] && Reading(t, np, done, full, cur)
    requires Laid(dn, full, cur, llab, dp) && (cur != [] ==> dp < dn.Length)
    modifies dn
    ensures err == 1 ==> Reading(t, np + 1, done + [Dot], full', []) && Laid(dn, full', [], dp + 1, dp + 1)
    ensures err == 1 ==> cur != []
    ensures err != 1 ==> err == -1 && !Names(t)
  {
    full' := full + [cur];
    var c := dp - llab;
    if c == 0 || c > MAXLABEL {
      BadPiece(t, np, done, full, cur);
      return -1, full';
    }
    assert t[np..][0] == DOT;
    ReadToken(t, np, done, full, cur, Dot, 1);
    CloseLabel(dn, full, cur, llab, dp);
    return 1, full';
  }

  // Any other byte, or an escape, extends the current piece.
  method ReadChar(name: seq<byte>, ne: nat, ghost t: seq<byte>, np0: nat, dn: array<byte>, dp0: nat, ghost llab: nat,
                  ghost done: seq<Token>, ghost full: Labels, ghost cur: seq<byte>)
    returns (err: int, np: nat, dp: nat, ghost done': seq<Token>, ghost cur': seq<byte>)
    requires ne <= |name| && t == name[..ne] && np0 < ne && t[np0] != DOT && t != [DOT]
    requires Reading(t, np0, done, full, cur) && Laid(dn, full, cur, llab, dp0) && dp0 < dn.Length
    modifies dn
    ensures np0 < np <= ne
    ensures err == 1 ==> Reading(t, np, done', full, cur') && Laid(dn, full, cur', llab, dp) && dp == dp0 + 1
    ensures err != 1 ==> err == -1 && !Names(t)
  {
    np, dp, done', cur' := np0, dp0, done, cur;
    assert name[np..ne] == t[np..];
    var c, n := ReadByte(name, ne, np);
    if n == 0 {
      BadToken(t, np, done, full, cur);
      return -1, np + 1, dp, done, cur;
    }
    ReadToken(t, np, done, full, cur, Byte(c), n);
    done', cur' := done + [Byte(c)], cur + [c];
    dn[dp] := c;
    dp := dp + 1;
    np := np + n;
    assert dn[llab..dp] == dn[llab..dp - 1] + [c];
    return 1, np, dp, done', cur';
  }

  // The dot: the length goes in front of the piece.
  method CloseLabel(dn: array<byte>, ghost full: Labels, ghost cur: seq<byte>, llab: nat, dp: nat)
    requires Laid(dn, full, cur, llab, dp) && 1 <= |cur| <= MAXLABEL && dp < dn.Length
    modifies dn
    ensures Laid(dn, full + [cur], [], dp + 1, dp + 1)
  {
    dn[llab - 1] := dp - llab;
    LabelBytesConcat(full, [cur]);
    assert LabelBytes([cur]) == [|cur|] + cur;
    assert dn[..dp] == dn[..llab - 1] + [dn[llab - 1]] + dn[llab..dp];
  }

  // A plain byte or an escape at np: the byte it stands for and how much text it takes, 0 if it is bad.
  method ReadByte(name: seq<byte>, ne: nat, np0: nat) returns (b: byte, n: nat)
    requires np0 < ne <= |name| && name[np0] != DOT
    ensures var k := NextToken(name[np0..ne]);
            if n == 0 then k == None else k == Some((Byte(b), n))
  {
    ghost var t := name[np0..ne];
    var np := np0;
    if name[np] != BACKSLASH {
      return name[np], 1;
    }
    np := np + 1;
    if np == ne {
      return 0, 0;
    } else if 0x30 <= name[np] <= 0x39 {
      assert t[1] == name[np];
      var c: nat := name[np] - 0x30;
      np := np + 1;
      if np < ne && 0x30 <= name[np] <= 0x39 {
        assert t[2] == name[np];
        c := c * 10 + name[np] - 0x30;
        np := np + 1;
        if np < ne && 0x30 <= name[np] <= 0x39 {
          assert t[3] == name[np];
          c := c * 10 + name[np] - 0x30;
          np := np + 1;
          if c > 255 {
            return 0, 0;
          }
        }
      }
      return c, np - np0;
    } else {
      return name[np], 2;
    }
  }

  // ---------- there and back ----------

  lemma {:induction false} StrLenOf(text: seq<byte>, post: seq<byte>)
    requires 0 !in text
    ensures 0 in text + [0] + post && StrLen(text + [0] + post) == |text|
  {
    var s := text + [0] + post;
    assert s[|text|] == 0;
    assert forall i :: 0 <= i < |text| ==> s[i] == text[i];
    var n := StrLen(s);
    assert forall i :: 0 <= i < n ==> s[..n][i] == s[i];
  }

  // A buffer that dns_dntop has filled from a well-formed name, given to dns_ptodn as a C string:
  // dns_ptodn reads the same labels back, so by its contract it writes the same wire bytes.
  lemma BufferRoundTrip(labels: Labels, buf: seq<byte>)
    requires ShortLabels(labels) && |Wire(labels)| <= MAXDN
    requires TextSize(labels) <= |buf| && buf[..TextSize(labels)] == TextOf(labels) + [0]
    ensures 0 in buf && TextArg(buf, 0) == TextOf(labels)
    ensures Names(TextArg(buf, 0)) && NamedLabels(TextArg(buf, 0)) == labels
  {
    var text := TextOf(labels);
    NoZeroInText(labels);
    StrLenOf(text, buf[|text| + 1..]);
    assert buf == text + [0] + buf[|text| + 1..];
    TextRoundTrip(labels);
  }

  // What dns_ptodn accepts is a well-formed name, and dns_dnlen of it is the value returned.
  lemma AcceptedIsWellFormed(t: seq<byte>, dn: seq<byte>)
    requires Names(t) && |Wire(NamedLabels(t))| <= |dn| && dn[..|Wire(NamedLabels(t))|] == Wire(NamedLabels(t))
    ensures ShortLabels(NamedLabels(t)) && Terminated(dn, 0) && LabelsAt(dn, 0) == NamedLabels(t)
  {
    var w := Wire(NamedLabels(t));
    Prefix(w, dn);
    LabelsOfWire([], NamedLabels(t), dn[|w|..]);
  }
}
