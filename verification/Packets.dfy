// Names inside packets: compression pointers (section 4.1.4 of RFC 1035) and the loops of
// udns_parse.c that follow or skip them.
module Packets {
  import opened Seqs
  import opened DomainNames

  const HSIZE := 12
  const MAXJUMPS := 100

  // ---------- what a name in a packet is ----------

  // A length byte with any of its two high bits set starts a pointer.
  predicate IsPointer(c: byte) {
    c >= 64
  }

  function Target(pkt: seq<byte>, pos: nat): nat
    requires pos + 1 < |pkt|
  {
    var hi: nat := pkt[pos];
    var lo: nat := pkt[pos + 1];
    hi % 64 * 256 + lo
  }

  // The bytes at pos spell these labels, by way of exactly this many pointers, none into the header.
  ghost predicate NameAt(pkt: seq<byte>, pos: nat, jumps: nat, labels: Labels)
    decreases jumps, |labels|
  {
    pos < |pkt| &&
    if pkt[pos] == 0 then
      labels == [] && jumps == 0
    else if IsPointer(pkt[pos]) then
      jumps > 0 && pos + 1 < |pkt| && Target(pkt, pos) >= HSIZE && NameAt(pkt, Target(pkt, pos), jumps - 1, labels)
    else
      var next := pos + 1 + pkt[pos];
      && labels != [] && next <= |pkt| && labels[0] == pkt[pos + 1..next]
      && NameAt(pkt, next, jumps, labels[1..])
  }

  // A position spells at most one list of labels.
  lemma {:induction false} NameAtUnique(pkt: seq<byte>, pos: nat, j1: nat, l1: Labels, j2: nat, l2: Labels)
    requires NameAt(pkt, pos, j1, l1) && NameAt(pkt, pos, j2, l2)
    ensures j1 == j2 && l1 == l2
    decreases j1, |l1|
  {
    if pkt[pos] == 0 {
    } else if IsPointer(pkt[pos]) {
      NameAtUnique(pkt, Target(pkt, pos), j1 - 1, l1, j2 - 1, l2);
    } else {
      NameAtUnique(pkt, pos + 1 + pkt[pos], j1, l1[1..], j2, l2[1..]);
      CutHead(l1);
      CutHead(l2);
    }
  }

  // The labels at pos when at most this many pointers lead to the end of the name.
  ghost function Expand(pkt: seq<byte>, pos: nat, jumps: nat): (r: Option<Labels>)
    ensures r.Some? ==> ShortLabels(r.value) && Labelled(r.value)
    decreases jumps, |pkt| - pos
  {
    if pos >= |pkt| then None
    else if pkt[pos] == 0 then Some([])
    else if IsPointer(pkt[pos]) then
      if jumps == 0 || pos + 1 >= |pkt| || Target(pkt, pos) < HSIZE then None
      else Expand(pkt, Target(pkt, pos), jumps - 1)
    else
      var next := pos + 1 + pkt[pos];
      if next > |pkt| then None
      else
        var rest := Expand(pkt, next, jumps);
        if rest.None? then None else Some([pkt[pos + 1..next]] + rest.value)
  }

  // Following the pointers finds the name that the packet spells, whenever there is one with few
  // enough pointers, and nothing else.
  lemma {:induction false} ExpandFinds(pkt: seq<byte>, pos: nat, max: nat, jumps: nat, labels: Labels)
    requires NameAt(pkt, pos, jumps, labels) && jumps <= max
    ensures Expand(pkt, pos, max) == Some(labels)
    decreases jumps, |labels|
  {
    if pkt[pos] == 0 {
    } else if IsPointer(pkt[pos]) {
      ExpandFinds(pkt, Target(pkt, pos), max - 1, jumps - 1, labels);
    } else {
      ExpandFinds(pkt, pos + 1 + pkt[pos], max, jumps, labels[1..]);
      CutHead(labels);
    }
  }

  lemma {:induction false} ExpandSpells(pkt: seq<byte>, pos: nat, max: nat) returns (jumps: nat)
    requires Expand(pkt, pos, max).Some?
    ensures jumps <= max && NameAt(pkt, pos, jumps, Expand(pkt, pos, max).value)
    decreases max, |pkt| - pos
  {
    if pkt[pos] == 0 {
      jumps := 0;
    } else if IsPointer(pkt[pos]) {
      jumps := ExpandSpells(pkt, Target(pkt, pos), max - 1);
      jumps := jumps + 1;
    } else {
      var next := pos + 1 + pkt[pos];
      jumps := ExpandSpells(pkt, next, max);
      var rest := Expand(pkt, next, max).value;
      assert ([pkt[pos + 1..next]] + rest)[1..] == rest;
    }
  }

  ghost predicate Spells(pkt: seq<byte>, pos: nat, max: nat, labels: Labels) {
    exists jumps: nat :: jumps <= max && NameAt(pkt, pos, jumps, labels)
  }

  // So the loop succeeds exactly on the positions that spell a name by way of at most max pointers.
  lemma ExpandIff(pkt: seq<byte>, pos: nat, max: nat, labels: Labels)
    ensures Expand(pkt, pos, max) == Some(labels) <==> Spells(pkt, pos, max, labels)
  {
    if Expand(pkt, pos, max) == Some(labels) {
      var found := ExpandSpells(pkt, pos, max);
      assert NameAt(pkt, pos, found, labels);
    }
    if Spells(pkt, pos, max, labels) {
      var jumps: nat :| jumps <= max && NameAt(pkt, pos, jumps, labels);
      ExpandFinds(pkt, pos, max, jumps, labels);
    }
  }

  // dns_getdn follows a hundred pointers, and not one more.
  lemma JumpLimit(pkt: seq<byte>, pos: nat, jumps: nat, labels: Labels)
    requires NameAt(pkt, pos, jumps, labels)
    ensures Expand(pkt, pos, MAXJUMPS) == if jumps <= 100 then Some(labels) else None
  {
    if Expand(pkt, pos, MAXJUMPS).Some? {
      var found := ExpandSpells(pkt, pos, MAXJUMPS);
      NameAtUnique(pkt, pos, jumps, labels, found, Expand(pkt, pos, MAXJUMPS).value);
    }
    if jumps <= 100 {
      ExpandFinds(pkt, pos, MAXJUMPS, jumps, labels);
    }
  }

  // Pointers that lead back to where they started spell no name at all.
  lemma {:induction false} CyclicPointers(pkt: seq<byte>, a: nat, b: nat, jumps: nat, labels: Labels)
    requires a + 1 < |pkt| && IsPointer(pkt[a]) && b + 1 < |pkt| && IsPointer(pkt[b])
    requires Target(pkt, a) == b && Target(pkt, b) == a
    ensures !NameAt(pkt, a, jumps, labels)
    decreases jumps
  {
    if jumps >= 2 {
      CyclicPointers(pkt, a, b, jumps - 2, labels);
    }
  }

  // Just past the first pointer, or past the terminator.
  function NextPos(pkt: seq<byte>, pos: nat): nat
    decreases |pkt| - pos
  {
    if pos >= |pkt| then pos
    else if pkt[pos] == 0 then pos + 1
    else if IsPointer(pkt[pos]) then pos + 2
    else NextPos(pkt, pos + 1 + pkt[pos])
  }

  lemma {:induction false} NextPosBound(pkt: seq<byte>, pos: nat, jumps: nat)
    requires Expand(pkt, pos, jumps).Some?
    ensures pos < NextPos(pkt, pos) <= |pkt|
    decreases |pkt| - pos
  {
    if pkt[pos] != 0 && !IsPointer(pkt[pos]) {
      NextPosBound(pkt, pos + 1 + pkt[pos], jumps);
    }
  }

  // ---------- dns_getdn ----------

  // Where the loop of dns_getdn stands: at pp, behind dp bytes of output; the position after the first
  // pointer if there was one, and the counter of the further pointers.
  datatype Walk = Walk(pp: nat, dp: nat, jump: Option<nat>, loop: nat) {
    // How many more pointers may be followed.
    function Left(): nat {
      if jump == None then MAXJUMPS else if loop >= 1 then loop - 1 else 0
    }
  }

  function NoRoom(dnsiz: nat): int {
    if dnsiz < MAXDN then 0 else -1
  }

  // The labels `full` are in dn, and what the packet still spells from pp on completes the name e.
  ghost predicate Walking(pkt: seq<byte>, cur: nat, w: Walk, e: Option<Labels>, full: Labels, out: seq<byte>, m: nat) {
    && 1 <= w.loop <= MAXJUMPS && (w.jump == None ==> w.loop == MAXJUMPS)
    && w.dp <= m && w.dp <= |out|
    && Labelled(full) && out[..w.dp] == LabelBytes(full)
    && Gathered(e, full, Expand(pkt, w.pp, w.Left()))
    && NextPos(pkt, cur) == if w.jump.Some? then w.jump.value else NextPos(pkt, w.pp)
  }

  ghost predicate Gathered(e: Option<Labels>, full: Labels, rest: Option<Labels>) {
    e == if rest.None? then None else Some(full + rest.value)
  }

  // The name at cur goes to dn. Its label bytes must fit the smaller of dnsiz and 255; the terminator
  // is written behind them without a further check. When they fill the buffer it goes to whatever stands
  // behind the buffer, which is not modelled.
  method GetDn(pkt: seq<byte>, cur: nat, dn: array<byte>, dnsiz: nat) returns (r: int, cur': nat)
    requires dn.Length >= Min(dnsiz, MAXDN)
    modifies dn
    ensures var e := Expand(pkt, cur, MAXJUMPS);
            && (r > 0 <==> Fits(e, dnsiz))
            && (r > 0 ==> r == |Wire(e.value)| <= dn.Length + 1)
            && (r > 0 ==> if r <= dn.Length then dn[..r] == Wire(e.value) else dn[..] == LabelBytes(e.value))
            && (r <= 0 && e.Some? ==> r == NoRoom(dnsiz))
    ensures r <= 0 ==> r == -1 || r == NoRoom(dnsiz)
    ensures cur' == if r > 0 then NextPos(pkt, cur) else cur
  {
    var m := if dnsiz < MAXDN then dnsiz else MAXDN;
    var w := Walk(cur, 0, None, MAXJUMPS);
    ghost var full: Labels := [];
    ghost var e := Expand(pkt, cur, MAXJUMPS);
    assert e.Some? ==> full + e.value == e.value;
    while true
      invariant Walking(pkt, cur, w, e, full, dn[..], m)
      decreases w.Left(), |pkt| - w.pp
    {
      if w.pp >= |pkt| {
        return -1, cur;
      }
      var c: nat := pkt[w.pp];
      if c == 0 {
        r, cur' := EndName(pkt, cur, w, dn, dnsiz, m, e, full);
        return;
      }
      if IsPointer(pkt[w.pp]) {
        var ok;
        ok, w := FollowPointer(pkt, cur, w, e, full, dn[..], m);
        if !ok {
          return -1, cur;
        }
      } else {
        if w.pp + 1 + c > |pkt| {
          return -1, cur;
        }
        if w.dp + c + 1 > m {
          MoreThanRoom(e, full, pkt[w.pp + 1..w.pp + 1 + c], Expand(pkt, w.pp + 1 + c, w.Left()));
          return NoRoom(dnsiz), cur;
        }
        w, full := CopyLabel(pkt, cur, w, c, dn, e, full, m);
      }
    }
  }

  ghost predicate Fits(e: Option<Labels>, dnsiz: nat)
    requires e.Some? ==> Labelled(e.value)
  {
    e.Some? && dnsiz > 0 && |LabelBytes(e.value)| <= Min(dnsiz, MAXDN)
  }

  // The empty label
  method EndName(pkt: seq<byte>, cur: nat, w: Walk, dn: array<byte>, dnsiz: nat, m: nat, ghost e: Option<Labels>,
                 ghost full: Labels)
    returns (r: int, cur': nat)
    requires Walking(pkt, cur, w, e, full, dn[..], m) && w.pp < |pkt| && pkt[w.pp] == 0
    requires m == Min(dnsiz, MAXDN) <= dn.Length
    modifies dn
    ensures e.Some? && Labelled(e.value) && (r > 0 <==> Fits(e, dnsiz))
    ensures r > 0 ==> r == |Wire(e.value)| <= dn.Length + 1
    ensures r > 0 ==> if r <= dn.Length then dn[..r] == Wire(e.value) else dn[..] == LabelBytes(e.value)
    ensures r <= 0 ==> r == NoRoom(dnsiz)
    ensures cur' == if r > 0 then NextPos(pkt, cur) else cur
  {
    AtRoot(pkt, cur, w, e, full, dn[..], m);
    if m == 0 {
      return NoRoom(dnsiz), cur;
    }
    PutRoot(dn, w.dp, full);
    return w.dp + 1, if w.jump.Some? then w.jump.value else w.pp + 1;
  }

  lemma AtRoot(pkt: seq<byte>, cur: nat, w: Walk, e: Option<Labels>, full: Labels, out: seq<byte>, m: nat)
    requires Walking(pkt, cur, w, e, full, out, m) && w.pp < |pkt| && pkt[w.pp] == 0
    ensures e == Some(full) && out[..w.dp] == LabelBytes(full) && |LabelBytes(full)| == w.dp
    ensures NextPos(pkt, cur) == if w.jump.Some? then w.jump.value else w.pp + 1
  {
    assert full + [] == full;
  }

  method PutRoot(dn: array<byte>, dp: nat, ghost full: Labels)
    requires Labelled(full) && dp <= dn.Length && dn[..dp] == LabelBytes(full)
    modifies dn
    ensures dp + 1 == |Wire(full)|
    ensures if dp < dn.Length then dn[..dp + 1] == Wire(full) else dn[..] == LabelBytes(full)
  {
    if dp < dn.Length {
      dn[dp] := 0;
      assert dn[..dp + 1] == dn[..dp] + [0];
    }
  }

  method FollowPointer(pkt: seq<byte>, ghost cur: nat, w: Walk, ghost e: Option<Labels>, ghost full: Labels,
                       ghost out: seq<byte>, ghost m: nat)
    returns (ok: bool, w': Walk)
    requires Walking(pkt, cur, w, e, full, out, m)
    requires w.pp < |pkt| && IsPointer(pkt[w.pp])
    ensures ok ==> Walking(pkt, cur, w', e, full, out, m) && w'.Left() < w.Left() && w'.dp == w.dp
    ensures !ok ==> e == None
  {
    if w.pp + 1 >= |pkt| {
      return false, w;
    }
    w' := w;
    if w.jump == None {
      w' := w.(jump := Some(w.pp + 2));
    } else {
      w' := w.(loop := w.loop - 1);
      if w'.loop == 0 {
        return false, w;
      }
    }
    var c := Target(pkt, w.pp);
    if c < HSIZE {
      return false, w;
    }
    w' := w'.(pp := c);
    return true, w';
  }

  lemma MoreThanRoom(e: Option<Labels>, full: Labels, l: seq<byte>, rest: Option<Labels>)
    requires Labelled(full) && 1 <= |l| < 256 && (rest.Some? ==> Labelled(rest.value))
    requires Gathered(e, full, if rest.None? then None else Some([l] + rest.value))
    ensures e.Some? ==> Labelled(e.value) && |LabelBytes(e.value)| >= |LabelBytes(full)| + 1 + |l|
  {
    if rest.Some? {
      LabelBytesConcat(full, [l] + rest.value);
    }
  }

  method CopyLabel(pkt: seq<byte>, ghost cur: nat, w: Walk, c: nat, dn: array<byte>, ghost e: Option<Labels>,
                   ghost full: Labels, ghost m: nat)
    returns (w': Walk, ghost full': Labels)
    requires Walking(pkt, cur, w, e, full, dn[..], m)
    requires 1 <= c < 64 && w.pp + 1 + c <= |pkt| && pkt[w.pp] == c && w.dp + 1 + c <= m <= dn.Length
    modifies dn
    ensures Walking(pkt, cur, w', e, full', dn[..], m) && w'.Left() == w.Left() && w'.pp > w.pp
  {
    ghost var l := pkt[w.pp + 1..w.pp + 1 + c];
    ghost var rest := Expand(pkt, w.pp + 1 + c, w.Left());
    PutLabel(dn, w.dp, pkt, w.pp + 1, c);
    full' := full + [l];
    LabelBytesConcat(full, [l]);
    assert LabelBytes([l]) == [c] + l;
    if rest.Some? {
      Assoc(full, [l], rest.value);
    }
    w' := w.(pp := w.pp + 1 + c, dp := w.dp + 1 + c);
    assert dn[..][..w'.dp] == dn[..w'.dp];
  }

  method PutLabel(dn: array<byte>, dp: nat, pkt: seq<byte>, from: nat, c: nat)
    requires c < 64 && from + c <= |pkt| && dp + 1 + c <= dn.Length
    modifies dn
    ensures dn[..dp + 1 + c] == old(dn[..])[..dp] + ([c] + pkt[from..from + c])
  {
    dn[dp] := c;
    forall i | 0 <= i < c {
      dn[dp + 1 + i] := pkt[from + i];
    }
  }

  // ---------- names written out in full ----------

  // A name written out in full expands to its labels.
  lemma {:induction false} ExpandWire(pkt: seq<byte>, pos: nat, labels: Labels, jumps: nat)
    requires ShortLabels(labels) && pos + |Wire(labels)| <= |pkt| && pkt[pos..pos + |Wire(labels)|] == Wire(labels)
    ensures Expand(pkt, pos, jumps) == Some(labels) && NextPos(pkt, pos) == pos + |Wire(labels)|
    decreases |labels|
  {
    if labels == [] {
      assert pkt[pos..pos + 1][0] == 0;
    } else {
      var l := labels[0];
      CutHead(labels);
      LabelThere(pkt, pos, l, labels[1..]);
      ExpandWire(pkt, pos + 1 + |l|, labels[1..], jumps);
      ExpandCons(pkt, pos, l, labels[1..], jumps);
    }
  }

  lemma ExpandCons(pkt: seq<byte>, pos: nat, l: seq<byte>, rest: Labels, jumps: nat)
    requires 1 <= |l| <= MAXLABEL && pos + 1 + |l| <= |pkt| && pkt[pos] == |l| && pkt[pos + 1..pos + 1 + |l|] == l
    requires Expand(pkt, pos + 1 + |l|, jumps) == Some(rest)
    ensures Expand(pkt, pos, jumps) == Some([l] + rest) && NextPos(pkt, pos) == NextPos(pkt, pos + 1 + |l|)
  {
  }

  lemma LabelThere(pkt: seq<byte>, pos: nat, l: seq<byte>, rest: Labels)
    requires Labelled([l] + rest) && Labelled(rest) && |l| < 256
    requires pos + |Wire([l] + rest)| <= |pkt| && pkt[pos..pos + |Wire([l] + rest)|] == Wire([l] + rest)
    ensures var n := |l|;
            && pkt[pos] == n && pos + 1 + n + |Wire(rest)| <= |pkt| && pkt[pos + 1..pos + 1 + n] == l
            && pkt[pos + 1 + n..pos + 1 + n + |Wire(rest)|] == Wire(rest)
            && |Wire([l] + rest)| == 1 + n + |Wire(rest)|
  {
    WireCons(l, rest);
    ThreeThere(pkt, pos, [|l|], l, Wire(rest));
  }

  lemma ThreeThere(pkt: seq<byte>, pos: nat, a: seq<byte>, b: seq<byte>, c: seq<byte>)
    requires |a| == 1 && pos + 1 + |b| + |c| <= |pkt| && pkt[pos..pos + 1 + |b| + |c|] == a + b + c
    ensures pkt[pos] == a[0] && pkt[pos + 1..pos + 1 + |b|] == b && pkt[pos + 1 + |b|..pos + 1 + |b| + |c|] == c
  {
    var w := a + b + c;
    Within(pkt, pos, w, 0, 1);
    Within(pkt, pos, w, 1, 1 + |b|);
    Within(pkt, pos, w, 1 + |b|, |w|);
    assert w[0..1] == a && w[1..1 + |b|] == b && w[1 + |b|..] == c;
    assert pkt[pos..pos + 1][0] == a[0];
  }

  // ---------- names with a compression pointer ----------

  // Two bytes, the first with a high bit set, lead to the offset in their low 14 bits, unless that is in
  // the header.
  lemma PointerLeads(pkt: seq<byte>, pos: nat, jumps: nat, o: nat)
    requires pos + 1 < |pkt| && o < 0x4000
    requires pkt[pos] >= 64 && pkt[pos] % 64 == o / 256 && pkt[pos + 1] == o % 256
    ensures Expand(pkt, pos, jumps + 1) == if o < 12 then None else Expand(pkt, o, jumps)
    ensures Expand(pkt, pos, 0) == None && NextPos(pkt, pos) == pos + 2
  {
  }

  // The first labels of a name and a pointer stand at pos.
  ghost predicate CutAt(pkt: seq<byte>, pos: nat, front: Labels, o: nat)
    requires Labelled(front)
  {
    var n := |LabelBytes(front)|;
    && pos + n + 2 <= |pkt| && pkt[pos..pos + n] == LabelBytes(front)
    && pkt[pos + n] == 0xC0 + o / 256 && pkt[pos + n + 1] == o % 256
  }

  // Labels, and then a pointer to where a name is spelt: the two together are the name.
  lemma {:induction false} LabelsAndPointer(pkt: seq<byte>, pos: nat, jumps: nat, front: Labels, o: nat, tail: Labels)
    requires ShortLabels(front) && 12 <= o < 0x4000 && Expand(pkt, o, jumps) == Some(tail) && CutAt(pkt, pos, front, o)
    ensures Expand(pkt, pos, jumps + 1) == Some(front + tail) && NextPos(pkt, pos) == pos + |LabelBytes(front)| + 2
    decreases |front|
  {
    if front == [] {
      PointerLeads(pkt, pos, jumps, o);
      assert front + tail == tail;
    } else {
      var l, rest := front[0], front[1..];
      FirstLabelThere(pkt, pos, front);
      LabelsAndPointer(pkt, pos + 1 + |l|, jumps, rest, o, tail);
      ExpandCons(pkt, pos, l, rest + tail, jumps + 1);
      CutHead(front);
      Assoc([l], rest, tail);
    }
  }

  lemma FirstLabelThere(pkt: seq<byte>, pos: nat, front: Labels)
    requires front != [] && ShortLabels(front)
    requires pos + |LabelBytes(front)| <= |pkt| && pkt[pos..pos + |LabelBytes(front)|] == LabelBytes(front)
    ensures var l, next := front[0], pos + 1 + |front[0]|;
            && next + |LabelBytes(front[1..])| == pos + |LabelBytes(front)|
            && pkt[pos] == |l| && pkt[pos + 1..next] == l
            && pkt[next..next + |LabelBytes(front[1..])|] == LabelBytes(front[1..])
  {
    FirstPart(pkt, pos, front[0], LabelBytes(front[1..]), LabelBytes(front));
  }

  lemma FirstPart(pkt: seq<byte>, pos: nat, l: seq<byte>, rest: seq<byte>, all: seq<byte>)
    requires |l| < 256 && all == [|l|] + l + rest && pos + |all| <= |pkt| && pkt[pos..pos + |all|] == all
    ensures var next := pos + 1 + |l|;
            && next + |rest| == pos + |all| && pkt[pos] == |l| && pkt[pos + 1..next] == l
            && pkt[next..next + |rest|] == rest
  {
    ThreeThere(pkt, pos, [|l|], l, rest);
  }

  // So compression gives the name back: the wire form of its end stands at o, and elsewhere stand its
  // first labels and the pointer.
  lemma CompressionRoundTrip(pkt: seq<byte>, pos: nat, jumps: nat, front: Labels, o: nat, tail: Labels)
    requires ShortLabels(front) && ShortLabels(tail) && 12 <= o < 0x4000
    requires o + |Wire(tail)| <= |pkt| && pkt[o..o + |Wire(tail)|] == Wire(tail)
    requires CutAt(pkt, pos, front, o)
    ensures Expand(pkt, pos, jumps + 1) == Some(front + tail) && NextPos(pkt, pos) == pos + |LabelBytes(front)| + 2
  {
    ExpandWire(pkt, o, tail, jumps);
    LabelsAndPointer(pkt, pos, jumps, front, o, tail);
  }

  // ---------- how much room a result can take ----------

  // A name with exactly this many label bytes: labels of one byte, the last of one or two.
  function LongName(n: nat): (r: Labels)
    requires n >= 2
    ensures ShortLabels(r) && |LabelBytes(r)| == n
  {
    if n <= 3 then
      assert [seq(n - 1, _ => 0x61)][1..] == [];
      [seq(n - 1, _ => 0x61)]
    else
      assert ([[0x61]] + LongName(n - 2))[1..] == LongName(n - 2);
      [[0x61]] + LongName(n - 2)
  }

  function LongPacket(n: nat): (pkt: seq<byte>)
    requires n >= 2
    ensures |pkt| == HSIZE + n + 1 && Expand(pkt, HSIZE, MAXJUMPS) == Some(LongName(n))
  {
    var header: seq<byte> := seq(HSIZE, _ => 0);
    var pkt := header + Wire(LongName(n));
    assert pkt[HSIZE..HSIZE + |Wire(LongName(n))|] == Wire(LongName(n));
    ExpandWire(pkt, HSIZE, LongName(n), MAXJUMPS);
    pkt
  }

  // What a caller passes: the bytes that dns_getdn may write to, and the limit that it is told.
  ghost predicate AlwaysFits(room: nat, dnsiz: nat) {
    forall pkt: seq<byte>, pos: nat :: ResultFits(pkt, pos, room, dnsiz)
  }

  ghost predicate ResultFits(pkt: seq<byte>, pos: nat, room: nat, dnsiz: nat) {
    var e := Expand(pkt, pos, MAXJUMPS);
    Fits(e, dnsiz) ==> |Wire(e.value)| <= room
  }

  // The room that every result fits: one byte more than the smaller of dnsiz and 255. When dnsiz is 1
  // only the root is accepted, and one byte is enough; when it is 0 nothing is accepted.
  function RoomFor(dnsiz: nat): nat {
    if dnsiz <= 1 then dnsiz else Min(dnsiz, MAXDN) + 1
  }

  // Every name that dns_getdn accepts for dnsiz bytes fits a buffer of `room` bytes if and only if the
  // buffer has the byte for the terminator that the limit does not count.
  lemma RoomNeeded(room: nat, dnsiz: nat)
    ensures AlwaysFits(room, dnsiz) <==> room >= RoomFor(dnsiz)
  {
    var header: seq<byte> := seq(HSIZE, _ => 0);
    if room < RoomFor(dnsiz) {
      var pkt := if dnsiz == 1 then header else LongPacket(Min(dnsiz, MAXDN));
      var pos := if dnsiz == 1 then 0 else HSIZE;
      assert !ResultFits(pkt, pos, room, dnsiz);
    } else {
      forall pkt: seq<byte>, pos: nat ensures ResultFits(pkt, pos, room, dnsiz) {
        var e := Expand(pkt, pos, MAXJUMPS);
        if Fits(e, dnsiz) && dnsiz == 1 { OnlyRootFits(e.value); }
      }
    }
  }

  lemma OnlyRootFits(labels: Labels)
    requires Labelled(labels) && |LabelBytes(labels)| <= 1
    ensures labels == []
  {
  }

  // The callers pass 255 bytes of room and the limit 255: there is a packet whose name they accept and
  // whose result takes 256.
  lemma CallersOverrun()
    ensures !AlwaysFits(MAXDN, MAXDN)
    ensures var e := Expand(LongPacket(MAXDN), HSIZE, MAXJUMPS); Fits(e, MAXDN) && |Wire(e.value)| == MAXDN + 1
  {
    RoomNeeded(MAXDN, MAXDN);
  }

  // ---------- dns_skipdn ----------

  function Skip(pkt: seq<byte>, pos: nat): Option<nat>
    decreases |pkt| - pos
  {
    if pos >= |pkt| then None
    else if pkt[pos] == 0 then Some(pos + 1)
    else if IsPointer(pkt[pos]) then (if pos + 2 >= |pkt| then None else Some(pos + 2))
    else Skip(pkt, pos + 1 + pkt[pos])
  }

  method SkipDn(pkt: seq<byte>, cur: nat) returns (r: Option<nat>)
    ensures r == Skip(pkt, cur)
  {
    var p: nat := cur;
    while true
      invariant Skip(pkt, p) == Skip(pkt, cur)
      decreases |pkt| - p
    {
      if p >= |pkt| {
        return None;
      }
      var c: nat := pkt[p];
      if c == 0 {
        return Some(p + 1);
      }
      if IsPointer(pkt[p]) {
        return if p + 2 >= |pkt| then None else Some(p + 2);
      }
      p := p + 1 + c;
    }
  }

  predicate EndsInPointer(pkt: seq<byte>, pos: nat)
    decreases |pkt| - pos
  {
    pos < |pkt| && pkt[pos] != 0 && (IsPointer(pkt[pos]) || EndsInPointer(pkt, pos + 1 + pkt[pos]))
  }

  // Where dns_getdn finds a name, dns_skipdn moves to the same place, except over a pointer that ends
  // the packet: that one it rejects.
  lemma {:induction false} SkipAgrees(pkt: seq<byte>, pos: nat, jumps: nat)
    requires Expand(pkt, pos, jumps).Some?
    ensures Skip(pkt, pos) == (if EndsInPointer(pkt, pos) && NextPos(pkt, pos) == |pkt| then None
                               else Some(NextPos(pkt, pos)))
    decreases |pkt| - pos
  {
    if pkt[pos] != 0 && !IsPointer(pkt[pos]) {
      SkipAgrees(pkt, pos + 1 + pkt[pos], jumps);
    }
  }

  // A name without a pointer is a terminated chain of labels.
  lemma {:induction false} PlainName(pkt: seq<byte>, pos: nat, jumps: nat)
    requires Expand(pkt, pos, jumps).Some? && !EndsInPointer(pkt, pos)
    ensures Terminated(pkt, pos) && Expand(pkt, pos, jumps) == Some(LabelsAt(pkt, pos))
    decreases |pkt| - pos
  {
    if pkt[pos] != 0 {
      PlainName(pkt, pos + 1 + pkt[pos], jumps);
    }
  }
}
