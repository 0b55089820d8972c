// The packets of the resolver: how a query is written, and how a reply is matched with it.
module ResolverMessages {
  import opened Seqs
  import opened DomainNames
  import opened Packets
  import opened ReplyHeader
  import opened ResolverModel

  const T_OPT := 41

  // ---------- the query ----------

  // Bit 0 of the first flag byte asks for recursion, bit 2 for an authoritative answer; bit 4 of the
  // second disables checking.
  function Flag1(f: Flags): byte {
    (if f.noRd then 0 else 0x01) + if f.aaOnly then 0x04 else 0
  }

  function Flag2(f: Flags): byte {
    if f.setCd then 0x10 else 0
  }

  predicate WithEdns(f: Flags, udpbuf: nat, noEdns: set<nat>, servi: nat) {
    f.setDo || (udpbuf > MAXPACKET && servi !in noEdns)
  }

  function Header(id: Id, f: Flags, edns: bool): (r: seq<byte>)
    ensures |r| == HSIZE
  {
    [id.hi, id.lo, Flag1(f), Flag2(f), 0, 1, 0, 0, 0, 0, 0, if edns then 1 else 0]
  }

  function Put16(n: nat): seq<byte> {
    [n / 256 % 256, n % 256]
  }

  // What stands behind the name in a question.
  function TypeAndClass(qtyp: nat, qcls: nat): (r: seq<byte>)
    ensures |r| == 4
  {
    Put16(qtyp) + Put16(qcls)
  }

  // The OPT record of section 4.3 of RFC 2671, with the size of the receive buffer as its class.
  function OptRecord(f: Flags, udpbuf: nat): (r: seq<byte>)
    ensures |r| == 11
  {
    [0] + Put16(T_OPT) + Put16(udpbuf) + [0, 0, if f.setDo then 0x80 else 0, 0, 0, 0]
  }

  // dns_dntodn with a limit of 255 bytes: a name of 256 is not copied at all.
  function Copied(dn: seq<byte>): seq<byte> {
    if |dn| <= MAXDN then dn else []
  }

  // Header, question and OPT record (section 4.1 of RFC 1035).
  ghost function QueryPacket(q: Query, udpbuf: nat, servi: nat): seq<byte>
    requires Labelled(q.name)
  {
    var edns := WithEdns(q.flags, udpbuf, q.noEdns, servi);
    Header(q.id, q.flags, edns) + (Copied(Wire(q.name)) + q.typcls) + if edns then OptRecord(q.flags, udpbuf) else []
  }

  // The bytes of a query (section 4.1.1 of RFC 1035): bit 0 of byte 2 asks for recursion, bit 2 for an
  // authoritative answer, and bit 4 of byte 3 disables checking; there is one question, and an additional
  // record if and only if EDNS0 is used. That record has the root as its name, type 41, the size of the
  // receive buffer as its class, and the bit DO.
  lemma QueryBytes(q: Query, udpbuf: nat, servi: nat)
    requires Labelled(q.name) && |Wire(q.name)| <= 255 && |q.typcls| == 4
    ensures var sent, n := QueryPacket(q, udpbuf, servi), 12 + |Wire(q.name)|;
            var edns := q.flags.setDo || (udpbuf > 512 && servi !in q.noEdns);
            && |sent| == n + 4 + (if edns then 11 else 0) && sent[0] == q.id.hi && sent[1] == q.id.lo
            && (sent[2] % 2 == 1 <==> !q.flags.noRd) && (sent[2] / 4 % 2 == 1 <==> q.flags.aaOnly)
            && sent[2] in {0, 1, 4, 5} && (sent[3] / 16 % 2 == 1 <==> q.flags.setCd) && sent[3] in {0, 16}
            && sent[4..12] == [0, 1, 0, 0, 0, 0, 0, if edns then 1 else 0]
            && sent[12..n] == Wire(q.name) && sent[n..n + 4] == q.typcls
            && (edns ==> sent[n + 4..n + 9] == [0, 0, 41, udpbuf / 256 % 256, udpbuf % 256]
                         && sent[n + 9..] == [0, 0, if q.flags.setDo then 128 else 0, 0, 0, 0])
  {
    var edns := WithEdns(q.flags, udpbuf, q.noEdns, servi);
    var head, question := Header(q.id, q.flags, edns), Wire(q.name) + q.typcls;
    var opt := if edns then OptRecord(q.flags, udpbuf) else [];
    var sent, n := QueryPacket(q, udpbuf, servi), 12 + |Wire(q.name)|;
    assert sent == head + question + opt;
    assert sent[n + 4..] == opt;
    assert sent[4..12] == head[4..12];
    if edns {
      assert sent[n + 4..n + 9] == opt[..5] && sent[n + 9..] == opt[5..];
    }
  }

  // Type and class as they stand in a question, the higher byte first.
  lemma TypeAndClassBytes(qtyp: nat, qcls: nat)
    requires qtyp < 65536 && qcls < 65536
    ensures TypeAndClass(qtyp, qcls) == [qtyp / 256, qtyp % 256, qcls / 256, qcls % 256]
  {
    assert qtyp / 256 % 256 == qtyp / 256 && qcls / 256 % 256 == qcls / 256;
  }

  // dns_send_this: formats the query into pbuf
  method Format(pbuf: array<byte>, id: Id, f: Flags, dn: seq<byte>, typcls: seq<byte>, edns: bool, udpbuf: nat,
                ghost q: Query, ghost servi: nat)
    returns (qlen: nat)
    requires MAXPACKET <= pbuf.Length && |typcls| == 4
    requires Labelled(q.name) && Wire(q.name) == dn
    requires id == q.id && f == q.flags && typcls == q.typcls && edns == WithEdns(f, udpbuf, q.noEdns, servi)
    modifies pbuf
    ensures qlen == |QueryPacket(q, udpbuf, servi)| <= MAXPACKET && pbuf[..qlen] == QueryPacket(q, udpbuf, servi)
  {
    var head, name := Header(id, f, edns), Copied(dn);
    Append(pbuf, 0, [], head);
    var p := HSIZE;
    Append(pbuf, p, head, name);
    p := p + |name|;
    Append(pbuf, p, head + name, typcls);
    p := p + 4;
    Assoc(head, name, typcls);
    if edns {
      Append(pbuf, p, head + (name + typcls), OptRecord(f, udpbuf));
      p := p + 11;
    }
    qlen := p;
    NothingMore(head + (name + typcls));
  }

  lemma NothingMore(s: seq<byte>)
    ensures s + [] == s
  {
  }

  method Append(pbuf: array<byte>, p: nat, ghost before: seq<byte>, s: seq<byte>)
    requires p == |before| && p + |s| <= pbuf.Length && pbuf[..p] == before
    modifies pbuf
    ensures pbuf[..p + |s|] == before + s
  {
    forall i | 0 <= i < |s| {
      pbuf[p + i] := s[i];
    }
    assert pbuf[..p + |s|] == pbuf[..p] + pbuf[p..p + |s|];
  }

  // ---------- the reply ----------

  predicate HasId(pkt: seq<byte>, id: Id)
    requires |pkt| >= HSIZE
  {
    pkt[0] == id.hi && pkt[1] == id.lo
  }

  // The question of a reply is that of the query; only a FORMERR reply may come without one.
  ghost predicate Matches(pkt: seq<byte>, name: Labels, typcls: seq<byte>)
    requires HeaderOk(pkt)
  {
    if NumQd(pkt) == 0 then RCode(pkt) == R_FORMERR
    else
      var e := Expand(pkt, HSIZE, MAXJUMPS);
      && Packets.Fits(e, MAXDN) && NextPos(pkt, HSIZE) + 4 <= |pkt| && SameName(e.value, name)
      && pkt[NextPos(pkt, HSIZE)..NextPos(pkt, HSIZE) + 4] == typcls
  }

  // ---------- a reply that echoes the question ----------

  // Any reply with opcode 0 that carries the id and the question of a query as they were sent is recognised
  // as a reply to it.
  lemma EchoMatches(q: Query, udpbuf: nat, servi: nat, pkt: seq<byte>)
    requires ShortLabels(q.name) && |Wire(q.name)| <= MAXDN && |q.typcls| == 4
    requires var n := HSIZE + |Wire(q.name)| + 4;
             var sent := QueryPacket(q, udpbuf, servi);
             && n <= |pkt| && pkt[..2] == sent[..2] && pkt[4..6] == sent[4..6] && pkt[HSIZE..n] == sent[HSIZE..n]
             && pkt[2] / 8 % 16 == 0
    ensures HeaderOk(pkt) && HasId(pkt, q.id) && Matches(pkt, q.name, q.typcls)
  {
    var sent := QueryPacket(q, udpbuf, servi);
    var n := HSIZE + |Wire(q.name)| + 4;
    SentQuestion(q, udpbuf, servi);
    assert pkt[..2][0] == sent[..2][0] && pkt[..2][1] == sent[..2][1];
    assert pkt[4..6][0] == sent[4..6][0] == 0 && pkt[4..6][1] == sent[4..6][1] == 1;
    SplitQuestion(pkt, Wire(q.name), q.typcls);
    QuestionIff(pkt, q.name, q.name, q.typcls);
  }

  // A question written out in full: it is that of the query exactly if the names are the same up to the case
  // of the letters, and so are the four bytes behind them.
  lemma QuestionIff(pkt: seq<byte>, asked: Labels, name: Labels, typcls: seq<byte>)
    requires ShortLabels(asked) && |Wire(asked)| <= 255
    requires var n := 12 + |Wire(asked)|;
             n + 4 <= |pkt| && pkt[2] / 8 % 16 == 0 && pkt[4] == 0 && pkt[5] == 1 && pkt[12..n] == Wire(asked)
    ensures var n := 12 + |Wire(asked)|;
            Matches(pkt, name, typcls) <==> SameUpToCase(asked, name) && pkt[n..n + 4] == typcls
  {
    ExpandWire(pkt, HSIZE, asked, MAXJUMPS);
    SameNameIs(asked, name);
  }

  // Which headers are looked at: at most one question, and opcode 0.
  lemma HeaderIs(pkt: seq<byte>)
    ensures HeaderOk(pkt) <==> |pkt| >= 12 && pkt[4] == 0 && pkt[5] <= 1 && pkt[2] / 8 % 16 == 0
  {
  }

  // A reply without a question is that of the query exactly if its code is 1 (FORMERR).
  lemma NoQuestion(pkt: seq<byte>, name: Labels, typcls: seq<byte>)
    requires |pkt| >= 12 && pkt[2] / 8 % 16 == 0 && pkt[4] == 0 && pkt[5] == 0
    ensures Matches(pkt, name, typcls) <==> pkt[3] % 16 == 1
  {
  }

  lemma SentQuestion(q: Query, udpbuf: nat, servi: nat)
    requires Labelled(q.name) && |Wire(q.name)| <= MAXDN
    ensures var sent := QueryPacket(q, udpbuf, servi);
            && |sent| >= HSIZE + |Wire(q.name)| + |q.typcls| && sent[0] == q.id.hi && sent[1] == q.id.lo
            && sent[4] == 0 && sent[5] == 1
            && sent[HSIZE..HSIZE + |Wire(q.name)| + |q.typcls|] == Wire(q.name) + q.typcls
  {
  }

  lemma SplitQuestion(pkt: seq<byte>, w: seq<byte>, typcls: seq<byte>)
    requires HSIZE + |w| + |typcls| <= |pkt| && pkt[HSIZE..HSIZE + |w| + |typcls|] == w + typcls
    ensures pkt[HSIZE..HSIZE + |w|] == w && pkt[HSIZE + |w|..HSIZE + |w| + |typcls|] == typcls
  {
    var s := pkt[HSIZE..HSIZE + |w| + |typcls|];
    assert pkt[HSIZE..HSIZE + |w|] == s[..|w|];
    assert pkt[HSIZE + |w|..HSIZE + |w| + |typcls|] == s[|w|..];
  }
}
