// What a positive reply is worth to the caller of a query.
module ResolverAnswers {
  import opened DomainNames
  import opened Packets
  import opened RRIter
  import opened RRBuilders
  import opened ReplyHeader
  import opened ResolverMessages

  // What a reply is worth: its length if it is wanted raw, else what the parsing routine reports for the
  // records that answer the question.
  ghost predicate StatusIs(pkt: seq<byte>, parse: Option<Kind>, name: Labels, status: int)
    requires HeaderOk(pkt)
  {
    match parse
    case None => status == |pkt|
    case Some(k) =>
      var at := NextPos(pkt, HSIZE);
      at + 4 <= |pkt| ==>
        var right := StatusOf(k, pkt, Selected(pkt, at, Name(name, false)));
        right < 0 || QuestionSized(pkt) ==> status == right
  }

  // A reply that the resolver takes for the answer to a query for the root, and whose record the builders
  // accept: its question is a pointer to the owner name of the record.
  function Compressed(): (pkt: seq<byte>)
    ensures |pkt| == 33
  {
    [0, 1, 0x80, 0, 0, 1, 0, 1, 0, 0, 0, 0]
    + [0xC0, 0x12, 0, 1, 0, 1]
    + [0, 0, 1, 0, 1, 0, 0, 0, 60, 0, 4, 127, 0, 0, 1]
  }

  // It gets as far as the sizes of the names, and there it is not sized rightly: dns_stdrr_size leaves the
  // packet.
  lemma CompressedQuestion()
    ensures var pkt, at := Compressed(), HSIZE + 2;
            && HeaderOk(pkt) && VerdictOf(pkt) == Positive && Matches(pkt, [], [0, 1, 0, 1])
            && NextPos(pkt, HSIZE) == at
            && StatusOf(A(4), pkt, Selected(pkt, at, Name([], false))) == 0
            && !QuestionSized(pkt) && !SizesAgree(pkt)
  {
    CompressedMatches();
    CompressedSelects();
    CompressedRunsOff();
    SizesAgreeIff(Compressed());
  }

  lemma CompressedMatches()
    ensures var pkt := Compressed();
            && HeaderOk(pkt) && VerdictOf(pkt) == Positive && Matches(pkt, [], [0, 1, 0, 1])
            && NextPos(pkt, HSIZE) == HSIZE + 2
  {
    var pkt := Compressed();
    CompressedHeader();
    CompressedName();
    assert LabelBytes([]) == [];
  }

  lemma CompressedHeader()
    ensures var pkt := Compressed(); HeaderOk(pkt) && VerdictOf(pkt) == Positive && NumQd(pkt) == 1
  {
  }

  lemma CompressedName()
    ensures var pkt := Compressed();
            && Expand(pkt, HSIZE, MAXJUMPS) == Some([])
            && NextPos(pkt, HSIZE) == 14 && pkt[14..18] == [0, 1, 0, 1]
  {
    var pkt := Compressed();
    assert pkt[12] == 0xC0 && pkt[13] == 0x12 && pkt[18] == 0;
    assert Target(pkt, 12) == 18;
  }

  lemma CompressedSelects()
    ensures var pkt, at := Compressed(), HSIZE + 2;
            StatusOf(A(4), pkt, Selected(pkt, at, Name([], false))) == 0
  {
    var pkt := Compressed();
    CompressedRecord();
    ScanStep(pkt, WishAt(pkt, 14), 18, 1, Name([], false), false);
    assert SameName([], []);
  }

  lemma CompressedRecord()
    ensures var pkt, rr := Compressed(), Decode(Compressed(), 18);
            && NumAn(pkt) == 1 && WishAt(pkt, 14) == Wish(1, 1)
            && rr.Some? && rr.value.owner == [] && rr.value.typ == 1 && rr.value.cls == 1
            && rr.value.dptr == 29 && rr.value.dend == 33
  {
    var pkt := Compressed();
    assert pkt[18] == 0;
    assert Expand(pkt, 18, MAXJUMPS) == Some([]) && NextPos(pkt, 18) == 19;
  }

  lemma CompressedRunsOff()
    ensures !QuestionSized(Compressed())
  {
    assert Compressed()[12] == 0xC0;
    assert !Terminated(Compressed(), HSIZE);
  }
}
