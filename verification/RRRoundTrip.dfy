// What a server has put into the answer section is what the caller of a parsing routine gets, in terms of the
// bytes of the packet.
module RRRoundTrip {
  import opened Seqs
  import opened DomainNames
  import opened Packets
  import opened RRIter
  import opened RRBuilders
  import DnFromText

  // ---------- the selection on the bytes of the packet ----------

  ghost function Big(hi: nat, lo: nat): nat {
    256 * hi + lo
  }

  // Two bytes of a question agree with those of a record if they are equal, or are 0 or 255.
  ghost predicate Agrees(asked: seq<byte>, found: seq<byte>) {
    asked == found || asked == [0, 0] || asked == [0, 255]
  }

  // The record at pos, whose owner name ends at cur, has the type and the class of the question at `at`.
  ghost predicate Answering(pkt: seq<byte>, at: nat, cur: nat)
    requires at + 4 <= |pkt| && cur + 4 <= |pkt|
  {
    Agrees(pkt[at..at + 2], pkt[cur..cur + 2]) && Agrees(pkt[at + 2..at + 4], pkt[cur + 2..cur + 4])
  }

  // The records that answer the question about this name, from n records on from pos: those with the
  // name reached by aliases (type 5) in front of the first.
  ghost function AnswersFrom(pkt: seq<byte>, at: nat, pos: nat, n: nat, labels: Labels, found: bool): seq<Record>
    requires at + 4 <= |pkt|
    decreases n
  {
    if n == 0 || Decode(pkt, pos).None? then []
    else
      var rr, cur := Decode(pkt, pos).value, NextPos(pkt, pos);
      OwnerEnds(pkt, pos);
      if !SameName(labels, rr.owner) then AnswersFrom(pkt, at, rr.dend, n - 1, labels, found)
      else if Answering(pkt, at, cur) then [rr] + AnswersFrom(pkt, at, rr.dend, n - 1, labels, true)
      else if pkt[cur] == 0 && pkt[cur + 1] == 5 && !found then
        if rr.data.None? then [] else AnswersFrom(pkt, at, rr.dend, n - 1, rr.data.value, false)
      else AnswersFrom(pkt, at, rr.dend, n - 1, labels, found)
  }

  lemma OwnerEnds(pkt: seq<byte>, pos: nat)
    requires Decode(pkt, pos).Some?
    ensures var cur := NextPos(pkt, pos); cur + 10 <= |pkt|
  {
  }

  lemma SameBytes(a: seq<byte>, i: nat, j: nat)
    requires i + 2 <= |a| && j + 2 <= |a|
    ensures Get16(a, i) == Get16(a, j) <==> a[i..i + 2] == a[j..j + 2]
    ensures Get16(a, i) == 0 <==> a[i..i + 2] == [0, 0]
    ensures Get16(a, i) == 255 <==> a[i..i + 2] == [0, 255]
  {
    TwoBytes(a, i);
    TwoBytes(a, j);
  }

  lemma TwoBytes(a: seq<byte>, i: nat)
    requires i + 2 <= |a|
    ensures a[i..i + 2] == [a[i], a[i + 1]]
  {
  }

  // A record is a hit for the question if and only if it has the name, and the type and the class agree.
  lemma HitIsAnswering(pkt: seq<byte>, at: nat, pos: nat, a: Asked)
    requires at + 4 <= |pkt| && Decode(pkt, pos).Some? && a.Name?
    ensures var rr, cur := Decode(pkt, pos).value, NextPos(pkt, pos);
            && cur + 10 <= |pkt|
            && (Hit(WishAt(pkt, at), a, rr) <==> SameName(a.labels, rr.owner) && Answering(pkt, at, cur))
            && (Alias(WishAt(pkt, at), a, rr) <==>
                  SameName(a.labels, rr.owner) && !Answering(pkt, at, cur) && pkt[cur] == 0 && pkt[cur + 1] == 5)
  {
    var cur := NextPos(pkt, pos);
    OwnerEnds(pkt, pos);
    SameBytes(pkt, at, cur);
    SameBytes(pkt, at + 2, cur + 2);
    assert Get16(pkt, cur) == 5 <==> pkt[cur] == 0 && pkt[cur + 1] == 5;
  }

  lemma AnswersStep(pkt: seq<byte>, at: nat, pos: nat, n: nat, a: Asked, found: bool)
    requires at + 4 <= |pkt| && a.Name? && n > 0
    ensures AnswersFrom(pkt, at, pos, n, a.labels, found)
         == match Decode(pkt, pos)
            case None => []
            case Some(rr) =>
              var w := WishAt(pkt, at);
              if Hit(w, a, rr) then [rr] + AnswersFrom(pkt, at, rr.dend, n - 1, a.labels, true)
              else if Alias(w, a, rr) && !found && rr.data.None? then []
              else if Alias(w, a, rr) && !found then AnswersFrom(pkt, at, rr.dend, n - 1, rr.data.value, false)
              else AnswersFrom(pkt, at, rr.dend, n - 1, a.labels, found)
  {
    if Decode(pkt, pos).Some? {
      HitIsAnswering(pkt, at, pos, a);
    }
  }

  lemma {:induction false} ScanIsAnswers(pkt: seq<byte>, at: nat, pos: nat, n: nat, a: Asked, found: bool)
    requires at + 4 <= |pkt| && a.Name?
    ensures SameFrom(pkt, at, pos, n, a, found)
    decreases n
  {
    if n > 0 {
      var w := WishAt(pkt, at);
      if Decode(pkt, pos).Some? {
        var rr := Decode(pkt, pos).value;
        if Hit(w, a, rr) {
          ScanIsAnswers(pkt, at, rr.dend, n - 1, a, true);
        } else if Alias(w, a, rr) && !found && rr.data.Some? {
          ScanIsAnswers(pkt, at, rr.dend, n - 1, Name(rr.data.value, false), false);
        } else if !Alias(w, a, rr) || found {
          ScanIsAnswers(pkt, at, rr.dend, n - 1, a, found);
        }
      }
      SameStep(pkt, at, pos, n, a, found);
    }
  }

  ghost predicate SameFrom(pkt: seq<byte>, at: nat, pos: nat, n: nat, a: Asked, found: bool)
    requires at + 4 <= |pkt| && a.Name?
  {
    ScanFrom(pkt, WishAt(pkt, at), pos, n, a, found).rrs == AnswersFrom(pkt, at, pos, n, a.labels, found)
  }

  lemma SameStep(pkt: seq<byte>, at: nat, pos: nat, n: nat, a: Asked, found: bool)
    requires at + 4 <= |pkt| && a.Name? && n > 0
    requires Decode(pkt, pos).Some? ==>
               var w, rr := WishAt(pkt, at), Decode(pkt, pos).value;
               if Hit(w, a, rr) then SameFrom(pkt, at, rr.dend, n - 1, a, true)
               else if Alias(w, a, rr) && !found then
                 rr.data.Some? ==> SameFrom(pkt, at, rr.dend, n - 1, Name(rr.data.value, false), false)
               else SameFrom(pkt, at, rr.dend, n - 1, a, found)
    ensures SameFrom(pkt, at, pos, n, a, found)
  {
    ScanStep(pkt, WishAt(pkt, at), pos, n, a, found);
    AnswersStep(pkt, at, pos, n, a, found);
  }

  // What the builders select is what answers the question, byte for byte.
  lemma SelectedIs(pkt: seq<byte>, at: nat, labels: Labels, payload: bool)
    requires |pkt| >= HSIZE && at + 4 <= |pkt|
    ensures Selected(pkt, at, Name(labels, payload)).rrs
         == AnswersFrom(pkt, at, at + 4, Big(pkt[6], pkt[7]), labels, false)
  {
    ScanIsAnswers(pkt, at, at + 4, NumAn(pkt), Name(labels, payload), false);
  }

  // When the question names a type and a class, a record with the name asked for is selected behind the
  // first if and only if its four bytes of type and class are those of the question.
  lemma SelectedAfterFirst(pkt: seq<byte>, at: nat, pos: nat, n: nat, labels: Labels)
    requires at + 4 <= |pkt| && n > 0 && Decode(pkt, pos).Some? && SameName(labels, Decode(pkt, pos).value.owner)
    requires pkt[at..at + 2] != [0, 0] && pkt[at..at + 2] != [0, 255]
    requires pkt[at + 2..at + 4] != [0, 0] && pkt[at + 2..at + 4] != [0, 255]
    ensures var rr, cur := Decode(pkt, pos).value, NextPos(pkt, pos);
            && cur + 10 <= |pkt|
            && AnswersFrom(pkt, at, pos, n, labels, true)
            == (if pkt[cur..cur + 4] == pkt[at..at + 4] then [rr] else [])
               + AnswersFrom(pkt, at, rr.dend, n - 1, labels, true)
  {
    OwnerEnds(pkt, pos);
    FourBytesAgree(pkt, at, NextPos(pkt, pos));
    FoundStep(pkt, at, pos, n, labels);
  }

  lemma FoundStep(pkt: seq<byte>, at: nat, pos: nat, n: nat, labels: Labels)
    requires at + 4 <= |pkt| && n > 0 && Decode(pkt, pos).Some? && SameName(labels, Decode(pkt, pos).value.owner)
    ensures NextPos(pkt, pos) + 10 <= |pkt|
    ensures AnswersFrom(pkt, at, pos, n, labels, true)
         == (if Answering(pkt, at, NextPos(pkt, pos)) then [Decode(pkt, pos).value] else [])
            + AnswersFrom(pkt, at, Decode(pkt, pos).value.dend, n - 1, labels, true)
  {
    OwnerEnds(pkt, pos);
    var rest := AnswersFrom(pkt, at, Decode(pkt, pos).value.dend, n - 1, labels, true);
    assert [] + rest == rest;
  }

  lemma FourBytesAgree(pkt: seq<byte>, at: nat, cur: nat)
    requires at + 4 <= |pkt| && cur + 4 <= |pkt|
    requires pkt[at..at + 2] != [0, 0] && pkt[at..at + 2] != [0, 255]
    requires pkt[at + 2..at + 4] != [0, 0] && pkt[at + 2..at + 4] != [0, 255]
    ensures Answering(pkt, at, cur) <==> pkt[cur..cur + 4] == pkt[at..at + 4]
  {
    FourOrTwo(pkt, at, cur);
  }

  lemma Halves(pkt: seq<byte>, a: nat)
    requires a + 4 <= |pkt|
    ensures var four := pkt[a..a + 4];
            four == pkt[a..a + 2] + pkt[a + 2..a + 4] && four[..2] == pkt[a..a + 2] && four[2..] == pkt[a + 2..a + 4]
  {
  }

  lemma FourOrTwo(pkt: seq<byte>, a: nat, b: nat)
    requires a + 4 <= |pkt| && b + 4 <= |pkt|
    ensures pkt[a..a + 4] == pkt[b..b + 4] <==> pkt[a..a + 2] == pkt[b..b + 2] && pkt[a + 2..a + 4] == pkt[b + 2..b + 4]
  {
    Halves(pkt, a);
    Halves(pkt, b);
  }

  // ---------- resource data and their encoding ----------

  // The data of the record types (sections 3.3 and 3.4 of RFC 1035, RFC 2782, RFC 3403).
  datatype RData =
    | AData(addr: seq<byte>)
    | TxtData(strings: seq<seq<byte>>)
    | PtrData(name: Labels)
    | MxData(priority: nat, name: Labels)
    | SrvData(priority: nat, weight: nat, port: nat, name: Labels)
    | NaptrData(order: nat, preference: nat, flags: seq<byte>, service: seq<byte>, regexp: seq<byte>, name: Labels)

  ghost predicate LegalName(name: Labels) {
    ShortLabels(name) && |Wire(name)| <= 255
  }

  ghost predicate Encodable(d: RData) {
    match d
    case AData(addr) => true
    case TxtData(strings) => forall s :: s in strings ==> |s| < 256
    case PtrData(name) => LegalName(name)
    case MxData(priority, name) => priority < 65536 && LegalName(name)
    case SrvData(priority, weight, port, name) =>
      priority < 65536 && weight < 65536 && port < 65536 && LegalName(name)
    case NaptrData(order, preference, flags, service, regexp, name) =>
      && order < 65536 && preference < 65536 && |flags| < 256 && |service| < 256 && |regexp| < 256
      && LegalName(name)
  }

  predicate OfKind(k: Kind, d: RData) {
    match d
    case AData(addr) => k == A(|addr|)
    case TxtData(_) => k == Txt
    case PtrData(_) => k == Ptr
    case MxData(_, _) => k == Mx
    case SrvData(_, _, _, _) => k == Srv
    case NaptrData(_, _, _, _, _, _) => k == Naptr
  }

  // A 16-bit number, and a string behind its length
  ghost function Two(n: nat): seq<byte>
    requires n < 65536
  {
    [n / 256, n % 256]
  }

  ghost function Counted(s: seq<byte>): seq<byte>
    requires |s| < 256
  {
    [|s|] + s
  }

  ghost function CharStrings(strings: seq<seq<byte>>): seq<byte>
    requires forall s :: s in strings ==> |s| < 256
  {
    if strings == [] then [] else Counted(strings[0]) + CharStrings(strings[1..])
  }

  ghost function Joint(strings: seq<seq<byte>>): seq<byte> {
    if strings == [] then [] else strings[0] + Joint(strings[1..])
  }

  ghost function RdataBytes(d: RData): seq<byte>
    requires Encodable(d)
  {
    match d
    case AData(addr) => addr
    case TxtData(strings) => CharStrings(strings)
    case PtrData(name) => Wire(name)
    case MxData(priority, name) => Two(priority) + Wire(name)
    case SrvData(priority, weight, port, name) => Two(priority) + (Two(weight) + (Two(port) + Wire(name)))
    case NaptrData(order, preference, flags, service, regexp, name) =>
      Two(order) + (Two(preference) + (Counted(flags) + (Counted(service) + (Counted(regexp) + Wire(name)))))
  }

  // ---------- what the caller sees ----------

  ghost predicate NameStands(area: seq<byte>, at: nat, name: Labels) {
    && Stands(area, at, TextOf(name) + [0]) && 0 in area[at..]
    && var t := DnFromText.TextArg(area[at..], 0); Names(t) && NamedLabels(t) == name
  }

  // An entry of a block gives these data: the numbers in their fields, the strings where it points to, with a
  // zero byte behind them, and names as text that reads back as the name.
  ghost predicate Gives(area: seq<byte>, e: Entry, d: RData) {
    match d
    case AData(addr) => |e.places| == 1 && Stands(area, e.places[0], addr)
    case TxtData(strings) =>
      |e.places| == 1 && Stands(area, e.places[0], Joint(strings) + [0]) && e.len == |Joint(strings)|
    case PtrData(name) => |e.places| == 1 && NameStands(area, e.places[0], name)
    case MxData(priority, name) =>
      e.fields == MxFields(priority) && |e.places| == 1 && NameStands(area, e.places[0], name)
    case SrvData(priority, weight, port, name) =>
      e.fields == SrvFields(priority, weight, port) && |e.places| == 1 && NameStands(area, e.places[0], name)
    case NaptrData(order, preference, flags, service, regexp, name) =>
      && e.fields == NaptrFields(order, preference) && |e.places| == 4
      && Stands(area, e.places[0], flags + [0]) && Stands(area, e.places[1], service + [0])
      && Stands(area, e.places[2], regexp + [0]) && NameStands(area, e.places[3], name)
  }

  // ---------- one record ----------

  ghost function ItemFor(d: RData): Item {
    match d
    case AData(addr) => Item(NoFields, [addr])
    case TxtData(strings) => Item(NoFields, [Joint(strings)])
    case PtrData(name) => Item(NoFields, [TextOf(name)])
    case MxData(priority, name) => Item(MxFields(priority), [TextOf(name)])
    case SrvData(priority, weight, port, name) => Item(SrvFields(priority, weight, port), [TextOf(name)])
    case NaptrData(order, preference, flags, service, regexp, name) =>
      Item(NaptrFields(order, preference), [flags, service, regexp] + [TextOf(name)])
  }

  ghost predicate BytesAt(pkt: seq<byte>, from: nat, to: nat, s: seq<byte>) {
    from <= to <= |pkt| && pkt[from..to] == s
  }

  lemma BytesSplit(pkt: seq<byte>, from: nat, to: nat, s: seq<byte>, t: seq<byte>)
    requires BytesAt(pkt, from, to, s + t)
    ensures BytesAt(pkt, from, from + |s|, s) && BytesAt(pkt, from + |s|, to, t)
  {
    assert pkt[from..from + |s|] == (s + t)[..|s|];
    assert pkt[from + |s|..to] == (s + t)[|s|..];
  }

  lemma NumberAt(pkt: seq<byte>, pos: nat, n: nat)
    requires n < 65536 && BytesAt(pkt, pos, pos + 2, Two(n))
    ensures Get16(pkt, pos) == n
  {
    assert pkt[pos] == pkt[pos..pos + 2][0] && pkt[pos + 1] == pkt[pos..pos + 2][1];
  }

  lemma LegalNameAt(pkt: seq<byte>, pos: nat, dend: nat, name: Labels)
    requires LegalName(name) && BytesAt(pkt, pos, dend, Wire(name))
    ensures DataName(pkt, pos, dend) == Some(name)
  {
    ExpandWire(pkt, pos, name, MAXJUMPS);
  }

  // The record that holds the data.
  ghost predicate Holds(pkt: seq<byte>, rr: Record, d: RData)
    requires Encodable(d)
  {
    BytesAt(pkt, rr.dptr, rr.dend, RdataBytes(d))
  }

  lemma ItemIs(k: Kind, pkt: seq<byte>, rr: Record, d: RData)
    requires Encodable(d) && OfKind(k, d) && Holds(pkt, rr, d)
    ensures InPacket(pkt, rr) && ItemOf(k, pkt, rr) == Some(ItemFor(d))
  {
    match d {
      case AData(addr) => PartsItem(k, pkt, rr, [addr], NoFields);
      case TxtData(strings) =>
        JoinedIs(pkt, rr.dptr, rr.dend, strings);
        PartsItem(k, pkt, rr, [Joint(strings)], NoFields);
      case PtrData(name) =>
        NamedItem(k, pkt, rr, name, NoFields);
      case MxData(priority, name) => MxItem(pkt, rr, priority, name);
      case SrvData(priority, weight, port, name) => SrvItem(pkt, rr, priority, weight, port, name);
      case NaptrData(order, preference, flags, service, regexp, name) =>
        NaptrItem(pkt, rr, order, preference, flags, service, regexp, name);
    }
  }

  lemma PartsItem(k: Kind, pkt: seq<byte>, rr: Record, parts: seq<seq<byte>>, fields: Fields)
    requires InPacket(pkt, rr) && Parts(k, pkt, rr) == Some(parts)
    requires rr.dptr + RRBuilders.Skip(k) <= |pkt| && Numbers(k, pkt, rr.dptr) == fields
    ensures ItemOf(k, pkt, rr) == Some(Item(fields, parts))
  {
  }

  lemma NamedItem(k: Kind, pkt: seq<byte>, rr: Record, name: Labels, fields: Fields)
    requires k in {Ptr, Mx, Srv} && InPacket(pkt, rr) && LegalName(name)
    requires BytesAt(pkt, rr.dptr + RRBuilders.Skip(k), rr.dend, Wire(name)) && Numbers(k, pkt, rr.dptr) == fields
    ensures ItemOf(k, pkt, rr) == Some(Item(fields, [TextOf(name)]))
  {
    LegalNameAt(pkt, rr.dptr + RRBuilders.Skip(k), rr.dend, name);
    assert [] + [TextOf(name)] == [TextOf(name)];
    PartsItem(k, pkt, rr, [TextOf(name)], fields);
  }

  lemma {:induction false} JoinedIs(pkt: seq<byte>, pos: nat, ep: nat, strings: seq<seq<byte>>)
    requires (forall s :: s in strings ==> |s| < 256) && BytesAt(pkt, pos, ep, CharStrings(strings))
    ensures Joined(pkt, pos, ep) == Some(Joint(strings))
    decreases |strings|
  {
    if strings != [] {
      var s := strings[0];
      BytesSplit(pkt, pos, ep, Counted(s), CharStrings(strings[1..]));
      StringAt(pkt, pos, ep, s);
      JoinedIs(pkt, pos + 1 + |s|, ep, strings[1..]);
    }
  }

  lemma StringAt(pkt: seq<byte>, pos: nat, ep: nat, s: seq<byte>)
    requires |s| < 256 && BytesAt(pkt, pos, pos + 1 + |s|, Counted(s)) && pos + 1 + |s| <= ep <= |pkt|
    ensures CharString(pkt, pos, ep) == Some(s) && pkt[pos] == |s|
  {
    BytesSplit(pkt, pos, pos + 1 + |s|, [|s|], s);
    assert pkt[pos] == pkt[pos..pos + 1][0];
  }

  lemma MxItem(pkt: seq<byte>, rr: Record, priority: nat, name: Labels)
    requires priority < 65536 && LegalName(name) && BytesAt(pkt, rr.dptr, rr.dend, Two(priority) + Wire(name))
    ensures ItemOf(Mx, pkt, rr) == Some(Item(MxFields(priority), [TextOf(name)]))
  {
    BytesSplit(pkt, rr.dptr, rr.dend, Two(priority), Wire(name));
    NumberAt(pkt, rr.dptr, priority);
    NamedItem(Mx, pkt, rr, name, MxFields(priority));
  }

  lemma SrvItem(pkt: seq<byte>, rr: Record, priority: nat, weight: nat, port: nat, name: Labels)
    requires priority < 65536 && weight < 65536 && port < 65536 && LegalName(name)
    requires BytesAt(pkt, rr.dptr, rr.dend, Two(priority) + (Two(weight) + (Two(port) + Wire(name))))
    ensures ItemOf(Srv, pkt, rr) == Some(Item(SrvFields(priority, weight, port), [TextOf(name)]))
  {
    SrvNumbers(pkt, rr.dptr, rr.dend, priority, weight, port, Wire(name));
    NamedItem(Srv, pkt, rr, name, SrvFields(priority, weight, port));
  }

  lemma SrvNumbers(pkt: seq<byte>, p: nat, dend: nat, n1: nat, n2: nat, n3: nat, w: seq<byte>)
    requires n1 < 65536 && n2 < 65536 && n3 < 65536 && BytesAt(pkt, p, dend, Two(n1) + (Two(n2) + (Two(n3) + w)))
    ensures p + 6 <= |pkt| && Get16(pkt, p) == n1 && Get16(pkt, p + 2) == n2 && Get16(pkt, p + 4) == n3
    ensures BytesAt(pkt, p + 6, dend, w)
  {
    BytesSplit(pkt, p, dend, Two(n1), Two(n2) + (Two(n3) + w));
    BytesSplit(pkt, p + 2, dend, Two(n2), Two(n3) + w);
    BytesSplit(pkt, p + 4, dend, Two(n3), w);
    NumberAt(pkt, p, n1);
    NumberAt(pkt, p + 2, n2);
    NumberAt(pkt, p + 4, n3);
  }

  lemma NaptrItem(pkt: seq<byte>, rr: Record, order: nat, preference: nat, a: seq<byte>, b: seq<byte>, c: seq<byte>,
                  name: Labels)
    requires order < 65536 && preference < 65536 && |a| < 256 && |b| < 256 && |c| < 256 && LegalName(name)
    requires BytesAt(pkt, rr.dptr, rr.dend,
                     Two(order) + (Two(preference) + (Counted(a) + (Counted(b) + (Counted(c) + Wire(name))))))
    ensures ItemOf(Naptr, pkt, rr) == Some(Item(NaptrFields(order, preference), [a, b, c] + [TextOf(name)]))
  {
    NaptrNumbers(pkt, rr.dptr, rr.dend, order, preference, Counted(a) + (Counted(b) + (Counted(c) + Wire(name))));
    NaptrParts(pkt, rr, a, b, c, name);
    PartsItem(Naptr, pkt, rr, [a, b, c] + [TextOf(name)], NaptrFields(order, preference));
  }

  lemma NaptrNumbers(pkt: seq<byte>, p: nat, dend: nat, n1: nat, n2: nat, w: seq<byte>)
    requires n1 < 65536 && n2 < 65536 && BytesAt(pkt, p, dend, Two(n1) + (Two(n2) + w))
    ensures p + 4 <= |pkt| && Get16(pkt, p) == n1 && Get16(pkt, p + 2) == n2 && BytesAt(pkt, p + 4, dend, w)
  {
    BytesSplit(pkt, p, dend, Two(n1), Two(n2) + w);
    BytesSplit(pkt, p + 2, dend, Two(n2), w);
    NumberAt(pkt, p, n1);
    NumberAt(pkt, p + 2, n2);
  }

  lemma NaptrParts(pkt: seq<byte>, rr: Record, a: seq<byte>, b: seq<byte>, c: seq<byte>, name: Labels)
    requires InPacket(pkt, rr) && |a| < 256 && |b| < 256 && |c| < 256 && LegalName(name)
    requires BytesAt(pkt, rr.dptr + 4, rr.dend, Counted(a) + (Counted(b) + (Counted(c) + Wire(name))))
    ensures Parts(Naptr, pkt, rr) == Some([a, b, c] + [TextOf(name)])
  {
    var last := NaptrStrings(pkt, rr.dptr + 4, rr.dend, a, b, c, name);
    LegalNameAt(pkt, last, rr.dend, name);
    StringsAndName(pkt, rr, [a, b, c], last, name);
  }

  lemma StringsAndName(pkt: seq<byte>, rr: Record, ss: seq<seq<byte>>, last: nat, name: Labels)
    requires InPacket(pkt, rr) && Strings(pkt, rr.dptr + 4, rr.dend, 3) == Some((ss, last))
    requires DataName(pkt, last, rr.dend) == Some(name)
    ensures Parts(Naptr, pkt, rr) == Some(ss + [TextOf(name)])
  {
  }

  lemma NaptrStrings(pkt: seq<byte>, pos: nat, ep: nat, a: seq<byte>, b: seq<byte>, c: seq<byte>, name: Labels)
    returns (last: nat)
    requires |a| < 256 && |b| < 256 && |c| < 256 && Labelled(name)
    requires BytesAt(pkt, pos, ep, Counted(a) + (Counted(b) + (Counted(c) + Wire(name))))
    ensures Strings(pkt, pos, ep, 3) == Some(([a, b, c], last)) && BytesAt(pkt, last, ep, Wire(name))
  {
    var p2, p3 := pos + 1 + |a|, pos + 1 + |a| + 1 + |b|;
    last := p3 + 1 + |c|;
    ThreeSplit(pkt, pos, ep, a, b, c, Wire(name));
    StringAt(pkt, pos, ep, a);
    StringAt(pkt, p2, ep, b);
    StringAt(pkt, p3, ep, c);
    assert Strings(pkt, last, ep, 0) == Some(([], last));
    OneStringMore(pkt, p3, ep, c, [], last, 0);
    OneStringMore(pkt, p2, ep, b, [c] + [], last, 1);
    OneStringMore(pkt, pos, ep, a, [b] + ([c] + []), last, 2);
    assert [a] + ([b] + ([c] + [])) == [a, b, c];
  }

  lemma ThreeSplit(pkt: seq<byte>, pos: nat, ep: nat, a: seq<byte>, b: seq<byte>, c: seq<byte>, w: seq<byte>)
    requires |a| < 256 && |b| < 256 && |c| < 256
    requires BytesAt(pkt, pos, ep, Counted(a) + (Counted(b) + (Counted(c) + w)))
    ensures var p2, p3 := pos + 1 + |a|, pos + 1 + |a| + 1 + |b|;
            && BytesAt(pkt, pos, p2, Counted(a)) && BytesAt(pkt, p2, p3, Counted(b))
            && BytesAt(pkt, p3, p3 + 1 + |c|, Counted(c)) && BytesAt(pkt, p3 + 1 + |c|, ep, w)
  {
    BytesSplit(pkt, pos, ep, Counted(a), Counted(b) + (Counted(c) + w));
    BytesSplit(pkt, pos + 1 + |a|, ep, Counted(b), Counted(c) + w);
    BytesSplit(pkt, pos + 1 + |a| + 1 + |b|, ep, Counted(c), w);
  }

  lemma OneStringMore(pkt: seq<byte>, pos: nat, ep: nat, s: seq<byte>, rest: seq<seq<byte>>, last: nat, n: nat)
    requires ep <= |pkt| && CharString(pkt, pos, ep) == Some(s)
    requires Strings(pkt, pos + 1 + |s|, ep, n) == Some((rest, last))
    ensures Strings(pkt, pos, ep, n + 1) == Some(([s] + rest, last))
  {
  }

  // What stands for the item of the data is what the caller sees.
  lemma ItemGives(k: Kind, area: seq<byte>, e: Entry, d: RData)
    requires Encodable(d) && OfKind(k, d) && EntryStands(k, area, ItemFor(d), e)
    ensures Gives(area, e, d)
  {
    var parts := ItemFor(d).parts;
    assert forall j :: 0 <= j < |parts| ==> Stands(area, e.places[j], parts[j] + Zero(k));
    match d {
      case AData(addr) => assert addr + [] == addr;
      case TxtData(_) =>
      case NaptrData(_, _, _, _, _, name) => NameReadsBack(area, e.places[3], name);
      case PtrData(name) => NameReadsBack(area, e.places[0], name);
      case MxData(_, name) => NameReadsBack(area, e.places[0], name);
      case SrvData(_, _, _, name) => NameReadsBack(area, e.places[0], name);
    }
  }

  // The i-th entry of a block gives the data that the i-th selected record holds.
  lemma EntryGives(k: Kind, pkt: seq<byte>, sel: Selection, b: Block, i: nat, d: RData)
    requires |pkt| >= HSIZE && Terminated(pkt, HSIZE) && sel.name.Name? && Good(k, pkt, sel.rrs)
    requires FilledIn(k, pkt, sel, b) && i < |sel.rrs|
    requires Encodable(d) && OfKind(k, d) && Holds(pkt, sel.rrs[i], d)
    ensures i < |b.entries| && Gives(b.area[..], b.entries[i], d)
  {
    BlockEntries(k, pkt, sel, b, i);
    ItemIs(k, pkt, sel.rrs[i], d);
    ItemGives(k, b.area[..], b.entries[i], d);
  }

  // ---------- a whole answer ----------

  // A record as a server sends it: its time to live, and its data.
  datatype Sent = Sent(ttl: seq<byte>, data: seq<byte>)

  ghost predicate Legal(r: Sent) {
    |r.ttl| == 4 && |r.data| < 65536
  }

  ghost predicate AllLegal(rs: seq<Sent>) {
    forall i :: 0 <= i < |rs| ==> Legal(rs[i])
  }

  // A compressed name: a pointer to offset o (section 4.1.4 of RFC 1035).
  ghost function PointerTo(o: nat): seq<byte>
    requires o < 0x4000
  {
    [0xC0 + o / 256, o % 256]
  }

  // The owner is a pointer to a name that stands at offset o; then type and class, the time to live, the length
  // of the data, and the data.
  ghost function RecordBytes(o: nat, typcls: seq<byte>, r: Sent): seq<byte>
    requires o < 0x4000 && Legal(r)
  {
    PointerTo(o) + (typcls + (r.ttl + (Two(|r.data|) + r.data)))
  }

  ghost function SectionBytes(o: nat, typcls: seq<byte>, rs: seq<Sent>): seq<byte>
    requires o < 0x4000 && AllLegal(rs)
  {
    if rs == [] then [] else RecordBytes(o, typcls, rs[0]) + SectionBytes(o, typcls, rs[1..])
  }

  ghost function TtlValue(ttl: seq<byte>): nat
    requires |ttl| == 4
  {
    Big(ttl[0], ttl[1]) * 65536 + Big(ttl[2], ttl[3])
  }

  ghost predicate RecordIs(pkt: seq<byte>, rr: Record, r: Sent) {
    Legal(r) && BytesAt(pkt, rr.dptr, rr.dend, r.data) && rr.ttl == TtlValue(r.ttl)
  }

  // At offset o stands this name, and one more pointer to it can be followed.
  ghost predicate NamedThere(pkt: seq<byte>, o: nat, name: Labels) {
    12 <= o < 0x4000 && LegalName(name) && Expand(pkt, o, MAXJUMPS - 1) == Some(name)
  }

  lemma RecordAt(pkt: seq<byte>, o: nat, pos: nat, name: Labels, typcls: seq<byte>, r: Sent)
    requires NamedThere(pkt, o, name) && Legal(r) && |typcls| == 4
    requires BytesAt(pkt, pos, pos + 12 + |r.data|, RecordBytes(o, typcls, r))
    ensures Decode(pkt, pos).Some? && NextPos(pkt, pos) == pos + 2 && BytesAt(pkt, pos + 2, pos + 6, typcls)
    ensures var rr := Decode(pkt, pos).value;
            rr.owner == name && rr.dptr == pos + 12 && rr.dend == pos + 12 + |r.data| && RecordIs(pkt, rr, r)
  {
    FiveParts(pkt, pos, PointerTo(o), typcls, r.ttl, |r.data|, r.data);
    OwnerAt(pkt, o, pos, name);
    NumberAt(pkt, pos + 10, |r.data|);
    TtlAt(pkt, pos + 6, r.ttl);
  }

  lemma FiveParts(pkt: seq<byte>, pos: nat, own: seq<byte>, typcls: seq<byte>, ttl: seq<byte>, n: nat,
                  data: seq<byte>)
    requires |own| == 2 && |typcls| == 4 && |ttl| == 4 && |data| == n < 65536
    requires BytesAt(pkt, pos, pos + 12 + n, own + (typcls + (ttl + (Two(n) + data))))
    ensures BytesAt(pkt, pos, pos + 2, own) && BytesAt(pkt, pos + 2, pos + 6, typcls)
    ensures BytesAt(pkt, pos + 6, pos + 10, ttl) && BytesAt(pkt, pos + 10, pos + 12, Two(n))
    ensures BytesAt(pkt, pos + 12, pos + 12 + n, data)
  {
    BytesSplit(pkt, pos, pos + 12 + n, own, typcls + (ttl + (Two(n) + data)));
    BytesSplit(pkt, pos + 2, pos + 12 + n, typcls, ttl + (Two(n) + data));
    BytesSplit(pkt, pos + 6, pos + 12 + n, ttl, Two(n) + data);
    BytesSplit(pkt, pos + 10, pos + 12 + n, Two(n), data);
  }

  lemma OwnerAt(pkt: seq<byte>, o: nat, pos: nat, name: Labels)
    requires NamedThere(pkt, o, name) && BytesAt(pkt, pos, pos + 2, PointerTo(o))
    ensures Expand(pkt, pos, MAXJUMPS) == Some(name) && NextPos(pkt, pos) == pos + 2
  {
    assert pkt[pos] == pkt[pos..pos + 2][0] && pkt[pos + 1] == pkt[pos..pos + 2][1];
    PointerLeads(pkt, pos, MAXJUMPS - 1, o);
  }

  lemma FourBytes(pkt: seq<byte>, at: nat, cur: nat, s: seq<byte>)
    requires |s| == 4 && BytesAt(pkt, at, at + 4, s) && BytesAt(pkt, cur, cur + 4, s)
    ensures Answering(pkt, at, cur)
  {
    Within(pkt, at, s, 0, 2);
    Within(pkt, at, s, 2, 4);
    Within(pkt, cur, s, 0, 2);
    Within(pkt, cur, s, 2, 4);
  }

  lemma TtlAt(pkt: seq<byte>, pos: nat, ttl: seq<byte>)
    requires |ttl| == 4 && BytesAt(pkt, pos, pos + 4, ttl)
    ensures Get32(pkt, pos) == TtlValue(ttl)
  {
    assert forall i :: 0 <= i < 4 ==> pkt[pos..pos + 4][i] == ttl[i];
    assert pkt[pos] == pkt[pos..pos + 4][0] && pkt[pos + 1] == pkt[pos..pos + 4][1];
    assert pkt[pos + 2] == pkt[pos..pos + 4][2] && pkt[pos + 3] == pkt[pos..pos + 4][3];
  }

  ghost function LeastTtl(rs: seq<Sent>): nat
    requires AllLegal(rs)
  {
    if rs == [] then MAXTTL else Min(TtlValue(rs[0].ttl), LeastTtl(rs[1..]))
  }

  ghost predicate AllRecords(pkt: seq<byte>, rrs: seq<Record>, rs: seq<Sent>) {
    |rrs| == |rs| && forall i :: 0 <= i < |rs| ==> RecordIs(pkt, rrs[i], rs[i])
  }

  // The selection from pos on is these records.
  ghost predicate SectionIs(pkt: seq<byte>, at: nat, pos: nat, a: Asked, rs: seq<Sent>, found: bool)
    requires at + 4 <= |pkt| && AllLegal(rs)
  {
    var sel := ScanFrom(pkt, WishAt(pkt, at), pos, |rs|, a, found);
    !sel.bad && sel.name == a && AllRecords(pkt, sel.rrs, rs) && sel.ttl == LeastTtl(rs)
  }

  // Every record of the section is selected, in order.
  lemma {:induction false} SectionSelected(pkt: seq<byte>, o: nat, at: nat, pos: nat, end: nat, a: Asked,
                                           typcls: seq<byte>, rs: seq<Sent>, found: bool)
    requires a.Name? && NamedThere(pkt, o, a.labels)
    requires BytesAt(pkt, at, at + 4, typcls) && |typcls| == 4 && AllLegal(rs)
    requires BytesAt(pkt, pos, end, SectionBytes(o, typcls, rs))
    ensures SectionIs(pkt, at, pos, a, rs, found)
    decreases |rs|
  {
    if rs != [] {
      var next := FirstRecord(pkt, o, at, pos, end, a.labels, typcls, rs);
      SectionSelected(pkt, o, at, next, end, a, typcls, rs[1..], true);
      OneSelected(pkt, at, pos, a, rs, found);
    }
  }

  lemma FirstRecord(pkt: seq<byte>, o: nat, at: nat, pos: nat, end: nat, name: Labels, typcls: seq<byte>,
                    rs: seq<Sent>)
    returns (next: nat)
    requires NamedThere(pkt, o, name) && rs != [] && AllLegal(rs)
    requires BytesAt(pkt, at, at + 4, typcls) && |typcls| == 4 && BytesAt(pkt, pos, end, SectionBytes(o, typcls, rs))
    ensures Decode(pkt, pos).Some? && NextPos(pkt, pos) == pos + 2 && pos + 12 <= |pkt| && Answering(pkt, at, pos + 2)
    ensures var rr := Decode(pkt, pos).value; rr.owner == name && rr.dend == next && RecordIs(pkt, rr, rs[0])
    ensures AllLegal(rs[1..]) && BytesAt(pkt, next, end, SectionBytes(o, typcls, rs[1..]))
  {
    next := pos + 12 + |rs[0].data|;
    BytesSplit(pkt, pos, end, RecordBytes(o, typcls, rs[0]), SectionBytes(o, typcls, rs[1..]));
    RecordAt(pkt, o, pos, name, typcls, rs[0]);
    FourBytes(pkt, at, pos + 2, typcls);
  }

  lemma OneSelected(pkt: seq<byte>, at: nat, pos: nat, a: Asked, rs: seq<Sent>, found: bool)
    requires at + 4 <= |pkt| && a.Name? && rs != [] && AllLegal(rs) && Decode(pkt, pos).Some? && pos + 12 <= |pkt|
    requires Decode(pkt, pos).value.owner == a.labels && NextPos(pkt, pos) == pos + 2 && Answering(pkt, at, pos + 2)
    requires RecordIs(pkt, Decode(pkt, pos).value, rs[0])
    requires SectionIs(pkt, at, Decode(pkt, pos).value.dend, a, rs[1..], true)
    ensures SectionIs(pkt, at, pos, a, rs, found)
  {
    var rr := Decode(pkt, pos).value;
    HitPuts(pkt, at, pos, |rs|, a, found);
    OneRecordMore(pkt, rr, ScanFrom(pkt, WishAt(pkt, at), rr.dend, |rs| - 1, a, true).rrs, rs);
  }

  lemma HitPuts(pkt: seq<byte>, at: nat, pos: nat, n: nat, a: Asked, found: bool)
    requires at + 4 <= |pkt| && a.Name? && n > 0 && Decode(pkt, pos).Some? && pos + 12 <= |pkt|
    requires Decode(pkt, pos).value.owner == a.labels && NextPos(pkt, pos) == pos + 2 && Answering(pkt, at, pos + 2)
    ensures ScanFrom(pkt, WishAt(pkt, at), pos, n, a, found)
         == ScanFrom(pkt, WishAt(pkt, at), Decode(pkt, pos).value.dend, n - 1, a, true).Put(Decode(pkt, pos).value)
  {
    HitIsAnswering(pkt, at, pos, a);
    ScanStep(pkt, WishAt(pkt, at), pos, n, a, found);
    assert SameName(a.labels, a.labels);
  }

  lemma OneRecordMore(pkt: seq<byte>, rr: Record, rest: seq<Record>, rs: seq<Sent>)
    requires rs != [] && RecordIs(pkt, rr, rs[0]) && AllRecords(pkt, rest, rs[1..])
    ensures AllRecords(pkt, [rr] + rest, rs)
  {
    forall i | 0 <= i < |rs| ensures RecordIs(pkt, ([rr] + rest)[i], rs[i]) {
      if i > 0 {
        assert rs[i] == rs[1..][i - 1];
      }
    }
  }

  // A reply: any header with this many answers, and the question.
  ghost predicate Asks(pkt: seq<byte>, name: Labels, typcls: seq<byte>, n: nat) {
    && LegalName(name) && |typcls| == 4 && 12 <= |pkt| && Big(pkt[6], pkt[7]) == n
    && BytesAt(pkt, 12, 12 + |Wire(name)|, Wire(name))
    && BytesAt(pkt, 12 + |Wire(name)|, 12 + |Wire(name)| + 4, typcls)
  }

  // The question is followed by the answers, whose owners point to its name, and by anything else.
  ghost predicate ReplyWith(pkt: seq<byte>, name: Labels, typcls: seq<byte>, rs: seq<Sent>) {
    && Asks(pkt, name, typcls, |rs|) && AllLegal(rs)
    && var ans := 12 + |Wire(name)| + 4;
       BytesAt(pkt, ans, ans + |SectionBytes(12, typcls, rs)|, SectionBytes(12, typcls, rs))
  }

  // The first answer is an alias (type 5) of the name asked for; the owners of the others point to its target,
  // which stands in the data of the alias.
  ghost predicate ReplyAliased(pkt: seq<byte>, name: Labels, typcls: seq<byte>, ttl: seq<byte>, target: Labels,
                               rs: seq<Sent>)
  {
    && Asks(pkt, name, typcls, |rs| + 1) && AllLegal(rs) && |ttl| == 4 && LegalName(target)
    && var ans := 12 + |Wire(name)| + 4;
       var next := ans + 12 + |Wire(target)|;
       && BytesAt(pkt, ans, next, RecordBytes(12, [0, 5] + typcls[2..], Sent(ttl, Wire(target))))
       && BytesAt(pkt, next, next + |SectionBytes(ans + 12, typcls, rs)|, SectionBytes(ans + 12, typcls, rs))
  }

  // The records of the reply hold these data.
  ghost predicate Encodes(k: Kind, rs: seq<Sent>, ds: seq<RData>) {
    && |rs| == |ds|
    && forall i {:trigger ds[i]} :: 0 <= i < |ds| ==>
         Encodable(ds[i]) && OfKind(k, ds[i]) && rs[i].data == RdataBytes(ds[i])
  }

  // For such a reply the parsing routine selects exactly the records sent, in order; its status is 0, or
  // NODATA (-4) if there are none.
  lemma ReplyStatus(k: Kind, pkt: seq<byte>, name: Labels, typcls: seq<byte>, rs: seq<Sent>, ds: seq<RData>)
    requires ReplyWith(pkt, name, typcls, rs) && Encodes(k, rs, ds)
    ensures var at := 12 + |Wire(name)|; var sel := Selected(pkt, at, Name(name, false));
            && NextPos(pkt, 12) == at && QuestionSized(pkt)
            && AllRecords(pkt, sel.rrs, rs) && sel.ttl == LeastTtl(rs) && sel.name == Name(name, false)
            && Good(k, pkt, sel.rrs) && StatusOf(k, pkt, sel) == if rs == [] then -4 else 0
  {
    var at := 12 + |Wire(name)|;
    var sel := ReplySelects(pkt, at, name, typcls, rs);
    QuestionIs(pkt, name);
    ExpandWire(pkt, 12, name, MAXJUMPS - 1);
    AllGood(k, pkt, sel.rrs, rs, ds);
  }

  lemma ReplySelects(pkt: seq<byte>, at: nat, name: Labels, typcls: seq<byte>, rs: seq<Sent>)
    returns (sel: Selection)
    requires ReplyWith(pkt, name, typcls, rs) && at == 12 + |Wire(name)|
    ensures sel == Selected(pkt, at, Name(name, false)) && sel.name == Name(name, false) && !sel.bad
    ensures AllRecords(pkt, sel.rrs, rs) && sel.ttl == LeastTtl(rs)
  {
    ExpandWire(pkt, 12, name, MAXJUMPS - 1);
    SectionSelected(pkt, 12, at, at + 4, at + 4 + |SectionBytes(12, typcls, rs)|, Name(name, false), typcls, rs,
                    false);
    sel := ScanFrom(pkt, WishAt(pkt, at), at + 4, |rs|, Name(name, false), false);
  }

  lemma QuestionIs(pkt: seq<byte>, name: Labels)
    requires LegalName(name) && BytesAt(pkt, 12, 12 + |Wire(name)|, Wire(name))
    ensures QuestionSized(pkt) && LabelsAt(pkt, 12) == name
  {
    var rest := pkt[12 + |Wire(name)|..];
    assert pkt == pkt[..12] + Wire(name) + rest;
    LabelsOfWire(pkt[..12], name, rest);
    TextSizeBound(name);
  }

  // The alias is followed, unless the question asks for aliases or for any type: what is selected are the
  // answers for its target, and its time to live counts.
  lemma AliasStatus(k: Kind, pkt: seq<byte>, name: Labels, typcls: seq<byte>, ttl: seq<byte>, target: Labels,
                    rs: seq<Sent>, ds: seq<RData>)
    requires ReplyAliased(pkt, name, typcls, ttl, target, rs) && Encodes(k, rs, ds)
    requires typcls[..2] !in {[0, 5], [0, 0], [0, 255]}
    ensures var at := 12 + |Wire(name)|; var sel := Selected(pkt, at, Name(name, false));
            && NextPos(pkt, 12) == at && QuestionSized(pkt)
            && AllRecords(pkt, sel.rrs, rs) && sel.ttl == Min(TtlValue(ttl), LeastTtl(rs))
            && sel.name == Name(target, false)
            && Good(k, pkt, sel.rrs) && StatusOf(k, pkt, sel) == if rs == [] then -4 else 0
  {
    var at := 12 + |Wire(name)|;
    var sel := AliasSelects(pkt, at, name, typcls, ttl, target, rs);
    QuestionIs(pkt, name);
    ExpandWire(pkt, 12, name, MAXJUMPS - 1);
    AllGood(k, pkt, sel.rrs, rs, ds);
  }

  lemma AliasSelects(pkt: seq<byte>, at: nat, name: Labels, typcls: seq<byte>, ttl: seq<byte>, target: Labels,
                     rs: seq<Sent>)
    returns (sel: Selection)
    requires ReplyAliased(pkt, name, typcls, ttl, target, rs) && at == 12 + |Wire(name)|
    requires typcls[..2] !in {[0, 5], [0, 0], [0, 255]}
    ensures sel == Selected(pkt, at, Name(name, false)) && sel.name == Name(target, false) && !sel.bad
    ensures AllRecords(pkt, sel.rrs, rs) && sel.ttl == Min(TtlValue(ttl), LeastTtl(rs))
  {
    var next := at + 16 + |Wire(target)|;
    AliasFirst(pkt, at, name, typcls, ttl, target, rs);
    AliasPasses(pkt, at, name, ttl, target, next, |rs|);
    SectionBehind(pkt, at, next, name, typcls, ttl, target, rs);
    sel := LoweredIs(pkt, at, next, Name(target, false), rs, TtlValue(ttl));
  }

  lemma LoweredIs(pkt: seq<byte>, at: nat, pos: nat, a: Asked, rs: seq<Sent>, ttl: nat) returns (sel: Selection)
    requires at + 4 <= |pkt| && AllLegal(rs) && SectionIs(pkt, at, pos, a, rs, false)
    ensures sel == ScanFrom(pkt, WishAt(pkt, at), pos, |rs|, a, false).Lower(ttl)
    ensures !sel.bad && sel.name == a && AllRecords(pkt, sel.rrs, rs) && sel.ttl == Min(ttl, LeastTtl(rs))
  {
    sel := ScanFrom(pkt, WishAt(pkt, at), pos, |rs|, a, false).Lower(ttl);
  }

  lemma AliasFirst(pkt: seq<byte>, at: nat, name: Labels, typcls: seq<byte>, ttl: seq<byte>, target: Labels,
                   rs: seq<Sent>)
    requires ReplyAliased(pkt, name, typcls, ttl, target, rs) && at == 12 + |Wire(name)|
    requires typcls[..2] !in {[0, 5], [0, 0], [0, 255]}
    ensures AliasAt(pkt, at, at + 4, name, TtlValue(ttl), target, at + 16 + |Wire(target)|)
    ensures NamedThere(pkt, at + 16, target)
  {
    ExpandWire(pkt, 12, name, MAXJUMPS - 1);
    AliasRecord(pkt, at, name, typcls, ttl, target);
  }

  lemma SectionBehind(pkt: seq<byte>, at: nat, next: nat, name: Labels, typcls: seq<byte>, ttl: seq<byte>,
                      target: Labels, rs: seq<Sent>)
    requires ReplyAliased(pkt, name, typcls, ttl, target, rs) && at == 12 + |Wire(name)|
    requires NamedThere(pkt, at + 16, target) && next == at + 16 + |Wire(target)|
    ensures SectionIs(pkt, at, next, Name(target, false), rs, false)
  {
    SectionSelected(pkt, at + 16, at, next, next + |SectionBytes(at + 16, typcls, rs)|, Name(target, false), typcls,
                    rs, false);
  }

  // At pos stands a record with this owner that answers nothing, but is an alias of the target.
  ghost predicate AliasAt(pkt: seq<byte>, at: nat, pos: nat, name: Labels, ttl: nat, target: Labels, next: nat) {
    && Decode(pkt, pos).Some? && NextPos(pkt, pos) == pos + 2 && pos + 6 <= |pkt| && at + 4 <= |pkt|
    && !Answering(pkt, at, pos + 2) && pkt[pos + 2] == 0 && pkt[pos + 3] == 5
    && var rr := Decode(pkt, pos).value;
       rr.owner == name && rr.ttl == ttl && rr.data == Some(target) && rr.dend == next
  }

  lemma AliasRecord(pkt: seq<byte>, at: nat, name: Labels, typcls: seq<byte>, ttl: seq<byte>, target: Labels)
    requires NamedThere(pkt, 12, name) && at <= 12 + 255 && |typcls| == 4 && BytesAt(pkt, at, at + 4, typcls)
    requires |ttl| == 4 && LegalName(target) && typcls[..2] !in {[0, 5], [0, 0], [0, 255]}
    requires BytesAt(pkt, at + 4, at + 16 + |Wire(target)|,
                     RecordBytes(12, [0, 5] + typcls[2..], Sent(ttl, Wire(target))))
    ensures NamedThere(pkt, at + 16, target)
    ensures AliasAt(pkt, at, at + 4, name, TtlValue(ttl), target, at + 16 + |Wire(target)|)
  {
    RecordAt(pkt, 12, at + 4, name, [0, 5] + typcls[2..], Sent(ttl, Wire(target)));
    LegalNameAt(pkt, at + 16, at + 16 + |Wire(target)|, target);
    ExpandWire(pkt, at + 16, target, MAXJUMPS - 1);
    NotAsked(pkt, at, at + 6, typcls);
  }

  lemma NotAsked(pkt: seq<byte>, at: nat, cur: nat, typcls: seq<byte>)
    requires |typcls| == 4 && BytesAt(pkt, at, at + 4, typcls) && typcls[..2] !in {[0, 5], [0, 0], [0, 255]}
    requires BytesAt(pkt, cur, cur + 4, [0, 5] + typcls[2..])
    ensures !Answering(pkt, at, cur) && pkt[cur] == 0 && pkt[cur + 1] == 5
  {
    Within(pkt, at, typcls, 0, 2);
    Within(pkt, cur, [0, 5] + typcls[2..], 0, 2);
    assert ([0, 5] + typcls[2..])[0..2] == [0, 5];
    TwoBytes(pkt, cur);
  }

  // The selection goes on behind the alias, for its target.
  lemma AliasPasses(pkt: seq<byte>, at: nat, name: Labels, ttl: seq<byte>, target: Labels, next: nat, n: nat)
    requires |ttl| == 4 && AliasAt(pkt, at, at + 4, name, TtlValue(ttl), target, next)
    ensures ScanFrom(pkt, WishAt(pkt, at), at + 4, n + 1, Name(name, false), false)
         == ScanFrom(pkt, WishAt(pkt, at), next, n, Name(target, false), false).Lower(TtlValue(ttl))
  {
    HitIsAnswering(pkt, at, at + 4, Name(name, false));
    ScanStep(pkt, WishAt(pkt, at), at + 4, n + 1, Name(name, false), false);
    assert SameName(name, name);
  }

  lemma AllGood(k: Kind, pkt: seq<byte>, rrs: seq<Record>, rs: seq<Sent>, ds: seq<RData>)
    requires AllRecords(pkt, rrs, rs) && Encodes(k, rs, ds)
    ensures Good(k, pkt, rrs)
  {
    forall rr | rr in rrs ensures InPacket(pkt, rr) && ItemOf(k, pkt, rr).Some? {
      var i :| 0 <= i < |rrs| && rrs[i] == rr;
      assert RecordIs(pkt, rrs[i], rs[i]);
      ItemIs(k, pkt, rr, ds[i]);
    }
  }

  // The block gives the data of the records, and the names.
  ghost predicate BlockGives(b: Block, ds: seq<RData>, cname: Labels, qname: Labels, ttl: nat)
    reads b.area
  {
    && |b.entries| == b.nrr == |ds| && b.ttl == ttl
    && (forall i :: 0 <= i < |ds| ==> Gives(b.area[..], b.entries[i], ds[i]))
    && NameStands(b.area[..], b.cname, cname) && NameStands(b.area[..], b.qname, qname)
  }

  lemma BlockIs(k: Kind, pkt: seq<byte>, name: Labels, rs: seq<Sent>, ds: seq<RData>, sel: Selection, b: Block)
    requires LegalName(name) && BytesAt(pkt, 12, 12 + |Wire(name)|, Wire(name)) && Terminated(pkt, HSIZE)
    requires AllRecords(pkt, sel.rrs, rs) && Encodes(k, rs, ds) && Good(k, pkt, sel.rrs)
    requires sel.name.Name? && !sel.name.payload && LegalName(sel.name.labels) && FilledIn(k, pkt, sel, b)
    ensures BlockGives(b, ds, sel.name.labels, name, sel.ttl)
  {
    forall i | 0 <= i < |ds| ensures i < |b.entries| && Gives(b.area[..], b.entries[i], ds[i]) {
      assert RecordIs(pkt, sel.rrs[i], rs[i]);
      EntryGives(k, pkt, sel, b, i, ds[i]);
    }
    var front := NamesLast(k, pkt, name, sel, b);
    NamesGiven(b.area[..], front, b.cname, b.qname, sel.name.labels, name);
  }

  // The names are the last two strings of the block.
  lemma NamesLast(k: Kind, pkt: seq<byte>, name: Labels, sel: Selection, b: Block) returns (front: seq<byte>)
    requires LegalName(name) && BytesAt(pkt, 12, 12 + |Wire(name)|, Wire(name)) && Terminated(pkt, HSIZE)
    requires sel.name.Name? && !sel.name.payload && Good(k, pkt, sel.rrs) && FilledIn(k, pkt, sel, b)
    ensures b.area[..] == front + ((TextOf(sel.name.labels) + [0]) + (TextOf(name) + [0]))
    ensures b.cname == |front| && b.qname == |front| + |TextOf(sel.name.labels) + [0]|
  {
    QuestionIs(pkt, name);
    NamesAre(pkt, sel.name);
    front := Contents(k, Items(k, pkt, sel.rrs));
  }

  lemma NamesGiven(area: seq<byte>, front: seq<byte>, cname: nat, qname: nat, first: Labels, second: Labels)
    requires LegalName(first) && LegalName(second)
    requires area == front + ((TextOf(first) + [0]) + (TextOf(second) + [0]))
    requires cname == |front| && qname == |front| + |TextOf(first) + [0]|
    ensures NameStands(area, cname, first) && NameStands(area, qname, second)
  {
    TwoStand(area, front, TextOf(first) + [0], TextOf(second) + [0]);
    NameThere(area, cname, first);
    NameThere(area, qname, second);
  }

  lemma NameThere(area: seq<byte>, at: nat, name: Labels)
    requires LegalName(name) && Stands(area, at, TextOf(name) + [0])
    ensures NameStands(area, at, name)
  {
    NameReadsBack(area, at, name);
  }

  lemma TwoStand(area: seq<byte>, front: seq<byte>, s: seq<byte>, t: seq<byte>)
    requires area == front + (s + t)
    ensures Stands(area, |front|, s) && Stands(area, |front| + |s|, t)
  {
  }

  // And the block that it returns gives the data of all the answers, in order, the least time to live, and
  // the name, as the name asked for and as the name of the answers.
  lemma AnswerRoundTrip(k: Kind, pkt: seq<byte>, name: Labels, typcls: seq<byte>, rs: seq<Sent>, ds: seq<RData>,
                        b: Block)
    requires ReplyWith(pkt, name, typcls, rs) && Encodes(k, rs, ds)
    requires var sel := Selected(pkt, 12 + |Wire(name)|, Name(name, false));
             Good(k, pkt, sel.rrs) && sel.name.Name? && Terminated(pkt, HSIZE) && FilledIn(k, pkt, sel, b)
    ensures BlockGives(b, ds, name, name, LeastTtl(rs))
  {
    ReplyStatus(k, pkt, name, typcls, rs, ds);
    BlockIs(k, pkt, name, rs, ds, Selected(pkt, 12 + |Wire(name)|, Name(name, false)), b);
  }

  // With an alias in front, the name of the answers is its target.
  lemma AliasRoundTrip(k: Kind, pkt: seq<byte>, name: Labels, typcls: seq<byte>, ttl: seq<byte>, target: Labels,
                       rs: seq<Sent>, ds: seq<RData>, b: Block)
    requires ReplyAliased(pkt, name, typcls, ttl, target, rs) && Encodes(k, rs, ds)
    requires typcls[..2] !in {[0, 5], [0, 0], [0, 255]}
    requires var sel := Selected(pkt, 12 + |Wire(name)|, Name(name, false));
             Good(k, pkt, sel.rrs) && sel.name.Name? && Terminated(pkt, HSIZE) && FilledIn(k, pkt, sel, b)
    ensures BlockGives(b, ds, target, name, Min(TtlValue(ttl), LeastTtl(rs)))
  {
    AliasStatus(k, pkt, name, typcls, ttl, target, rs, ds);
    BlockIs(k, pkt, name, rs, ds, Selected(pkt, 12 + |Wire(name)|, Name(name, false)), b);
  }
}
