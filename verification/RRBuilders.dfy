// Turning the selected answer records into one block of memory: dns_parse_a, dns_parse_txt,
// dns_parse_ptr, dns_parse_mx, dns_parse_srv and dns_parse_naptr. Each measures in a first pass over the
// records, allocates, and fills in a second pass.
module RRBuilders {
  import opened Seqs
  import opened Status
  import opened DomainNames
  import opened DnText
  import opened Packets
  import opened RRIter
  import DnFromText

  // A with the size of an address: 4, or 16 for AAAA.
  datatype Kind = A(dsize: nat) | Txt | Ptr | Mx | Srv | Naptr

  // ---------- what the data of a record mean ----------

  // A character string (section 3.3 of RFC 1035): a length byte and that many bytes.
  ghost function CharString(pkt: seq<byte>, pos: nat, ep: nat): (r: Option<seq<byte>>)
    requires ep <= |pkt|
    ensures r.Some? ==>
      pos + 1 + |r.value| <= ep && r.value == pkt[pos + 1..pos + 1 + |r.value|] && |r.value| == pkt[pos]
  {
    if pos < ep && pos + 1 + pkt[pos] <= ep then Some(pkt[pos + 1..pos + 1 + pkt[pos]]) else None
  }

  // Character strings that fill pos..ep, run together.
  ghost function Joined(pkt: seq<byte>, pos: nat, ep: nat): Option<seq<byte>>
    requires pos <= ep <= |pkt|
    decreases ep - pos
  {
    if pos == ep then Some([])
    else match CharString(pkt, pos, ep)
      case None => None
      case Some(s) =>
        match Joined(pkt, pos + 1 + |s|, ep)
        case None => None
        case Some(rest) => Some(s + rest)
  }

  // n character strings in a row, and the position behind them.
  ghost function Strings(pkt: seq<byte>, pos: nat, ep: nat, n: nat): (r: Option<(seq<seq<byte>>, nat)>)
    requires ep <= |pkt|
    ensures r.Some? ==> |r.value.0| == n && (n > 0 ==> pos < r.value.1 <= ep)
    decreases n
  {
    if n == 0 then Some(([], pos))
    else match CharString(pkt, pos, ep)
      case None => None
      case Some(s) =>
        match Strings(pkt, pos + 1 + |s|, ep, n - 1)
        case None => None
        case Some((rest, end)) => Some(([s] + rest, end))
  }

  // The bytes of 16-bit fields before the name.
  function Skip(k: Kind): nat {
    match k case Mx => 2 case Srv => 6 case Naptr => 4 case _ => 0
  }

  ghost predicate InPacket(pkt: seq<byte>, rr: Record) {
    rr.dptr <= rr.dend <= |pkt|
  }

  // The byte strings that a record contributes to the result, None if its data are malformed.
  ghost function Parts(k: Kind, pkt: seq<byte>, rr: Record): Option<seq<seq<byte>>>
    requires InPacket(pkt, rr)
  {
    match k
    case A(dsize) => if rr.dend - rr.dptr == dsize then Some([pkt[rr.dptr..rr.dend]]) else None
    case Txt => (match Joined(pkt, rr.dptr, rr.dend) case None => None case Some(s) => Some([s]))
    case Naptr =>
      (match Strings(pkt, rr.dptr + 4, rr.dend, 3)
       case None => None
       case Some((ss, cur)) => NameParts(pkt, ss, cur, rr.dend))
    case _ => NameParts(pkt, [], rr.dptr + Skip(k), rr.dend)
  }

  ghost function NameParts(pkt: seq<byte>, before: seq<seq<byte>>, pos: nat, dend: nat): Option<seq<seq<byte>>> {
    match DataName(pkt, pos, dend)
    case None => None
    case Some(labels) => Some(before + [TextOf(labels)])
  }

  // The numbers of a record: those of struct dns_mx, struct dns_srv and struct dns_naptr.
  datatype Fields =
    | NoFields
    | MxFields(priority: nat)
    | SrvFields(priority: nat, weight: nat, port: nat)
    | NaptrFields(order: nat, preference: nat)

  // They are 16-bit numbers in front of the other data.
  ghost function Numbers(k: Kind, pkt: seq<byte>, dptr: nat): Fields
    requires dptr + Skip(k) <= |pkt|
  {
    match k
    case Mx => MxFields(Get16(pkt, dptr))
    case Srv => SrvFields(Get16(pkt, dptr), Get16(pkt, dptr + 2), Get16(pkt, dptr + 4))
    case Naptr => NaptrFields(Get16(pkt, dptr), Get16(pkt, dptr + 2))
    case _ => NoFields
  }

  // What a record contributes to the result.
  datatype Item = Item(fields: Fields, parts: seq<seq<byte>>)

  ghost function ItemOf(k: Kind, pkt: seq<byte>, rr: Record): Option<Item>
    requires InPacket(pkt, rr)
  {
    match Parts(k, pkt, rr)
    case None => None
    case Some(parts) =>
      FieldsInPacket(k, pkt, rr);
      Some(Item(Numbers(k, pkt, rr.dptr), parts))
  }

  lemma FieldsInPacket(k: Kind, pkt: seq<byte>, rr: Record)
    requires InPacket(pkt, rr) && Parts(k, pkt, rr).Some?
    ensures rr.dptr + Skip(k) <= |pkt| && Parts(k, pkt, rr).value != []
  {
  }

  ghost predicate Good(k: Kind, pkt: seq<byte>, rrs: seq<Record>) {
    forall rr :: rr in rrs ==> InPacket(pkt, rr) && ItemOf(k, pkt, rr).Some?
  }

  ghost function Items(k: Kind, pkt: seq<byte>, rrs: seq<Record>): (items: seq<Item>)
    requires Good(k, pkt, rrs)
    ensures |items| == |rrs|
  {
    if rrs == [] then [] else [ItemOf(k, pkt, rrs[0]).value] + Items(k, pkt, rrs[1..])
  }

  // ---------- how the result is laid out ----------

  // All strings but addresses end with a zero byte.
  function Zero(k: Kind): (r: seq<byte>) {
    if k.A? then [] else [0]
  }

  ghost function LaidOut(k: Kind, parts: seq<seq<byte>>): seq<byte> {
    if parts == [] then [] else parts[0] + Zero(k) + LaidOut(k, parts[1..])
  }

  // Where each part begins when the first is at `at`.
  ghost function Places(k: Kind, parts: seq<seq<byte>>, at: nat): seq<nat> {
    if parts == [] then [] else [at] + Places(k, parts[1..], at + |parts[0]| + |Zero(k)|)
  }

  ghost function Contents(k: Kind, items: seq<Item>): seq<byte> {
    if items == [] then [] else LaidOut(k, items[0].parts) + Contents(k, items[1..])
  }

  // What the caller gets for a record: its numbers, where its strings begin, and for TXT the length.
  datatype Entry = Entry(fields: Fields, places: seq<nat>, len: nat)

  ghost function EntryOf(k: Kind, item: Item, at: nat): Entry {
    Entry(item.fields, Places(k, item.parts, at), if k.Txt? && item.parts != [] then |item.parts[0]| else 0)
  }

  ghost function Entries(k: Kind, items: seq<Item>, at: nat): (es: seq<Entry>)
    ensures |es| == |items|
  {
    if items == [] then []
    else [EntryOf(k, items[0], at)] + Entries(k, items[1..], at + |LaidOut(k, items[0].parts)|)
  }

  // The name reached, and the question name unless it is the same object.
  ghost function NameStrings(pkt: seq<byte>, a: Asked): seq<byte>
    requires a.Name? && Terminated(pkt, HSIZE)
  {
    TextOf(a.labels) + [0] + if a.payload then [] else TextOf(LabelsAt(pkt, HSIZE)) + [0]
  }

  // ---------- the first pass over one record ----------

  // s stands in the array at sp, and before sp nothing has changed.
  ghost predicate Appended(area: array<byte>, was: seq<byte>, sp: nat, s: seq<byte>)
    reads area
  {
    |was| == area.Length && sp + |s| <= area.Length && area[..sp + |s|] == was[..sp] + s
  }

  // dns_getstr: the length of the string and of its zero byte; both go to buf at `at`, if there is a
  // buffer. A length byte behind the end of the packet may have any value.
  method GetStr(pkt: seq<byte>, cur: nat, ep: nat, buf: array?<byte>, at: nat) returns (r: int, cur': nat)
    requires ep <= |pkt|
    requires buf != null && CharString(pkt, cur, ep).Some? ==> at + |CharString(pkt, cur, ep).value| < buf.Length
    modifies if buf == null then {} else {buf}
    ensures match CharString(pkt, cur, ep)
            case None => r == E_PROTOCOL
            case Some(s) => r == |s| + 1 && cur' == cur + 1 + |s|
                            && (buf != null ==> Appended(buf, old(buf[..]), at, s + [0]))
  {
    var l: byte :| l < 256;
    if cur < |pkt| {
      l := pkt[cur];
    }
    var n: nat := l;
    if cur + 1 + n > ep {
      return E_PROTOCOL, cur;
    }
    if buf != null {
      PutString(pkt, cur + 1, n, buf, at);
      buf[at + n] := 0;
      assert buf[..at + n + 1] == buf[..at + n] + [0];
      Assoc(old(buf[..])[..at], pkt[cur + 1..cur + 1 + n], [0]);
    }
    return n + 1, cur + 1 + n;
  }

  // memcpy from the packet
  method PutString(pkt: seq<byte>, from: nat, n: nat, buf: array<byte>, at: nat)
    requires from + n <= |pkt| && at + n <= buf.Length
    modifies buf
    ensures Appended(buf, old(buf[..]), at, pkt[from..from + n])
  {
    forall i | 0 <= i < n {
      buf[at + i] := pkt[from + i];
    }
  }

  lemma AppendedTwice(area: array<byte>, was: seq<byte>, sp: nat, s: seq<byte>, mid: seq<byte>, t: seq<byte>)
    requires |was| == |mid| && sp + |s| <= |mid| && mid[..sp + |s|] == was[..sp] + s
    requires Appended(area, mid, sp + |s|, t)
    ensures Appended(area, was, sp, s + t)
  {
    Assoc(was[..sp], s, t);
  }

  // A name that must end at dend: the size of its text.
  method MeasureName(pkt: seq<byte>, cur: nat, dend: nat, dn: array<byte>) returns (r: int)
    requires dn.Length == MAXDN + 1
    modifies dn
    ensures match DataName(pkt, cur, dend)
            case None => r == E_PROTOCOL
            case Some(labels) => r == TextSize(labels) <= MAXNAME
  {
    var n, end := GetDn(pkt, cur, dn, MAXDN);
    if n <= 0 || end != dend {
      return E_PROTOCOL;
    }
    WireReads(dn[..], n, DataName(pkt, cur, dend).value);
    TextSizeBound(LabelsAt(dn[..], 0));
    r := DnToPSize(dn[..], 0);
  }

  method MeasureTxt(pkt: seq<byte>, dptr: nat, dend: nat) returns (r: int)
    requires dptr <= dend <= |pkt|
    ensures match Joined(pkt, dptr, dend) case None => r == E_PROTOCOL case Some(s) => r == |s| + 1
  {
    var cp, l := dptr, 0;
    while cp < dend
      invariant dptr <= cp <= dend && 0 <= l
      invariant match Joined(pkt, cp, dend)
                case None => Joined(pkt, dptr, dend).None?
                case Some(s) => Joined(pkt, dptr, dend).Some? && |Joined(pkt, dptr, dend).value| == l + |s|
      decreases dend - cp
    {
      var c: nat := pkt[cp];
      if cp + 1 + c > dend {
        return E_PROTOCOL;
      }
      l := l + c;
      cp := cp + 1 + c;
    }
    return l + 1;
  }

  // The loop over flags, services and regexp.
  method MeasureStrings(pkt: seq<byte>, pos: nat, ep: nat) returns (r: int, cur: nat)
    requires ep <= |pkt|
    ensures match Strings(pkt, pos, ep, 3)
            case None => r == E_PROTOCOL
            case Some((ss, end)) => r == TotalSize(ss) && cur == end
  {
    var l: nat, i: nat := 0, 0;
    cur := pos;
    while i < 3
      invariant i <= 3
      invariant Counted(Strings(pkt, pos, ep, 3), Strings(pkt, cur, ep, 3 - i), l)
    {
      r, cur := GetStr(pkt, cur, ep, null, 0);
      if r < 0 {
        return;
      }
      l := l + r;
      i := i + 1;
    }
    r := l;
  }

  // Of all strings, those not in `rest` take l bytes.
  ghost predicate Counted(all: Option<(seq<seq<byte>>, nat)>, rest: Option<(seq<seq<byte>>, nat)>, l: nat) {
    match rest
    case None => all.None?
    case Some((ss, end)) => all.Some? && all.value.1 == end && TotalSize(all.value.0) == l + TotalSize(ss)
  }

  method MeasureNaptr(pkt: seq<byte>, dptr: nat, dend: nat, dn: array<byte>) returns (r: int)
    requires dptr <= dend <= |pkt| && dn.Length == MAXDN + 1
    modifies dn
    ensures match Strings(pkt, dptr + 4, dend, 3)
            case None => r == E_PROTOCOL
            case Some((ss, cur)) =>
              match DataName(pkt, cur, dend)
              case None => r == E_PROTOCOL
              case Some(labels) => r == TotalSize(ss + [TextOf(labels)])
  {
    var l, cur := MeasureStrings(pkt, dptr + 4, dend);
    if l < 0 {
      return l;
    }
    r := MeasureName(pkt, cur, dend, dn);
    if r > 0 {
      TotalSizeMore(Strings(pkt, dptr + 4, dend, 3).value.0, TextOf(DataName(pkt, cur, dend).value));
      r := l + r;
    }
  }

  lemma {:induction false} TotalSizeMore(ss: seq<seq<byte>>, s: seq<byte>)
    ensures TotalSize(ss + [s]) == TotalSize(ss) + |s| + 1
  {
    if ss == [] {
      assert ss + [s] == [s];
    } else {
      TotalSizeMore(ss[1..], s);
      assert (ss + [s])[1..] == ss[1..] + [s];
    }
  }

  ghost function TotalSize(ss: seq<seq<byte>>): nat {
    if ss == [] then 0 else |ss[0]| + 1 + TotalSize(ss[1..])
  }

  // What the first pass counts for a record, or the error it returns.
  method Measure(k: Kind, pkt: seq<byte>, rr: Rr, dn: array<byte>, ghost rec: Record) returns (r: int)
    requires rr.IsRecord(rec) && InPacket(pkt, rec) && dn.Length == MAXDN + 1 && dn != rr.dn
    modifies dn
    ensures match ItemOf(k, pkt, rec) case None => r == E_PROTOCOL case Some(item) => r == |LaidOut(k, item.parts)|
  {
    ghost var parts := Parts(k, pkt, rec);
    match k {
      case A(dsize) =>
        r := if rr.dsz != dsize then E_PROTOCOL else dsize;
      case Txt =>
        r := MeasureTxt(pkt, rr.dptr, rr.dend);
      case Naptr =>
        r := MeasureNaptr(pkt, rr.dptr, rr.dend, dn);
      case _ =>
        r := MeasureName(pkt, rr.dptr + Skip(k), rr.dend, dn);
    }
    if parts.Some? {
      SizeOfParts(k, parts.value);
    }
  }

  lemma {:induction false} SizeOfParts(k: Kind, parts: seq<seq<byte>>)
    ensures |LaidOut(k, parts)| == TotalSize(parts) - if k.A? then |parts| else 0
  {
    if parts != [] {
      SizeOfParts(k, parts[1..]);
    }
  }

  // ---------- the second pass over one record ----------

  // A name of the packet in its text form.
  method PutName(pkt: seq<byte>, cur: nat, ghost dend: nat, dn: array<byte>, area: array<byte>, sp: nat,
                 ghost name: Labels)
    returns (sp': nat)
    requires dn.Length == MAXDN + 1 && dn != area && DataName(pkt, cur, dend) == Some(name)
    requires sp + TextSize(name) <= area.Length
    modifies dn, area
    ensures sp' == sp + |TextOf(name)| + 1 && Appended(area, old(area[..]), sp, TextOf(name) + [0])
  {
    var n, _ := GetDn(pkt, cur, dn, MAXDN);
    WireReads(dn[..], n, name);
    TextSizeBound(name);
    sp' := PutText(dn[..], 0, area, sp);
  }

  // dns_dntop with room for the longest name
  method PutText(dn: seq<byte>, pos: nat, area: array<byte>, sp: nat) returns (sp': nat)
    requires Terminated(dn, pos) && TextSize(LabelsAt(dn, pos)) <= MAXNAME
    requires sp + TextSize(LabelsAt(dn, pos)) <= area.Length
    modifies area
    ensures var s := TextOf(LabelsAt(dn, pos)) + [0]; sp' == sp + |s| && Appended(area, old(area[..]), sp, s)
  {
    StoredIs(LabelsAt(dn, pos), MAXNAME);
    ghost var s := TextOf(LabelsAt(dn, pos)) + [0];
    var r := DnToP(dn, pos, area, sp, MAXNAME);
    sp' := sp + r;
    FrontKept(area, old(area[..]), sp, sp');
    assert area[..sp'] == area[..sp] + area[sp..sp'];
  }

  lemma FrontKept(area: array<byte>, was: seq<byte>, lo: nat, hi: nat)
    requires OnlyWithin(area, was, lo, hi) && lo <= area.Length
    ensures area[..lo] == was[..lo]
  {
  }

  method FillTxt(pkt: seq<byte>, dptr: nat, dend: nat, area: array<byte>, sp0: nat) returns (sp: nat)
    requires dptr <= dend <= |pkt| && Joined(pkt, dptr, dend).Some?
    requires sp0 + |Joined(pkt, dptr, dend).value| + 1 <= area.Length
    modifies area
    ensures var s := Joined(pkt, dptr, dend).value + [0]; sp == sp0 + |s| && Appended(area, old(area[..]), sp0, s)
  {
    var cp := dptr;
    sp := sp0;
    ghost var was := area[..];
    ghost var all := Joined(pkt, dptr, dend).value;
    ghost var done: seq<byte> := [];
    while cp < dend
      invariant dptr <= cp <= dend && Joined(pkt, cp, dend).Some? && all == done + Joined(pkt, cp, dend).value
      invariant sp == sp0 + |done| && Appended(area, was, sp0, done)
      decreases dend - cp
    {
      cp, sp, done := PutNextChunk(pkt, cp, dend, area, sp, sp0, done, was, all);
    }
    PutZeroAt(area, sp, sp0, done, was);
    sp := sp + 1;
  }

  // One character string of a TXT record.
  method PutNextChunk(pkt: seq<byte>, cp0: nat, dend: nat, area: array<byte>, sp: nat, ghost sp0: nat,
                      ghost done: seq<byte>, ghost was: seq<byte>, ghost all: seq<byte>)
    returns (cp: nat, sp': nat, ghost done': seq<byte>)
    requires cp0 < dend <= |pkt| && Joined(pkt, cp0, dend).Some? && all == done + Joined(pkt, cp0, dend).value
    requires sp == sp0 + |done| && sp0 + |all| <= area.Length && Appended(area, was, sp0, done)
    modifies area
    ensures cp0 < cp <= dend && Joined(pkt, cp, dend).Some? && all == done' + Joined(pkt, cp, dend).value
    ensures sp' == sp0 + |done'| && Appended(area, was, sp0, done')
  {
    var l: nat := pkt[cp0];
    ghost var s := pkt[cp0 + 1..cp0 + 1 + l];
    Assoc(done, s, Joined(pkt, cp0 + 1 + l, dend).value);
    PutChunk(pkt, cp0 + 1, l, area, sp, sp0, done, was);
    done' := done + s;
    sp' := sp + l;
    cp := cp0 + 1 + l;
  }

  method PutChunk(pkt: seq<byte>, from: nat, n: nat, area: array<byte>, sp: nat, ghost sp0: nat, ghost done: seq<byte>,
                  ghost was: seq<byte>)
    requires from + n <= |pkt| && sp + n <= area.Length && sp == sp0 + |done| && Appended(area, was, sp0, done)
    modifies area
    ensures Appended(area, was, sp0, done + pkt[from..from + n])
  {
    ghost var mid := area[..];
    PutString(pkt, from, n, area, sp);
    AppendedTwice(area, was, sp0, done, mid, pkt[from..from + n]);
  }

  method PutZeroAt(area: array<byte>, sp: nat, ghost sp0: nat, ghost done: seq<byte>, ghost was: seq<byte>)
    requires sp < area.Length && sp == sp0 + |done| && Appended(area, was, sp0, done)
    modifies area
    ensures Appended(area, was, sp0, done + [0])
  {
    ghost var mid := area[..];
    area[sp] := 0;
    AppendedTwice(area, was, sp0, done, mid, [0]);
  }

  // The three strings and the name of a NAPTR record
  method FillNaptr(pkt: seq<byte>, cur0: nat, ghost dend: nat, dn: array<byte>, area: array<byte>, sp0: nat,
                   ghost ss: seq<seq<byte>>, ghost last: nat, ghost name: Labels, ghost parts: seq<seq<byte>>)
    returns (sp: nat, places: seq<nat>)
    requires ThreeAt(pkt, cur0, ss, last) && DataName(pkt, last, dend) == Some(name)
    requires sp0 + |ss[0]| + 1 + |ss[1]| + 1 + |ss[2]| + 1 + TextSize(name) <= area.Length
    requires dn.Length == MAXDN + 1 && dn != area && parts == ss + [TextOf(name)]
    modifies dn, area
    ensures Laying(area, old(area[..]), sp0, parts, sp, places)
  {
    ghost var was := area[..];
    var cur;
    sp, cur, places := PutThree(pkt, cur0, area, sp0, ss, last);
    sp, places := PutNamePart(pkt, cur, dend, dn, area, sp, places, sp0, was, ss, name);
  }

  method PutNamePart(pkt: seq<byte>, cur: nat, ghost dend: nat, dn: array<byte>, area: array<byte>, sp: nat,
                     places: seq<nat>, ghost sp0: nat, ghost was: seq<byte>, ghost done: seq<seq<byte>>,
                     ghost name: Labels)
    returns (sp': nat, places': seq<nat>)
    requires Laying(area, was, sp0, done, sp, places) && sp + TextSize(name) <= area.Length
    requires dn.Length == MAXDN + 1 && dn != area && DataName(pkt, cur, dend) == Some(name)
    modifies dn, area
    ensures Laying(area, was, sp0, done + [TextOf(name)], sp', places')
  {
    ghost var mid := area[..];
    sp' := PutName(pkt, cur, dend, dn, area, sp, name);
    OnePartMore(area, was, sp0, done, mid, TextOf(name));
    places' := places + [sp];
  }

  // Flags, service and regexp
  method PutThree(pkt: seq<byte>, cur0: nat, area: array<byte>, sp0: nat, ghost ss: seq<seq<byte>>, ghost last: nat)
    returns (sp: nat, cur: nat, places: seq<nat>)
    requires ThreeAt(pkt, cur0, ss, last) && sp0 + |ss[0]| + 1 + |ss[1]| + 1 + |ss[2]| < area.Length
    modifies area
    ensures Laying(area, old(area[..]), sp0, ss, sp, places)
    ensures sp == sp0 + |ss[0]| + 1 + |ss[1]| + 1 + |ss[2]| + 1 && cur == last
  {
    ghost var was := area[..];
    LayingNothing(area, sp0);
    assert ss[..1] == [] + [ss[0]] && ss[..2] == ss[..1] + [ss[1]] && ss == ss[..2] + [ss[2]];
    sp, cur, places := PutPart(pkt, cur0, area, sp0, [], sp0, was, [], ss[0]);
    sp, cur, places := PutPart(pkt, cur, area, sp, places, sp0, was, ss[..1], ss[1]);
    sp, cur, places := PutPart(pkt, cur, area, sp, places, sp0, was, ss[..2], ss[2]);
  }

  // These parts stand in the array from sp0 on, up to sp.
  ghost predicate Laying(area: array<byte>, was: seq<byte>, sp0: nat, parts: seq<seq<byte>>, sp: nat, places: seq<nat>)
    reads area
  {
    && sp == sp0 + |LaidOut(Naptr, parts)| && Appended(area, was, sp0, LaidOut(Naptr, parts))
    && places == Places(Naptr, parts, sp0)
  }

  method PutPart(pkt: seq<byte>, cur0: nat, area: array<byte>, sp: nat, places: seq<nat>, ghost sp0: nat,
                 ghost was: seq<byte>, ghost done: seq<seq<byte>>, ghost s: seq<byte>)
    returns (sp': nat, cur: nat, places': seq<nat>)
    requires Laying(area, was, sp0, done, sp, places)
    requires CharString(pkt, cur0, |pkt|) == Some(s) && sp + |s| < area.Length
    modifies area
    ensures Laying(area, was, sp0, done + [s], sp', places') && sp' == sp + |s| + 1 && cur == cur0 + 1 + |s|
  {
    ghost var mid := area[..];
    var r;
    places' := places + [sp];
    r, cur := GetStr(pkt, cur0, |pkt|, area, sp);
    OnePartMore(area, was, sp0, done, mid, s);
    sp' := sp + r;
  }

  lemma OnePartMore(area: array<byte>, was: seq<byte>, sp0: nat, done: seq<seq<byte>>, mid: seq<byte>, s: seq<byte>)
    requires |was| == |mid| && sp0 + |LaidOut(Naptr, done)| <= |mid|
    requires mid[..sp0 + |LaidOut(Naptr, done)|] == was[..sp0] + LaidOut(Naptr, done)
    requires Appended(area, mid, sp0 + |LaidOut(Naptr, done)|, s + [0])
    ensures Laying(area, was, sp0, done + [s], sp0 + |LaidOut(Naptr, done)| + |s| + 1,
                   Places(Naptr, done, sp0) + [sp0 + |LaidOut(Naptr, done)|])
  {
    AppendedTwice(area, was, sp0, LaidOut(Naptr, done), mid, s + [0]);
    LaidOutSnoc(Naptr, done, s, sp0);
  }

  lemma {:induction false} LaidOutSnoc(k: Kind, parts: seq<seq<byte>>, s: seq<byte>, at: nat)
    ensures LaidOut(k, parts + [s]) == LaidOut(k, parts) + (s + Zero(k))
    ensures Places(k, parts + [s], at) == Places(k, parts, at) + [at + |LaidOut(k, parts)|]
  {
    if parts == [] {
      assert parts + [s] == [s];
    } else {
      LaidOutSnoc(k, parts[1..], s, at + |parts[0]| + |Zero(k)|);
      assert (parts + [s])[1..] == parts[1..] + [s];
      Assoc(parts[0] + Zero(k), LaidOut(k, parts[1..]), s + Zero(k));
      Assoc([at], Places(k, parts[1..], at + |parts[0]| + |Zero(k)|), [at + |LaidOut(k, parts)|]);
    }
  }

  lemma LayingNothing(area: array<byte>, sp0: nat)
    requires sp0 <= area.Length
    ensures Laying(area, area[..], sp0, [], sp0, [])
  {
  }

  lemma RoomForFour(ss: seq<seq<byte>>, s: seq<byte>, parts: seq<seq<byte>>)
    requires |ss| == 3 && parts == ss + [s]
    ensures |LaidOut(Naptr, parts)| == |ss[0]| + 1 + |ss[1]| + 1 + |ss[2]| + 1 + |s| + 1
  {
    SizeOfParts(Naptr, parts);
    TotalSizeMore(ss, s);
    TotalSizeMore(ss[..2], ss[2]);
    TotalSizeMore(ss[..1], ss[1]);
    assert ss == ss[..2] + [ss[2]] && ss[..2] == ss[..1] + [ss[1]];
  }

  // The bound may as well be the end of the packet.
  lemma ThreeStrings(pkt: seq<byte>, pos: nat, ep: nat, ss: seq<seq<byte>>, last: nat)
    requires ep <= |pkt| && Strings(pkt, pos, ep, 3) == Some((ss, last))
    ensures ThreeAt(pkt, pos, ss, last)
  {
    var a := CharString(pkt, pos, ep).value;
    var b := CharString(pkt, pos + 1 + |a|, ep).value;
    var c := CharString(pkt, pos + 1 + |a| + 1 + |b|, ep).value;
    var s1 := Strings(pkt, pos + 1 + |a| + 1 + |b|, ep, 1);
    assert s1.value.0 == [c] && s1.value.1 == pos + 1 + |a| + 1 + |b| + 1 + |c|;
    var s2 := Strings(pkt, pos + 1 + |a|, ep, 2);
    assert s2.value.0 == [b] + [c] && s2.value.1 == s1.value.1;
    assert ss == [a] + ([b] + [c]);
  }

  // What the second pass writes for a record, at sp.
  method Fill(k: Kind, pkt: seq<byte>, rr: Rr, dn: array<byte>, area: array<byte>, sp: nat, ghost rec: Record,
              ghost item: Item)
    returns (sp': nat, e: Entry)
    requires rr.IsRecord(rec) && InPacket(pkt, rec) && dn.Length == MAXDN + 1 && dn != area && dn != rr.dn
             && area != rr.dn
    requires ItemOf(k, pkt, rec) == Some(item) && sp + |LaidOut(k, item.parts)| <= area.Length
    modifies dn, area
    ensures sp' == sp + |LaidOut(k, item.parts)| && Appended(area, old(area[..]), sp, LaidOut(k, item.parts))
    ensures e == EntryOf(k, item, sp)
  {
    match k {
      case A(dsize) =>
        sp', e := FillAddress(dsize, pkt, rr.dptr, area, sp, rec, item);
      case Txt =>
        sp', e := FillText(pkt, rr.dptr, rr.dend, area, sp, rec, item);
      case Naptr =>
        sp', e := FillPointer(pkt, rr.dptr, rr.dend, dn, area, sp, rec, item);
      case _ =>
        sp', e := FillNamed(k, pkt, rr.dptr, rr.dend, dn, area, sp, rec, item);
    }
  }

  method FillPointer(pkt: seq<byte>, dptr: nat, ghost dend: nat, dn: array<byte>, area: array<byte>, sp: nat,
                     ghost rec: Record, ghost item: Item)
    returns (sp': nat, e: Entry)
    requires InPacket(pkt, rec) && dptr == rec.dptr && dend == rec.dend && dn.Length == MAXDN + 1 && dn != area
    requires ItemOf(Naptr, pkt, rec) == Some(item) && sp + |LaidOut(Naptr, item.parts)| <= area.Length
    modifies dn, area
    ensures sp' == sp + |LaidOut(Naptr, item.parts)| && Appended(area, old(area[..]), sp, LaidOut(Naptr, item.parts))
    ensures e == EntryOf(Naptr, item, sp)
  {
    ghost var ss, last, name := PointerStrings(pkt, rec, item);
    ThreeStrings(pkt, dptr + 4, dend, ss, last);
    sp', e := PutPointer(pkt, dptr, dend, dn, area, sp, item, ss, last, name);
  }

  method PutPointer(pkt: seq<byte>, dptr: nat, ghost dend: nat, dn: array<byte>, area: array<byte>, sp: nat,
                    ghost item: Item, ghost ss: seq<seq<byte>>, ghost last: nat, ghost name: Labels)
    returns (sp': nat, e: Entry)
    requires dn.Length == MAXDN + 1 && dn != area && dptr + 4 <= |pkt|
    requires ThreeAt(pkt, dptr + 4, ss, last) && DataName(pkt, last, dend) == Some(name)
    requires item == Item(NaptrFields(Get16(pkt, dptr), Get16(pkt, dptr + 2)), ss + [TextOf(name)])
    requires sp + |LaidOut(Naptr, item.parts)| <= area.Length
    modifies dn, area
    ensures sp' == sp + |LaidOut(Naptr, item.parts)| && Appended(area, old(area[..]), sp, LaidOut(Naptr, item.parts))
    ensures e == EntryOf(Naptr, item, sp)
  {
    RoomForFour(ss, TextOf(name), item.parts);
    var places;
    sp', places := FillNaptr(pkt, dptr + 4, dend, dn, area, sp, ss, last, name, item.parts);
    e := Entry(NaptrFields(Get16(pkt, dptr), Get16(pkt, dptr + 2)), places, 0);
  }

  // Three character strings, and the position behind them.
  ghost predicate ThreeAt(pkt: seq<byte>, cur: nat, ss: seq<seq<byte>>, last: nat) {
    && |ss| == 3 && CharString(pkt, cur, |pkt|) == Some(ss[0])
    && CharString(pkt, cur + 1 + |ss[0]|, |pkt|) == Some(ss[1])
    && CharString(pkt, cur + 1 + |ss[0]| + 1 + |ss[1]|, |pkt|) == Some(ss[2])
    && last == cur + 1 + |ss[0]| + 1 + |ss[1]| + 1 + |ss[2]|
  }

  lemma PointerStrings(pkt: seq<byte>, rec: Record, item: Item) returns (ss: seq<seq<byte>>, last: nat, name: Labels)
    requires InPacket(pkt, rec) && ItemOf(Naptr, pkt, rec) == Some(item)
    ensures rec.dptr + 4 <= |pkt| && item.fields == NaptrFields(Get16(pkt, rec.dptr), Get16(pkt, rec.dptr + 2))
    ensures Strings(pkt, rec.dptr + 4, rec.dend, 3) == Some((ss, last)) && DataName(pkt, last, rec.dend) == Some(name)
    ensures item.parts == ss + [TextOf(name)]
  {
    var strings := Strings(pkt, rec.dptr + 4, rec.dend, 3).value;
    ss, last := strings.0, strings.1;
    assert Parts(Naptr, pkt, rec) == NameParts(pkt, ss, last, rec.dend);
    name := DataName(pkt, last, rec.dend).value;
  }

  method FillAddress(dsize: nat, pkt: seq<byte>, dptr: nat, area: array<byte>, sp: nat, ghost rec: Record,
                     ghost item: Item)
    returns (sp': nat, e: Entry)
    requires InPacket(pkt, rec) && dptr == rec.dptr && ItemOf(A(dsize), pkt, rec) == Some(item)
    requires sp + |LaidOut(A(dsize), item.parts)| <= area.Length
    modifies area
    ensures sp' == sp + |LaidOut(A(dsize), item.parts)|
    ensures Appended(area, old(area[..]), sp, LaidOut(A(dsize), item.parts)) && e == EntryOf(A(dsize), item, sp)
  {
    OnePart(A(dsize), item.parts, sp);
    PutString(pkt, dptr, dsize, area, sp);
    sp', e := sp + dsize, Entry(NoFields, [sp], 0);
  }

  method FillText(pkt: seq<byte>, dptr: nat, dend: nat, area: array<byte>, sp: nat, ghost rec: Record, ghost item: Item)
    returns (sp': nat, e: Entry)
    requires InPacket(pkt, rec) && dptr == rec.dptr && dend == rec.dend && ItemOf(Txt, pkt, rec) == Some(item)
    requires sp + |LaidOut(Txt, item.parts)| <= area.Length
    modifies area
    ensures sp' == sp + |LaidOut(Txt, item.parts)| && Appended(area, old(area[..]), sp, LaidOut(Txt, item.parts))
    ensures e == EntryOf(Txt, item, sp)
  {
    OnePart(Txt, item.parts, sp);
    sp' := FillTxt(pkt, dptr, dend, area, sp);
    e := Entry(NoFields, [sp], sp' - sp - 1);
  }

  // PTR, MX and SRV: the numbers, and a name.
  method FillNamed(k: Kind, pkt: seq<byte>, dptr: nat, ghost dend: nat, dn: array<byte>, area: array<byte>, sp: nat,
                   ghost rec: Record, ghost item: Item)
    returns (sp': nat, e: Entry)
    requires InPacket(pkt, rec) && dptr == rec.dptr && dend == rec.dend && dn.Length == MAXDN + 1 && dn != area
    requires k in {Ptr, Mx, Srv} && ItemOf(k, pkt, rec) == Some(item) && sp + |LaidOut(k, item.parts)| <= area.Length
    modifies dn, area
    ensures sp' == sp + |LaidOut(k, item.parts)| && Appended(area, old(area[..]), sp, LaidOut(k, item.parts))
    ensures e == EntryOf(k, item, sp)
  {
    ghost var name := NamedItem(k, pkt, rec, item, sp);
    sp', e := PutNamed(k, pkt, dptr, dend, dn, area, sp, name);
  }

  method PutNamed(k: Kind, pkt: seq<byte>, dptr: nat, ghost dend: nat, dn: array<byte>, area: array<byte>, sp: nat,
                  ghost name: Labels)
    returns (sp': nat, e: Entry)
    requires k in {Ptr, Mx, Srv} && dptr + Skip(k) <= |pkt| && dn.Length == MAXDN + 1 && dn != area
    requires DataName(pkt, dptr + Skip(k), dend) == Some(name) && sp + TextSize(name) <= area.Length
    modifies dn, area
    ensures sp' == sp + |TextOf(name)| + 1 && Appended(area, old(area[..]), sp, TextOf(name) + [0])
    ensures e == Entry(Numbers(k, pkt, dptr), [sp], 0)
  {
    var fields := ReadNumbers(k, pkt, dptr);
    sp' := PutName(pkt, dptr + Skip(k), dend, dn, area, sp, name);
    e := Entry(fields, [sp], 0);
  }

  method ReadNumbers(k: Kind, pkt: seq<byte>, dptr: nat) returns (fields: Fields)
    requires k in {Ptr, Mx, Srv} && dptr + Skip(k) <= |pkt|
    ensures fields == Numbers(k, pkt, dptr)
  {
    fields := NoFields;
    if k == Mx {
      fields := MxFields(Get16(pkt, dptr));
    } else if k == Srv {
      fields := SrvFields(Get16(pkt, dptr), Get16(pkt, dptr + 2), Get16(pkt, dptr + 4));
    }
  }

  lemma NamedItem(k: Kind, pkt: seq<byte>, rec: Record, item: Item, sp: nat) returns (name: Labels)
    requires k in {Ptr, Mx, Srv} && InPacket(pkt, rec) && ItemOf(k, pkt, rec) == Some(item)
    ensures rec.dptr + Skip(k) <= |pkt| && item.fields == Numbers(k, pkt, rec.dptr)
    ensures DataName(pkt, rec.dptr + Skip(k), rec.dend) == Some(name)
    ensures LaidOut(k, item.parts) == TextOf(name) + [0] && EntryOf(k, item, sp) == Entry(item.fields, [sp], 0)
  {
    name := DataName(pkt, rec.dptr + Skip(k), rec.dend).value;
    OnePart(k, item.parts, sp);
  }

  lemma OnePart(k: Kind, parts: seq<seq<byte>>, at: nat)
    requires |parts| == 1
    ensures LaidOut(k, parts) == parts[0] + Zero(k) && Places(k, parts, at) == [at]
  {
    assert |parts[1..]| == 0;
    assert parts[0] + Zero(k) + LaidOut(k, parts[1..]) == parts[0] + Zero(k);
  }

  // ---------- the names that every result ends with ----------

  // The question name as it stands, without looking for pointers, is a chain of labels that ends inside the
  // packet, and its text fits 1024 bytes.
  predicate QuestionSized(pkt: seq<byte>) {
    Terminated(pkt, HSIZE) && TextSize(LabelsAt(pkt, HSIZE)) <= MAXNAME
  }

  ghost predicate NameOk(p: Parse)
    requires p.Valid()
    reads p, p.dnbuf
  {
    && QuestionSized(p.pkt)
    && match p.qdn
       case NoName => false
       case Given(dn) => |Wire(LabelsAt(dn, 0))| <= MAXDN + 1
       case _ => true
  }

  // Where dnsp_qdn points.
  method NameBytes(p: Parse) returns (dn: seq<byte>, pos: nat)
    requires p.Valid() && NameOk(p)
    ensures Terminated(dn, pos) && TextSize(LabelsAt(dn, pos)) <= MAXNAME
    ensures p.NameOf(p.qdn) == Name(LabelsAt(dn, pos), p.qdn == Payload)
  {
    match p.qdn {
      case Payload => return p.pkt, HSIZE;
      case Given(d) =>
        TextSizeBound(LabelsAt(d, 0));
        return d, 0;
      case Buffer =>
        WireAt(p.dnbuf[..], 0);
        TextSizeBound(LabelsAt(p.dnbuf[..], 0));
        return p.dnbuf[..], 0;
    }
  }

  // dns_stdrr_size
  method StdSize(p: Parse) returns (n: nat)
    requires p.Valid() && NameOk(p)
    ensures n == |NameStrings(p.pkt, p.NameOf(p.qdn))|
  {
    var dn, pos := NameBytes(p);
    n := DnToPSize(dn, pos);
    if p.qdn != Payload {
      var m := DnToPSize(p.pkt, HSIZE);
      n := n + m;
    }
  }

  // dns_stdrr_finish
  method StdFinish(p: Parse, area: array<byte>, cp: nat) returns (cname: nat, qname: nat)
    requires p.Valid() && NameOk(p) && area != p.dnbuf
    requires cp + |NameStrings(p.pkt, p.NameOf(p.qdn))| <= area.Length
    modifies area
    ensures Appended(area, old(area[..]), cp, NameStrings(p.pkt, p.NameOf(p.qdn)))
    ensures cname == cp && qname == QNamePlace(p.NameOf(p.qdn), cp)
  {
    var dn, pos := NameBytes(p);
    ghost var a := p.NameOf(p.qdn);
    NamesAre(p.pkt, a);
    cname := cp;
    var cp' := PutText(dn, pos, area, cp);
    if p.qdn == Payload {
      qname := cname;
    } else {
      qname := cp';
      PutQuestion(p.pkt, area, cp, cp', TextOf(a.labels) + [0], old(area[..]));
    }
  }

  lemma NamesAre(pkt: seq<byte>, a: Asked)
    requires a.Name? && Terminated(pkt, HSIZE)
    ensures a.payload ==> NameStrings(pkt, a) == TextOf(a.labels) + [0]
    ensures !a.payload ==> NameStrings(pkt, a) == (TextOf(a.labels) + [0]) + (TextOf(LabelsAt(pkt, HSIZE)) + [0])
  {
    var s := TextOf(a.labels) + [0];
    assert s + [] == s;
  }

  method PutQuestion(pkt: seq<byte>, area: array<byte>, ghost cp: nat, at: nat, ghost first: seq<byte>,
                     ghost was: seq<byte>)
    requires QuestionSized(pkt)
    requires Appended(area, was, cp, first) && at == cp + |first|
    requires at + TextSize(LabelsAt(pkt, HSIZE)) <= area.Length
    modifies area
    ensures Appended(area, was, cp, first + (TextOf(LabelsAt(pkt, HSIZE)) + [0]))
  {
    ghost var mid := area[..];
    var _ := PutText(pkt, HSIZE, area, at);
    AppendedTwice(area, was, cp, first, mid, TextOf(LabelsAt(pkt, HSIZE)) + [0]);
  }

  function QNamePlace(a: Asked, cp: nat): nat
    requires a.Name?
  {
    if a.payload then cp else cp + |TextOf(a.labels)| + 1
  }

  // ---------- the two passes ----------

  lemma GoodCons(k: Kind, pkt: seq<byte>, rrs: seq<Record>)
    requires rrs != []
    ensures Good(k, pkt, rrs) <==> InPacket(pkt, rrs[0]) && ItemOf(k, pkt, rrs[0]).Some? && Good(k, pkt, rrs[1..])
  {
    CutHead(rrs);
  }

  ghost predicate Counting(k: Kind, pkt: seq<byte>, all: seq<Record>, rest: seq<Record>, l: nat) {
    && (Good(k, pkt, all) <==> Good(k, pkt, rest))
    && (Good(k, pkt, rest) ==> l + |Contents(k, Items(k, pkt, rest))| == |Contents(k, Items(k, pkt, all))|)
  }

  lemma CountOne(k: Kind, pkt: seq<byte>, all: seq<Record>, rest: seq<Record>, l: nat)
    requires Counting(k, pkt, all, rest, l) && rest != [] && InPacket(pkt, rest[0])
    ensures match ItemOf(k, pkt, rest[0])
            case None => !Good(k, pkt, all)
            case Some(item) => Counting(k, pkt, all, rest[1..], l + |LaidOut(k, item.parts)|)
  {
    GoodCons(k, pkt, rest);
  }

  // p stands before the records `rest` of its selection sel.
  ghost predicate Before(p: Parse, sel: Selection, rest: seq<Record>)
    reads p, p.dnbuf
  {
    && p.Valid() && p.Outlook() == sel.(rrs := rest)
    && p.nrr + |rest| == |sel.rrs|
    && forall rr :: rr in rest ==> InPacket(p.pkt, rr)
  }

  // p has gone through sel.
  ghost predicate Behind(p: Parse, sel: Selection)
    reads p, p.dnbuf
  {
    p.Valid() && p.nrr == |sel.rrs| && p.ttl == sel.ttl && p.NameOf(p.qdn) == sel.name
  }

  // One call of dns_nextrr.
  method Step(p: Parse, rr: Rr, ghost sel: Selection, ghost rest: seq<Record>) returns (r: int)
    requires Before(p, sel, rest) && rr.dn.Length == MAXDN + 1 && rr.dn != p.dnbuf
    modifies p, p.dnbuf, rr, rr.dn
    ensures -1 <= r <= 1
    ensures r > 0 ==> rest != [] && Before(p, sel, rest[1..]) && rr.IsRecord(rest[0]) && InPacket(p.pkt, rest[0])
    ensures r == 0 ==> rest == [] && !sel.bad && Behind(p, sel)
    ensures r < 0 ==> rest == [] && sel.bad
    ensures p.qdn == old(p.qdn) || p.qdn == Buffer
  {
    r := p.NextRr(rr);
  }

  method FirstPass(k: Kind, p: Parse, rr: Rr, dn: array<byte>, ghost sel: Selection) returns (r: int, l: nat)
    requires Before(p, sel, sel.rrs) && rr.dn.Length == MAXDN + 1 && dn.Length == MAXDN + 1
    requires rr.dn != p.dnbuf && rr.dn != dn && p.dnbuf != dn
    modifies p, p.dnbuf, rr, rr.dn, dn
    ensures r == 0 || r == E_PROTOCOL
    ensures r == 0 <==> !sel.bad && Good(k, p.pkt, sel.rrs)
    ensures r == 0 ==> Behind(p, sel) && l == |Contents(k, Items(k, p.pkt, sel.rrs))|
    ensures p.qdn == old(p.qdn) || p.qdn == Buffer
  {
    l := 0;
    ghost var rest := sel.rrs;
    while true
      invariant Before(p, sel, rest) && Counting(k, p.pkt, sel.rrs, rest, l)
      invariant p.qdn == old(p.qdn) || p.qdn == Buffer
      decreases |rest|
    {
      r := Step(p, rr, sel, rest);
      if r <= 0 {
        break;
      }
      CountOne(k, p.pkt, sel.rrs, rest, l);
      r := Measure(k, p.pkt, rr, dn, rest[0]);
      if r < 0 {
        return E_PROTOCOL, l;
      }
      l := l + r;
      rest := rest[1..];
    }
    if r < 0 {
      r := E_PROTOCOL;
    }
  }

  // The part of the area that is done, and what the items `rest` will add, make up the whole.
  ghost predicate Filling(k: Kind, done: seq<byte>, at: nat, all: seq<Item>, rest: seq<Item>, es: seq<Entry>) {
    && at == |done| && done + Contents(k, rest) == Contents(k, all)
    && es + Entries(k, rest, at) == Entries(k, all, 0)
  }

  lemma FillStart(k: Kind, items: seq<Item>)
    ensures Filling(k, [], 0, items, items, [])
  {
    assert [] + Contents(k, items) == Contents(k, items);
    assert [] + Entries(k, items, 0) == Entries(k, items, 0);
  }

  lemma FillNext(k: Kind, done: seq<byte>, at: nat, all: seq<Item>, rest: seq<Item>, es: seq<Entry>)
    requires rest != [] && Filling(k, done, at, all, rest, es)
    ensures Filling(k, done + LaidOut(k, rest[0].parts), at + |LaidOut(k, rest[0].parts)|, all, rest[1..],
                    es + [EntryOf(k, rest[0], at)])
    ensures at + |LaidOut(k, rest[0].parts)| <= |Contents(k, all)|
  {
    var c, e := LaidOut(k, rest[0].parts), EntryOf(k, rest[0], at);
    MoveOver(done, c, Contents(k, rest[1..]), Contents(k, rest));
    MoveOver(es, [e], Entries(k, rest[1..], at + |c|), Entries(k, rest, at));
  }

  lemma FilledUp(k: Kind, done: seq<byte>, at: nat, all: seq<Item>, es: seq<Entry>)
    requires Filling(k, done, at, all, [], es)
    ensures done == Contents(k, all) && es == Entries(k, all, 0)
  {
    assert done + [] == done && es + [] == es;
  }

  method SecondPass(k: Kind, p: Parse, rr: Rr, dn: array<byte>, area: array<byte>, ghost sel: Selection)
    returns (sp: nat, es: seq<Entry>)
    requires Before(p, sel, sel.rrs) && rr.dn.Length == MAXDN + 1 && dn.Length == MAXDN + 1
    requires rr.dn != p.dnbuf && rr.dn != dn && p.dnbuf != dn && area != rr.dn && area != p.dnbuf && area != dn
    requires !sel.bad && Good(k, p.pkt, sel.rrs) && |Contents(k, Items(k, p.pkt, sel.rrs))| <= area.Length
    modifies p, p.dnbuf, rr, rr.dn, dn, area
    ensures Behind(p, sel) && (p.qdn == old(p.qdn) || p.qdn == Buffer)
    ensures var items := Items(k, p.pkt, sel.rrs);
            sp <= area.Length && area[..sp] == Contents(k, items) && es == Entries(k, items, 0)
  {
    sp, es := 0, [];
    ghost var items, rest := Items(k, p.pkt, sel.rrs), sel.rrs;
    ghost var left := items;
    FillStart(k, items);
    assert area[..0] == [];
    while true
      invariant Before(p, sel, rest) && Good(k, p.pkt, rest) && left == Items(k, p.pkt, rest)
      invariant sp <= area.Length && Filling(k, area[..sp], sp, items, left, es)
      invariant p.qdn == old(p.qdn) || p.qdn == Buffer
      decreases |rest|
    {
      var r := Step(p, rr, sel, rest);
      if r == 0 {
        break;
      }
      GoodCons(k, p.pkt, rest);
      sp, es := FillOne(k, p.pkt, rr, dn, area, sp, es, rest[0], items, left);
      rest, left := rest[1..], left[1..];
    }
    FilledUp(k, area[..sp], sp, items, es);
  }

  method FillOne(k: Kind, pkt: seq<byte>, rr: Rr, dn: array<byte>, area: array<byte>, sp: nat, es: seq<Entry>,
                 ghost rec: Record, ghost all: seq<Item>, ghost left: seq<Item>)
    returns (sp': nat, es': seq<Entry>)
    requires rr.IsRecord(rec) && InPacket(pkt, rec) && left != [] && ItemOf(k, pkt, rec) == Some(left[0])
    requires dn.Length == MAXDN + 1 && dn != area && dn != rr.dn && area != rr.dn && sp <= area.Length
    requires Filling(k, area[..sp], sp, all, left, es) && |Contents(k, all)| <= area.Length
    modifies dn, area
    ensures sp' <= area.Length && Filling(k, area[..sp'], sp', all, left[1..], es')
  {
    ghost var done := area[..sp];
    FillNext(k, done, sp, all, left, es);
    var e;
    sp', e := FillBehind(k, pkt, rr, dn, area, sp, rec, left[0], done);
    es' := es + [e];
  }

  method FillBehind(k: Kind, pkt: seq<byte>, rr: Rr, dn: array<byte>, area: array<byte>, sp: nat, ghost rec: Record,
                    ghost item: Item, ghost done: seq<byte>)
    returns (sp': nat, e: Entry)
    requires rr.IsRecord(rec) && InPacket(pkt, rec) && dn.Length == MAXDN + 1
    requires dn != area && dn != rr.dn && area != rr.dn && sp <= area.Length && done == area[..sp]
    requires ItemOf(k, pkt, rec) == Some(item) && sp + |LaidOut(k, item.parts)| <= area.Length
    modifies dn, area
    ensures sp' == sp + |LaidOut(k, item.parts)| && area[..sp'] == done + LaidOut(k, item.parts)
    ensures e == EntryOf(k, item, sp)
  {
    ghost var was := area[..];
    assert was[..sp] == done;
    sp', e := Fill(k, pkt, rr, dn, area, sp, rec, item);
  }

  // The result: the entries, and the area that holds all strings, with the name reached and the
  // question name at its end.
  datatype Block = Block(nrr: nat, entries: seq<Entry>, area: array<byte>, cname: nat, qname: nat, ttl: nat)

  ghost function Selected(pkt: seq<byte>, at: nat, name: Asked): Selection
    requires |pkt| >= HSIZE && at + 4 <= |pkt|
  {
    ScanFrom(pkt, WishAt(pkt, at), at + 4, NumAn(pkt), name, false)
  }

  ghost predicate IsName(pkt: seq<byte>, qdn: NameRef, name: Asked) {
    match qdn
    case Payload => Terminated(pkt, HSIZE) && name == Name(LabelsAt(pkt, HSIZE), true)
    case Given(dn) => Terminated(dn, 0) && name == Name(LabelsAt(dn, 0), false) && |Wire(LabelsAt(dn, 0))| <= MAXDN + 1
    case _ => false
  }

  // Something malformed, no record, or a result.
  ghost function StatusOf(k: Kind, pkt: seq<byte>, sel: Selection): int {
    if sel.bad || !Good(k, pkt, sel.rrs) then E_PROTOCOL else if sel.rrs == [] then E_NODATA else 0
  }

  ghost predicate FilledIn(k: Kind, pkt: seq<byte>, sel: Selection, b: Block)
    requires Good(k, pkt, sel.rrs) && sel.name.Name? && Terminated(pkt, HSIZE)
    reads b.area
  {
    var items := Items(k, pkt, sel.rrs);
    var c := Contents(k, items);
    && b.area[..] == c + NameStrings(pkt, sel.name)
    && b.nrr == |sel.rrs| && b.entries == Entries(k, items, 0)
    && b.cname == |c| && b.qname == QNamePlace(sel.name, |c|) && b.ttl == sel.ttl
  }

  // dns_parse_*: for the records selected by name, type and class, the error that applies or the block;
  // what the second pass writes fills exactly the bytes that the first pass has counted. When there is a
  // result and the question name is not sized rightly, dns_stdrr_size and dns_stdrr_finish leave the packet
  // or the block, and nothing can be said.
  method Build(k: Kind, pkt: seq<byte>, qdn: NameRef, at: nat, ghost name: Asked)
    returns (status: int, res: Option<Block>)
    requires |pkt| >= HSIZE && at + 4 <= |pkt| && IsName(pkt, qdn, name)
    ensures var sel := Selected(pkt, at, name);
            StatusOf(k, pkt, sel) < 0 || QuestionSized(pkt) ==>
              && status == StatusOf(k, pkt, sel)
              && (status == 0 ==> res.Some? && sel.name.Name? && FilledIn(k, pkt, sel, res.value))
    ensures res.Some? ==> fresh(res.value.area)
  {
    res := None;
    var p := new Parse(pkt, qdn, at);
    var rr := new Rr();
    var dn := new byte[MAXDN + 1];
    ghost var sel := Selected(pkt, at, name);
    SelectedInPacket(pkt, p.wish, at + 4, NumAn(pkt), name, false);
    var l;
    status, l := FirstPass(k, p, rr, dn, sel);
    if status < 0 {
      return;
    }
    if p.nrr == 0 {
      return E_NODATA, res;
    }
    if !QuestionSized(pkt) {
      status := *;
      return;
    }
    var b := Assemble(k, p, qdn, rr, dn, l, at, name, sel);
    res := Some(b);
  }

  // Allocation, the second pass, and the names at the end.
  method Assemble(k: Kind, p: Parse, qdn: NameRef, rr: Rr, dn: array<byte>, l: nat, ghost at: nat, ghost name: Asked,
                  ghost sel: Selection)
    returns (b: Block)
    requires at + 4 <= |p.pkt| && |p.pkt| >= HSIZE && p.ans == at + 4 && p.wish == WishAt(p.pkt, at)
    requires IsName(p.pkt, qdn, name) && sel == Selected(p.pkt, at, name)
    requires Behind(p, sel) && NameOk(p)
    requires forall rec :: rec in sel.rrs ==> InPacket(p.pkt, rec)
    requires !sel.bad && Good(k, p.pkt, sel.rrs) && l == |Contents(k, Items(k, p.pkt, sel.rrs))|
    requires rr.dn.Length == MAXDN + 1 && dn.Length == MAXDN + 1
    requires rr.dn != p.dnbuf && rr.dn != dn && p.dnbuf != dn
    modifies p, p.dnbuf, rr, rr.dn, dn
    ensures sel.name.Name? && FilledIn(k, p.pkt, sel, b) && fresh(b.area)
  {
    var n := StdSize(p);
    var area := new byte[l + n];
    p.Rewind(qdn);
    var sp, es := SecondPass(k, p, rr, dn, area, sel);
    b := PutNames(k, p, area, sp, es, sel);
  }

  method PutNames(k: Kind, p: Parse, area: array<byte>, sp: nat, es: seq<Entry>, ghost sel: Selection)
    returns (b: Block)
    requires Behind(p, sel) && NameOk(p) && Good(k, p.pkt, sel.rrs) && area != p.dnbuf && sp <= area.Length
    requires var items := Items(k, p.pkt, sel.rrs); area[..sp] == Contents(k, items) && es == Entries(k, items, 0)
    requires area.Length == sp + |NameStrings(p.pkt, p.NameOf(p.qdn))|
    modifies area
    ensures sel.name.Name? && FilledIn(k, p.pkt, sel, b) && b.area == area
  {
    ghost var was := area[..];
    assert was[..sp] == area[..sp];
    var cname, qname := StdFinish(p, area, sp);
    Whole(area[..]);
    b := Block(p.nrr, es, area, cname, qname, p.ttl);
  }

  // ---------- when the sizes of the question name agree ----------

  // What dns_dntop_size counts for a name, and what dns_dntop then stores.
  ghost predicate SizeIsRight(labels: Labels) {
    (if TextSize(labels) > MAXNAME then 0 else TextSize(labels)) == Stored(labels, MAXNAME)
  }

  // Whatever stands behind the packet in memory: as much is counted for the question name as is stored.
  ghost predicate SizesAgree(pkt: seq<byte>) {
    forall mem: seq<byte> :: Terminated(pkt + mem, HSIZE) ==> SizeIsRight(LabelsAt(pkt + mem, HSIZE))
  }

  lemma SizeIsRightIff(labels: Labels)
    requires Labelled(labels)
    ensures SizeIsRight(labels) <==> TextSize(labels) <= MAXNAME
  {
    StoredIs(labels, MAXNAME);
  }

  // The two passes agree about the question name if and only if it ends inside the packet and its text
  // fits 1024 bytes.
  lemma SizesAgreeIff(pkt: seq<byte>)
    ensures SizesAgree(pkt) <==> QuestionSized(pkt)
  {
    if Terminated(pkt, HSIZE) {
      assert pkt + [] == pkt;
      SizeIsRightIff(LabelsAt(pkt, HSIZE));
      if QuestionSized(pkt) {
        forall mem: seq<byte> | Terminated(pkt + mem, HSIZE) ensures SizeIsRight(LabelsAt(pkt + mem, HSIZE)) {
          SameInside(pkt, mem, HSIZE);
        }
      } else {
        assert Terminated(pkt + [], HSIZE) && !SizeIsRight(LabelsAt(pkt + [], HSIZE));
      }
    } else {
      var mem := RunsOff(pkt, HSIZE);
      SizeIsRightIff(LabelsAt(pkt + mem, HSIZE));
    }
  }

  lemma {:induction false} SameInside(pkt: seq<byte>, mem: seq<byte>, pos: nat)
    requires Terminated(pkt, pos)
    ensures Terminated(pkt + mem, pos) && LabelsAt(pkt + mem, pos) == LabelsAt(pkt, pos)
    decreases |pkt| - pos
  {
    if pkt[pos] != 0 {
      var next := pos + 1 + pkt[pos];
      SameInside(pkt, mem, next);
      assert (pkt + mem)[pos + 1..next] == pkt[pos + 1..next];
    }
  }

  // A chain that runs off the packet may go on with labels whose text is too long.
  lemma {:induction false} RunsOff(pkt: seq<byte>, pos: nat) returns (mem: seq<byte>)
    requires !Terminated(pkt, pos)
    ensures Terminated(pkt + mem, pos) && TextSize(LabelsAt(pkt + mem, pos)) > MAXNAME
    decreases |pkt| - pos
  {
    if pos < |pkt| {
      var next := pos + 1 + pkt[pos];
      mem := RunsOff(pkt, next);
      var labels := LabelsAt(pkt + mem, next);
      assert LabelsAt(pkt + mem, pos) == [(pkt + mem)[pos + 1..next]] + labels;
      TextGrows((pkt + mem)[pos + 1..next], labels);
    } else {
      mem := LongChain(pkt, pos);
    }
  }

  lemma LongChain(pkt: seq<byte>, pos: nat) returns (mem: seq<byte>)
    requires pos >= |pkt|
    ensures Terminated(pkt + mem, pos) && TextSize(LabelsAt(pkt + mem, pos)) > MAXNAME
  {
    var l: seq<byte> := seq(255, _ => 0x61);
    var labels := [l, l, l, l, l];
    var gap: seq<byte> := seq(pos - |pkt|, _ => 0);
    mem := gap + Wire(labels);
    LabelsOfWire(pkt + gap, labels, []);
    assert pkt + mem == (pkt + gap) + Wire(labels) + [];
    LongText(l, labels);
  }

  lemma TextGrows(l: seq<byte>, labels: Labels)
    ensures TextSize([l] + labels) >= TextSize(labels)
  {
    assert ([l] + labels)[1..] == labels;
  }

  lemma LongText(l: seq<byte>, labels: Labels)
    requires |l| == 255 && labels == [l, l, l, l, l]
    ensures TextSize(labels) > MAXNAME
  {
    EscapesLength(l);
    assert |labels[1..]| == 4 && forall i :: 0 <= i < 4 ==> labels[1..][i] == l;
    DottedLong(labels[1..]);
  }

  lemma {:induction false} DottedLong(labels: Labels)
    requires forall i :: 0 <= i < |labels| ==> |labels[i]| == 255
    ensures |DottedText(labels)| >= 256 * |labels|
  {
    if labels != [] {
      EscapesLength(labels[0]);
      DottedLong(labels[1..]);
    }
  }

  // A question name without a pointer that dns_getdn accepts is sized rightly.
  lemma PlainIsSized(pkt: seq<byte>)
    requires Fits(Expand(pkt, HSIZE, MAXJUMPS), MAXDN) && !EndsInPointer(pkt, HSIZE)
    ensures QuestionSized(pkt)
  {
    PlainName(pkt, HSIZE, MAXJUMPS);
    TextSizeBound(LabelsAt(pkt, HSIZE));
  }

  // ---------- what the caller finds ----------

  ghost predicate Stands(area: seq<byte>, at: nat, s: seq<byte>) {
    at + |s| <= |area| && area[at..at + |s|] == s
  }

  lemma StandsBoth(area: seq<byte>, at: nat, s: seq<byte>, t: seq<byte>)
    requires Stands(area, at, s + t)
    ensures Stands(area, at, s) && Stands(area, at + |s|, t)
  {
    assert area[at..at + |s|] == (s + t)[..|s|];
    assert area[at + |s|..at + |s| + |t|] == (s + t)[|s|..];
  }

  // Each part stands where the list of places says.
  lemma {:induction false} PartsStand(k: Kind, parts: seq<seq<byte>>, at: nat, area: seq<byte>)
    requires Stands(area, at, LaidOut(k, parts))
    ensures |Places(k, parts, at)| == |parts|
    ensures forall j :: 0 <= j < |parts| ==> Stands(area, Places(k, parts, at)[j], parts[j] + Zero(k))
  {
    if parts != [] {
      var next := at + |parts[0]| + |Zero(k)|;
      StandsBoth(area, at, parts[0] + Zero(k), LaidOut(k, parts[1..]));
      PartsStand(k, parts[1..], next, area);
      forall j | 1 <= j < |parts| ensures Stands(area, Places(k, parts, at)[j], parts[j] + Zero(k)) {
        assert Places(k, parts, at)[j] == Places(k, parts[1..], next)[j - 1];
      }
    }
  }

  ghost predicate EntryStands(k: Kind, area: seq<byte>, item: Item, e: Entry) {
    && e.fields == item.fields && |e.places| == |item.parts|
    && (k.Txt? && item.parts != [] ==> e.len == |item.parts[0]|)
    && forall j :: 0 <= j < |item.parts| ==> Stands(area, e.places[j], item.parts[j] + Zero(k))
  }

  // In a block that has been filled in, entry i points at the strings of the i-th selected record.
  lemma {:induction false} EntriesStand(k: Kind, items: seq<Item>, at: nat, area: seq<byte>, i: nat)
    requires Stands(area, at, Contents(k, items)) && i < |items|
    ensures EntryStands(k, area, items[i], Entries(k, items, at)[i])
    decreases i
  {
    var c := LaidOut(k, items[0].parts);
    StandsBoth(area, at, c, Contents(k, items[1..]));
    if i == 0 {
      PartsStand(k, items[0].parts, at, area);
    } else {
      EntriesStand(k, items[1..], at + |c|, area, i - 1);
    }
  }

  // And that record spells them.
  lemma {:induction false} ItemsAre(k: Kind, pkt: seq<byte>, rrs: seq<Record>, i: nat)
    requires Good(k, pkt, rrs) && i < |rrs|
    ensures InPacket(pkt, rrs[i]) && ItemOf(k, pkt, rrs[i]) == Some(Items(k, pkt, rrs)[i])
    decreases i
  {
    GoodCons(k, pkt, rrs);
    if i > 0 {
      ItemsAre(k, pkt, rrs[1..], i - 1);
    }
  }

  lemma BlockEntries(k: Kind, pkt: seq<byte>, sel: Selection, b: Block, i: nat)
    requires |pkt| >= HSIZE && Terminated(pkt, HSIZE) && sel.name.Name? && Good(k, pkt, sel.rrs)
    requires FilledIn(k, pkt, sel, b) && i < |sel.rrs|
    ensures |b.entries| == |sel.rrs| && InPacket(pkt, sel.rrs[i])
    ensures match ItemOf(k, pkt, sel.rrs[i])
            case None => false
            case Some(item) => EntryStands(k, b.area[..], item, b.entries[i])
  {
    var items := Items(k, pkt, sel.rrs);
    assert Stands(b.area[..], 0, Contents(k, items));
    EntriesStand(k, items, 0, b.area[..], i);
    ItemsAre(k, pkt, sel.rrs, i);
  }

  // So a name in the result, given back to dns_ptodn, names the labels that the packet spells.
  lemma NameReadsBack(area: seq<byte>, at: nat, labels: Labels)
    requires Stands(area, at, TextOf(labels) + [0]) && ShortLabels(labels) && |Wire(labels)| <= MAXDN
    ensures 0 in area[at..]
    ensures var t := DnFromText.TextArg(area[at..], 0); Names(t) && NamedLabels(t) == labels
  {
    assert area[at..][..TextSize(labels)] == TextOf(labels) + [0];
    DnFromText.BufferRoundTrip(labels, area[at..]);
  }
}
