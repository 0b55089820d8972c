// The header of a reply (section 4.1.1 of RFC 1035), and what it says about the name asked for.
module ReplyHeader {
  import opened DomainNames
  import opened Packets
  import opened RRIter

  const R_NOERROR := 0
  const R_FORMERR := 1
  const R_NXDOMAIN := 3
  const R_NOTIMPL := 4

  function Opcode(pkt: seq<byte>): nat
    requires |pkt| >= HSIZE
  {
    var b: nat := pkt[2];
    b / 8 % 16
  }

  predicate Truncated(pkt: seq<byte>)
    requires |pkt| >= HSIZE
  {
    var b: nat := pkt[2];
    b / 2 % 2 == 1
  }

  function RCode(pkt: seq<byte>): nat
    requires |pkt| >= HSIZE
  {
    var b: nat := pkt[3];
    b % 16
  }

  function NumQd(pkt: seq<byte>): nat
    requires |pkt| >= HSIZE
  {
    Get16(pkt, 4)
  }

  predicate HeaderOk(pkt: seq<byte>) {
    |pkt| >= HSIZE && NumQd(pkt) <= 1 && Opcode(pkt) == 0
  }

  // What a reply says about the name.
  datatype Verdict = Positive | NoAnswer | NxDomain | FormErr | Trouble

  function VerdictOf(pkt: seq<byte>): Verdict
    requires |pkt| >= HSIZE
  {
    var rcode := RCode(pkt);
    if rcode == R_NOERROR then
      if Truncated(pkt) then Trouble else if NumAn(pkt) == 0 then NoAnswer else Positive
    else if rcode == R_NXDOMAIN then NxDomain
    else if rcode == R_FORMERR || rcode == R_NOTIMPL then FormErr
    else Trouble
  }
}
