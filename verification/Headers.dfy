/** Packet headers (Polygon/lib/ngtcp2_pkt.c): the long form of handshake packets and the short form
    of protected ones, whose packet number is cut to one, two or four bytes. */
module Headers {
  import opened Basics
  import R = Ranges
  import opened Numbers
  import opened Wire
  import opened PacketNumbers

  datatype Header =
    | Long(kind: byte, connId: nat, version: nat, pktNum: nat)
    | Short(omit: bool, keyPhase: bool, width: Width, connId: nat, pktNum: nat)

  const VERSION_NEGOTIATION: byte := 0x00

  /** Initial, Retry, Handshake and 0-RTT Protected. */
  predicate LongKind(kind: byte) {
    0x7C <= kind <= 0x7F
  }

  function ShortKind(w: Width): byte {
    match w
    case Bits8 => 0x1F
    case Bits16 => 0x1E
    case Bits32 => 0x1D
  }

  function Bytes(w: Width): (k: nat)
    ensures Size(w) == Pow256(k)
  {
    Powers();
    match w
    case Bits8 => 1
    case Bits16 => 2
    case Bits32 => 4
  }

  predicate Fits(h: Header) {
    h.connId <= R.UINT64_MAX && h.pktNum <= R.UINT64_MAX &&
    (h.Long? ==> h.kind < 0x80 && h.version < 0x1_0000_0000)
  }

  /** The first byte: the form bit, or the flags and the width of a short header. */
  function First(h: Header): byte
    requires Fits(h)
  {
    match h
    case Long(kind, _, _, _) => 0x80 + kind
    case Short(omit, keyPhase, width, _, _) =>
      ShortKind(width) + (if omit then 0x40 else 0) + (if keyPhase then 0x20 else 0)
  }

  function PutId(omit: bool, connId: nat): seq<byte>
    requires connId <= R.UINT64_MAX
  {
    Powers();
    if omit then [] else PutUint(connId, 8)
  }

  function Encode(h: Header): seq<byte>
    requires Fits(h)
  {
    Powers();
    match h
    case Long(_, connId, version, pktNum) =>
      [First(h)] + (PutUint(connId, 8) + (PutUint(version, 4) + PutUint(pktNum % 0x1_0000_0000, 4)))
    case Short(omit, _, width, connId, pktNum) =>
      [First(h)] + (PutId(omit, connId) + PutUint(pktNum % Size(width), Bytes(width)))
  }

  /** What arrives: the packet number is cut to its width, and an omitted id reads as 0. */
  function Arrived(h: Header): Header {
    match h
    case Long(kind, connId, version, pktNum) => Long(kind, connId, version, pktNum % 0x1_0000_0000)
    case Short(omit, keyPhase, width, connId, pktNum) =>
      Short(omit, keyPhase, width, if omit then 0 else connId, pktNum % Size(width))
  }

  datatype Failure = InvalidArgument | UnknownType

  datatype Result = Ok(read: Read<Header>) | Err(failure: Failure)

  function TakeId(s: seq<byte>, omit: bool): Option<Read<nat>> {
    if omit then Some(Read(0, s)) else TakeUint(s, 8)
  }

  function WidthOf(kind: byte): Option<Width> {
    if kind == 0x1F then Some(Bits8)
    else if kind == 0x1E then Some(Bits16)
    else if kind == 0x1D then Some(Bits32)
    else None
  }

  function TakeLong(b: byte, s: seq<byte>): Option<Read<Header>> {
    var connId :- TakeUint(s, 8);
    var version :- TakeUint(connId.rest, 4);
    var pktNum :- TakeUint(version.rest, 4);
    Some(Read(Long(b, connId.value, version.value, pktNum.value), pktNum.rest))
  }

  function TakeShort(omit: bool, keyPhase: bool, width: Width, s: seq<byte>): Option<Read<Header>> {
    var connId :- TakeId(s, omit);
    var pktNum :- TakeUint(connId.rest, Bytes(width));
    Some(Read(Short(omit, keyPhase, width, connId.value, pktNum.value), pktNum.rest))
  }

  /** An unknown long type is a version negotiation when the version is 0. */
  function DecodeLong(b: byte, s: seq<byte>): Result {
    match TakeLong(b, s)
    case None => Err(InvalidArgument)
    case Some(r) =>
      if LongKind(b) then Ok(r)
      else if r.value.Long? && r.value.version == 0 then
        Ok(Read(Long(VERSION_NEGOTIATION, r.value.connId, 0, r.value.pktNum), r.rest))
      else Err(UnknownType)
  }

  function DecodeShort(b: byte, s: seq<byte>): Result {
    match WidthOf(b % 0x20)
    case None => Err(UnknownType)
    case Some(width) =>
      match TakeShort(b / 0x40 % 2 == 1, b / 0x20 % 2 == 1, width, s)
      case None => Err(InvalidArgument)
      case Some(r) => Ok(r)
  }

  function Decode(s: seq<byte>): Result {
    if s == [] then Err(InvalidArgument)
    else if s[0] >= 0x80 then DecodeLong(s[0] - 0x80, s[1..])
    else DecodeShort(s[0], s[1..])
  }

  lemma ShortFirst(h: Header)
    requires Fits(h) && h.Short?
    ensures First(h) < 0x80 && WidthOf(First(h) % 0x20) == Some(h.width)
    ensures (First(h) / 0x40 % 2 == 1 <==> h.omit) && (First(h) / 0x20 % 2 == 1 <==> h.keyPhase)
  {
  }

  lemma TakeIdPut(omit: bool, connId: nat, rest: seq<byte>)
    requires connId <= R.UINT64_MAX
    ensures TakeId(PutId(omit, connId) + rest, omit) == Some(Read(if omit then 0 else connId, rest))
  {
    Powers();
    if omit {
      assert PutId(omit, connId) + rest == rest;
    } else {
      TakeUintPut(connId, 8, rest);
    }
  }

  /** A short header comes back with the packet number cut to its width, and without an id that was
      omitted. */
  lemma ShortRoundTrip(h: Header, rest: seq<byte>)
    requires Fits(h) && h.Short?
    ensures Decode(Encode(h) + rest) == Ok(Read(Arrived(h), rest))
  {
    var a, b := PutId(h.omit, h.connId), PutUint(h.pktNum % Size(h.width), Bytes(h.width));
    ShortFirst(h);
    assert Encode(h) + rest == [First(h)] + (a + (b + rest));
    assert ([First(h)] + (a + (b + rest)))[1..] == a + (b + rest);
    TakeIdPut(h.omit, h.connId, b + rest);
    TakeUintPut(h.pktNum % Size(h.width), Bytes(h.width), rest);
  }

  lemma LongTaken(h: Header, rest: seq<byte>)
    requires Fits(h) && h.Long?
    ensures Encode(h) != [] && TakeLong(h.kind, (Encode(h) + rest)[1..]) == Some(Read(Arrived(h), rest))
  {
    Powers();
    var a, b, c := PutUint(h.connId, 8), PutUint(h.version, 4), PutUint(h.pktNum % 0x1_0000_0000, 4);
    assert (Encode(h) + rest)[1..] == a + (b + (c + rest));
    TakeUintPut(h.connId, 8, b + (c + rest));
    TakeUintPut(h.version, 4, c + rest);
    TakeUintPut(h.pktNum % 0x1_0000_0000, 4, rest);
  }

  /** A long header comes back with the packet number cut to 32 bits exactly when its type is known or
      it is a version negotiation. */
  lemma LongRoundTrip(h: Header, rest: seq<byte>)
    requires Fits(h) && h.Long?
    ensures Decode(Encode(h) + rest) == Ok(Read(Arrived(h), rest)) <==>
      LongKind(h.kind) || (h.version == 0 && h.kind == VERSION_NEGOTIATION)
  {
    LongTaken(h, rest);
    assert (Encode(h) + rest)[0] == 0x80 + h.kind;
  }

  /** The bytes of a header: the form bit 0x80 or the flags 0x40 and 0x20 with the width in the first
      byte, then the id, the version and the low bytes of the packet number. */
  lemma HeaderBytes(h: Header)
    requires Fits(h)
    ensures Pow256(8) == R.UINT64_MAX + 1 && Pow256(4) == 0x1_0000_0000 && Pow256(2) == 0x1_0000 && Pow256(1) == 0x100
    ensures Encode(h) == match h
      case Long(kind, connId, version, pktNum) =>
        [0x80 + kind] + (PutUint(connId, 8) + (PutUint(version, 4) + PutUint(pktNum % 0x1_0000_0000, 4)))
      case Short(omit, keyPhase, width, connId, pktNum) =>
        var flags: byte := if omit then (if keyPhase then 0x60 else 0x40) else if keyPhase then 0x20 else 0;
        var id := if omit then [] else PutUint(connId, 8);
        match width
        case Bits8 => [flags + 0x1F] + (id + PutUint(pktNum % 0x100, 1))
        case Bits16 => [flags + 0x1E] + (id + PutUint(pktNum % 0x1_0000, 2))
        case Bits32 => [flags + 0x1D] + (id + PutUint(pktNum % 0x1_0000_0000, 4))
  {
    Powers();
  }

  /** How many bytes a header must have, by its first byte; 0 for a short one of unknown width. */
  function Needed(b: byte): nat {
    var id := if b / 0x40 % 2 == 1 then 0 else 8;
    if b >= 0x80 then 17
    else if b % 0x20 == 0x1F then 2 + id
    else if b % 0x20 == 0x1E then 3 + id
    else if b % 0x20 == 0x1D then 5 + id
    else 0
  }

  /** What is refused, and with which error. */
  lemma HeaderRefused(s: seq<byte>)
    ensures Decode(s) == Err(InvalidArgument) <==> s == [] || |s| < Needed(s[0])
    ensures Decode(s) == Err(UnknownType) <==>
      && s != [] && Needed(s[0]) <= |s|
      && (if s[0] < 0x80 then Needed(s[0]) == 0
          else !(0xFC <= s[0] <= 0xFF) && GetUint(s[9..13]) != 0)
  {
    if s != [] && s[0] >= 0x80 {
      LongRefused(s[0] - 0x80, s[1..]);
      if |s| >= 17 {
        assert s[1..][8..][..4] == s[9..13];
      }
    } else if s != [] {
      ShortRefused(s[0], s[1..]);
    }
  }

  lemma LongRefused(b: byte, s: seq<byte>)
    ensures TakeLong(b, s).None? <==> |s| < 16
    ensures |s| >= 16 ==> TakeLong(b, s).value.value.Long? &&
                          TakeLong(b, s).value.value.version == GetUint(s[8..][..4])
  {
  }

  lemma ShortRefused(b: byte, s: seq<byte>)
    requires b < 0x80
    ensures WidthOf(b % 0x20).None? <==> Needed(b) == 0
    ensures Needed(b) > 0 ==>
      (TakeShort(b / 0x40 % 2 == 1, b / 0x20 % 2 == 1, WidthOf(b % 0x20).value, s).None? <==> |s| + 1 < Needed(b))
  {
  }

  /** A number on the way: the sender picks the width, writes the header, and the receiver reads it and
      completes the number. A packet newer than everything received arrives with its full number, unless
      it is more than half a 32-bit window ahead and beyond the current one. */
  lemma NumberCarried(h: Header, largestAcked: uint64, maxPktNum: uint64, rest: seq<byte>)
    requires Fits(h) && h.Short? && h.width == SelectWidth(h.pktNum as uint64, largestAcked)
    requires largestAcked <= maxPktNum < h.pktNum
    ensures Decode(Encode(h) + rest) == Ok(Read(Arrived(h), rest))
    ensures var k := Expected(maxPktNum);
            Adjust(maxPktNum, Arrived(h).pktNum, h.width) == h.pktNum <==>
            (h.width == Bits32 ==> h.pktNum <= k + Size(Bits32) / 2 || h.pktNum < Window(k, Bits32) + Size(Bits32))
  {
    ShortRoundTrip(h, rest);
    ChosenWidthRecovers(h.pktNum, largestAcked, maxPktNum);
  }
}
