/**
 * The version 3 packet: a fifteen-byte header with a checksum, a payload, and for control packets
 * (and, opted in, for data packets) a trailing truncated HMAC over the header, the payload and
 * the connection epoch. The HMAC is a parameter, any function with a sixteen-byte result.
 */
module Packet {
  import opened Common
  import opened Bytes
  import opened CrcTable

  const MAGIC0: Byte := 0x53
  const MAGIC1: Byte := 0x4b
  const PROTOCOL_VERSION: Byte := 3
  const HEADER_SIZE: nat := 15
  const COVERED: nat := 13
  const TAG_LENGTH: nat := 16

  type Tag = t: seq<Byte> | |t| == 16 witness [0, 0, 0, 0, 0, 0, 0, 0, 0, 0, 0, 0, 0, 0, 0, 0]

  /** Secret key, whether an ASCII key is stretched, and the bytes to authenticate. */
  type Mac = (string, bool, seq<Byte>) -> Tag

  datatype PacketType =
    | DATA | ACK | NAK | HEARTBEAT | HELLO | METADATA | META_REQUEST | FULL_STATUS_REQUEST

  function TypeByte(t: PacketType): Byte {
    match t
    case DATA => 1
    case ACK => 2
    case NAK => 3
    case HEARTBEAT => 4
    case HELLO => 5
    case METADATA => 6
    case META_REQUEST => 7
    case FULL_STATUS_REQUEST => 8
  }

  function TypeOfByte(b: Byte): Option<PacketType> {
    if b == 1 then Some(DATA)
    else if b == 2 then Some(ACK)
    else if b == 3 then Some(NAK)
    else if b == 4 then Some(HEARTBEAT)
    else if b == 5 then Some(HELLO)
    else if b == 6 then Some(METADATA)
    else if b == 7 then Some(META_REQUEST)
    else if b == 8 then Some(FULL_STATUS_REQUEST)
    else None
  }

  predicate IsControl(t: PacketType) {
    !t.DATA? && !t.METADATA?
  }

  datatype Flags = Flags(compressed: bool, encrypted: bool, messagepack: bool, pathDictionary: bool)

  const NO_FLAGS := Flags(false, false, false, false)

  /** The flag byte's bits, lowest first: the four flags, authenticated header, epoch-bound tag. */
  datatype FlagBits = FlagBits(flags: Flags, authenticatedHeader: bool, epochBoundAuth: bool)

  function Bit(on: bool, weight: nat): nat {
    if on then weight else 0
  }

  function FlagByte(f: FlagBits): Byte {
    Bit(f.flags.compressed, 1) + Bit(f.flags.encrypted, 2) + Bit(f.flags.messagepack, 4)
    + Bit(f.flags.pathDictionary, 8) + Bit(f.authenticatedHeader, 16) + Bit(f.epochBoundAuth, 32)
  }

  predicate BitSet(b: Byte, weight: nat)
    requires 0 < weight
  {
    b / weight % 2 == 1
  }

  function FlagsOfByte(b: Byte): FlagBits {
    FlagBits(Flags(BitSet(b, 1), BitSet(b, 2), BitSet(b, 4), BitSet(b, 8)), BitSet(b, 16), BitSet(b, 32))
  }

  // ------------------------------------------------------------------- the tag

  /** A JavaScript number as far as an epoch is concerned. */
  datatype Number = Finite(r: real) | NotFinite

  /** A positive finite number, or zero. */
  function PositiveEpoch(n: Number): real {
    if n.Finite? && 0.0 < n.r then n.r else 0.0
  }

  /** Eight big-endian bytes after the payload, or none when no epoch is bound. */
  function EpochBytes(epoch: real): seq<Byte> {
    if 0.0 < epoch then U64(epoch.Floor % TWO64) else []
  }

  function MacInput(header: seq<Byte>, payload: seq<Byte>, epoch: real): seq<Byte> {
    header + payload + EpochBytes(epoch)
  }

  // --------------------------------------------------------------------- building

  /** The bytes the checksum and the tag cover. */
  function Header13(t: PacketType, f: FlagBits, sequence: nat, length: nat): (h: seq<Byte>)
    requires sequence < TWO32 && length < TWO32
    ensures |h| == COVERED
  {
    [MAGIC0, MAGIC1, PROTOCOL_VERSION, TypeByte(t), FlagByte(f)] + U32(sequence) + U32(length)
  }

  function CrcBytes(h: seq<Byte>): (c: seq<Byte>)
    ensures |c| == 2
  {
    U16(Crc16Value(h))
  }

  /** An empty secret key stands for no key. */
  datatype Settings = Settings(
    secretKey: string, stretchAsciiKey: bool, authenticatedHeaders: bool, epochBoundAuth: bool, epoch: Number)

  datatype BuildError = UnsupportedVersion | NoSecretKey | LengthOutOfRange

  /** What a caller may override for one packet. */
  datatype BuildOptions = BuildOptions(secretKey: string, protocolVersion: Option<int>)

  const NO_OPTIONS := BuildOptions("", None)

  function BuildKey(s: Settings, o: BuildOptions): string {
    if o.secretKey != "" then o.secretKey else s.secretKey
  }

  predicate AuthenticatesHeader(s: Settings, t: PacketType) {
    s.authenticatedHeaders && !IsControl(t)
  }

  predicate IsTagged(s: Settings, t: PacketType) {
    IsControl(t) || AuthenticatesHeader(s, t)
  }

  function BoundEpoch(s: Settings, t: PacketType): real {
    if t.HELLO? || !s.epochBoundAuth then 0.0 else PositiveEpoch(s.epoch)
  }

  function BuildFlags(s: Settings, t: PacketType, flags: Flags): FlagBits {
    FlagBits(flags, AuthenticatesHeader(s, t), 0.0 < BoundEpoch(s, t))
  }

  function BuildPacket(mac: Mac, s: Settings, t: PacketType, payload: seq<Byte>, flags: Flags,
                       sequence: int, o: BuildOptions): Result<seq<Byte>, BuildError>
  {
    if o.protocolVersion.Some? && o.protocolVersion.value != 3 then Err(UnsupportedVersion)
    else if IsTagged(s, t) && BuildKey(s, o) == "" then Err(NoSecretKey)
    else
      var length := |payload| + (if IsTagged(s, t) then TAG_LENGTH else 0);
      if TWO32 <= length then Err(LengthOutOfRange)
      else
        var h := Header13(t, BuildFlags(s, t, flags), ToUint32(sequence), length);
        var tag := if IsTagged(s, t)
                   then mac(BuildKey(s, o), s.stretchAsciiKey, MacInput(h, payload, BoundEpoch(s, t)))
                   else [];
        Ok(h + CrcBytes(h) + (payload + tag))
  }

  // ---------------------------------------------------------------------- parsing

  datatype ParseError =
    | TooSmall | BadMagic | BadVersion | UnknownType | CrcMismatch | LengthMismatch
    | HeaderNotAuthenticated | TagMissing | ParserHasNoKey | AuthenticationFailed
    | EpochNotBound | NoPeerEpoch

  datatype ParsedPacket = ParsedPacket(
    version: Byte, packetType: PacketType, flags: FlagBits, sequence: nat, payloadLength: nat, payload: seq<Byte>)

  /** What a caller may override for one packet; the peer's epoch is known only per packet. */
  datatype ParseOptions = ParseOptions(
    secretKey: string, stretchAsciiKey: Option<bool>, authenticatedHeaders: Option<bool>,
    epochBoundAuth: Option<bool>, epoch: Option<Number>)

  function Override<T>(o: Option<T>, own: T): T {
    if o.Some? then o.value else own
  }

  /** The epoch the tag must be bound to: zero for none. */
  function ResolveAuthEpoch(s: Settings, f: FlagBits, o: ParseOptions): Result<real, ParseError> {
    var required := Override(o.epochBoundAuth, s.epochBoundAuth);
    var known := if o.epoch.Some? then PositiveEpoch(o.epoch.value) else 0.0;
    if !f.epochBoundAuth then (if required then Err(EpochNotBound) else Ok(0.0))
    else if known == 0.0 then Err(NoPeerEpoch)
    else Ok(known)
  }

  /** Check the trailing tag and return what precedes it. */
  function StripTag(mac: Mac, s: Settings, h: seq<Byte>, body: seq<Byte>, epoch: real, o: ParseOptions)
    : Result<seq<Byte>, ParseError>
  {
    if |body| < TAG_LENGTH then Err(TagMissing)
    else
      var key := if o.secretKey != "" then o.secretKey else s.secretKey;
      var payload, tag := body[..|body| - TAG_LENGTH], body[|body| - TAG_LENGTH..];
      if key == "" then Err(ParserHasNoKey)
      else if mac(key, Override(o.stretchAsciiKey, s.stretchAsciiKey), MacInput(h, payload, epoch)) != tag
      then Err(AuthenticationFailed)
      else Ok(payload)
  }

  function StripDataTag(mac: Mac, s: Settings, h: seq<Byte>, body: seq<Byte>, f: FlagBits, o: ParseOptions)
    : Result<seq<Byte>, ParseError>
  {
    if !f.authenticatedHeader then Err(HeaderNotAuthenticated)
    else
      match ResolveAuthEpoch(s, f, o)
      case Err(e) => Err(e)
      case Ok(epoch) => StripTag(mac, s, h, body, epoch, o)
  }

  function StripControlTag(mac: Mac, s: Settings, h: seq<Byte>, body: seq<Byte>, f: FlagBits, o: ParseOptions)
    : Result<seq<Byte>, ParseError>
  {
    if |body| < TAG_LENGTH then Err(TagMissing)
    else
      match ResolveAuthEpoch(s, f, o)
      case Err(e) => Err(e)
      case Ok(epoch) => StripTag(mac, s, h, body, epoch, o)
  }

  /** The header fields that come before integrity and authentication are checked. */
  function ParseFields(p: seq<Byte>): Result<ParsedPacket, ParseError>
    requires HEADER_SIZE <= |p|
  {
    if p[0] != MAGIC0 || p[1] != MAGIC1 then Err(BadMagic)
    else if p[2] != PROTOCOL_VERSION then Err(BadVersion)
    else if TypeOfByte(p[3]) == None then Err(UnknownType)
    else Ok(ParsedPacket(p[2], TypeOfByte(p[3]).value, FlagsOfByte(p[4]),
                         ReadU32(p[5..9]), ReadU32(p[9..13]), p[HEADER_SIZE..]))
  }

  function ValidateIntegrity(p: seq<Byte>, payloadLength: nat): Option<ParseError>
    requires HEADER_SIZE <= |p|
  {
    if Crc16Value(p[..COVERED]) != ReadU16(p[13..15]) then Some(CrcMismatch)
    else if payloadLength != |p| - HEADER_SIZE then Some(LengthMismatch)
    else None
  }

  /** Authenticate where required and drop the tag; `h` is the covered header. */
  function ParsePayload(mac: Mac, s: Settings, h: seq<Byte>, r: ParsedPacket, o: ParseOptions)
    : Result<seq<Byte>, ParseError>
  {
    var authOptions := if r.packetType.HELLO? then o.(epochBoundAuth := Some(false)) else o;
    if IsControl(r.packetType) then StripControlTag(mac, s, h, r.payload, r.flags, authOptions)
    else if Override(o.authenticatedHeaders, s.authenticatedHeaders)
    then StripDataTag(mac, s, h, r.payload, r.flags, authOptions)
    else Ok(r.payload)
  }

  function ParseHeader(mac: Mac, s: Settings, p: seq<Byte>, o: ParseOptions): Result<ParsedPacket, ParseError> {
    if |p| < HEADER_SIZE then Err(TooSmall)
    else
      match ParseFields(p)
      case Err(e) => Err(e)
      case Ok(r) =>
        if ValidateIntegrity(p, r.payloadLength).Some? then Err(ValidateIntegrity(p, r.payloadLength).value)
        else
          match ParsePayload(mac, s, p[..COVERED], r, o)
          case Err(e) => Err(e)
          case Ok(payload) => Ok(r.(payload := payload))
  }

  // ------------------------------------------------------------ ACK and NAK payloads

  function AckPayload(acked: int, window: Option<int>): seq<Byte> {
    U32(ToUint32(acked)) + (if window.Some? then U32(ToUint32(window.value)) else [])
  }

  /** `None` when the payload is too small. */
  function ParseAck(payload: seq<Byte>): Option<(nat, Option<nat>)> {
    if |payload| < 4 then None
    else Some((ReadU32(payload[..4]), if 8 <= |payload| then Some(ReadU32(payload[4..8])) else None))
  }

  function NakPayload(missing: seq<int>): (p: seq<Byte>)
    ensures |p| == 4 * |missing|
  {
    if missing == [] then [] else U32(ToUint32(missing[0])) + NakPayload(missing[1..])
  }

  function ReadAll(payload: seq<Byte>): (xs: seq<nat>)
    requires |payload| % 4 == 0
    ensures |xs| == |payload| / 4
  {
    if payload == [] then [] else [ReadU32(payload[..4])] + ReadAll(payload[4..])
  }
}
