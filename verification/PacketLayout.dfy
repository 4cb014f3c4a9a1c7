/** Where everything stands in a packet, and why a packet is refused, told on the bytes. */
module PacketLayout {
  import opened Common
  import opened Bytes
  import opened CrcTable
  import opened Packet
  import opened PacketTheorems

  /** The number that the bytes spell, highest first. */
  function BigEndian(bytes: seq<Byte>): nat {
    if bytes == [] then 0 else BigEndian(bytes[..|bytes| - 1]) * 256 + bytes[|bytes| - 1] as int
  }

  lemma BigEndianTwo(b: seq<Byte>)
    requires |b| == 2
    ensures BigEndian(b) == b[0] as int * 256 + b[1] as int == ReadU16(b)
  {
    assert b[..1] == [b[0]] && [b[0]][..0] == [];
    assert BigEndian([b[0]]) == b[0] as int;
  }

  lemma BigEndianAppend(a: seq<Byte>, x: Byte)
    ensures BigEndian(a + [x]) == BigEndian(a) * 256 + x as int
  {
    assert (a + [x])[..|a|] == a;
  }

  lemma BigEndianFour(b: seq<Byte>)
    requires |b| == 4
    ensures BigEndian(b) == ReadU32(b)
  {
    BigEndianTwo(b[..2]);
    BigEndianTwo(b[2..]);
    BigEndianAppend(b[..2], b[2]);
    BigEndianAppend(b[..3], b[3]);
    assert b[..2] + [b[2]] == b[..3] && b[..3] + [b[3]] == b;
  }

  // ------------------------------------------------------------------------ building

  /** Every packet that is not data carries a tag, and data does when its headers are authenticated. */
  predicate Tagged(s: Settings, t: PacketType) {
    t !in {DATA, METADATA} || s.authenticatedHeaders
  }

  predicate HasType(b: Byte, t: PacketType) {
    && (t == DATA ==> b == 1) && (t == ACK ==> b == 2) && (t == NAK ==> b == 3) && (t == HEARTBEAT ==> b == 4)
    && (t == HELLO ==> b == 5) && (t == METADATA ==> b == 6) && (t == META_REQUEST ==> b == 7)
    && (t == FULL_STATUS_REQUEST ==> b == 8)
  }

  /** The epoch that a tag covers: none for HELLO, and none that is not a positive finite number. */
  function Bound(s: Settings, t: PacketType): real {
    if t != HELLO && s.epochBoundAuth && s.epoch.Finite? && s.epoch.r > 0.0 then s.epoch.r else 0.0
  }

  function One(on: bool): int {
    if on then 1 else 0
  }

  /** The header's fields, high byte first where they have several. */
  predicate HeaderIs(p: seq<Byte>, s: Settings, t: PacketType, flags: Flags, sequence: int) {
    && |p| >= 15 && p[0] == 0x53 && p[1] == 0x4b && p[2] == 3 && HasType(p[3], t)
    && p[4] as int == One(flags.compressed) + 2 * One(flags.encrypted) + 4 * One(flags.messagepack) + 8 * One(flags.pathDictionary)
                      + 16 * One(s.authenticatedHeaders && t in {DATA, METADATA}) + 32 * One(Bound(s, t) > 0.0)
    && BigEndian(p[5..9]) == sequence % 0x1_0000_0000 && BigEndian(p[9..13]) == |p| - 15
    && BigEndian(p[13..15]) == Crc16Value(p[..13])
  }

  /** The body: the payload, and after it the tag over header, payload and eight bytes of the epoch if one is bound. */
  ghost predicate BodyIs(p: seq<Byte>, mac: Mac, s: Settings, t: PacketType, payload: seq<Byte>, o: BuildOptions)
    requires |p| >= 15
  {
    if !Tagged(s, t) then p[15..] == payload
    else
      var key := if o.secretKey != "" then o.secretKey else s.secretKey;
      exists epoch: seq<Byte> ::
        && |epoch| == (if Bound(s, t) > 0.0 then 8 else 0)
        && (Bound(s, t) > 0.0 ==> BigEndian(epoch) == Bound(s, t).Floor % 0x1_0000_0000_0000_0000)
        && p[15..] == payload + mac(key, s.stretchAsciiKey, p[..13] + payload + epoch)
  }

  function Pow256(n: nat): nat {
    if n == 0 then 1 else 256 * Pow256(n - 1)
  }

  lemma {:induction false} BigEndianConcat(a: seq<Byte>, b: seq<Byte>)
    ensures BigEndian(a + b) == BigEndian(a) * Pow256(|b|) + BigEndian(b)
    decreases |b|
  {
    if b == [] {
      assert a + b == a;
    } else {
      var n := |b| - 1;
      BigEndianConcat(a, b[..n]);
      assert a + b == (a + b[..n]) + [b[n]];
      BigEndianAppend(a + b[..n], b[n]);
      Distribute(BigEndian(a), Pow256(n), BigEndian(b[..n]));
    }
  }

  lemma Distribute(x: int, y: int, z: int)
    ensures (x * y + z) * 256 == x * (256 * y) + z * 256
  {
  }

  lemma EpochIsBigEndian(e: real)
    requires 0.0 < e
    ensures |EpochBytes(e)| == 8 && BigEndian(EpochBytes(e)) == e.Floor % TWO64
  {
    var n := e.Floor % TWO64;
    var high, low := U32(n / TWO32), U32(n % TWO32);
    ReadU32OfU32(n / TWO32);
    ReadU32OfU32(n % TWO32);
    BigEndianFour(high);
    BigEndianFour(low);
    BigEndianConcat(high, low);
    assert Pow256(4) == TWO32;
    hide U32, ReadU32, BigEndian, Pow256;
  }

  lemma FlagNumber(s: Settings, t: PacketType, flags: Flags)
    ensures FlagByte(BuildFlags(s, t, flags)) as int
         == One(flags.compressed) + 2 * One(flags.encrypted) + 4 * One(flags.messagepack) + 8 * One(flags.pathDictionary)
            + 16 * One(s.authenticatedHeaders && t in {DATA, METADATA}) + 32 * One(Bound(s, t) > 0.0)
  {
  }

  lemma HeaderPlaces(t: PacketType, f: FlagBits, n: nat, length: nat)
    requires n < TWO32 && length < TWO32
    ensures var h := Header13(t, f, n, length);
            && h[0] == 0x53 && h[1] == 0x4b && h[2] == 3 && h[3] == TypeByte(t) && h[4] == FlagByte(f)
            && h[5..9] == U32(n) && h[9..13] == U32(length)
  {
    hide U32, FlagByte, TypeByte;
  }

  lemma HeaderBytes(s: Settings, t: PacketType, flags: Flags, n: nat, length: nat)
    requires n < TWO32 && length < TWO32
    ensures var h := Header13(t, BuildFlags(s, t, flags), n, length);
            && h[0] == 0x53 && h[1] == 0x4b && h[2] == 3 && HasType(h[3], t)
            && h[4] as int == One(flags.compressed) + 2 * One(flags.encrypted) + 4 * One(flags.messagepack)
                              + 8 * One(flags.pathDictionary)
                              + 16 * One(s.authenticatedHeaders && t in {DATA, METADATA}) + 32 * One(Bound(s, t) > 0.0)
            && BigEndian(h[5..9]) == n && BigEndian(h[9..13]) == length
  {
    HeaderPlaces(t, BuildFlags(s, t, flags), n, length);
    FlagNumber(s, t, flags);
    BigEndianFour(U32(n));
    BigEndianFour(U32(length));
    ReadU32OfU32(n);
    ReadU32OfU32(length);
    hide U32, ReadU32, BigEndian, Header13, FlagByte, BuildFlags;
  }

  lemma Parts(h: seq<Byte>, c: seq<Byte>, body: seq<Byte>)
    requires |h| == 13 && |c| == 2
    ensures var p := h + c + body;
            && |p| == 15 + |body| && p[..13] == h && p[13..15] == c && p[15..] == body
            && p[..5] == h[..5] && p[5..9] == h[5..9] && p[9..13] == h[9..13]
  {
  }

  lemma CrcIsBigEndian(h: seq<Byte>)
    ensures BigEndian(CrcBytes(h)) == Crc16Value(h)
  {
    BigEndianTwo(CrcBytes(h));
  }

  lemma NoEpochBytes()
    ensures EpochBytes(0.0) == []
  {
  }

  /** A header and its checksum before any body of the announced length. */
  lemma HeaderIsLaid(s: Settings, t: PacketType, flags: Flags, sequence: int, body: seq<Byte>)
    requires |body| < TWO32
    ensures var h := Header13(t, BuildFlags(s, t, flags), ToUint32(sequence), |body|);
            HeaderIs(h + CrcBytes(h) + body, s, t, flags, sequence)
  {
    var h := Header13(t, BuildFlags(s, t, flags), ToUint32(sequence), |body|);
    HeaderBytes(s, t, flags, ToUint32(sequence), |body|);
    CrcIsBigEndian(h);
    hide Header13, CrcBytes, BigEndian, Crc16Value, BuildFlags, HasType, Bound;
    Parts(h, CrcBytes(h), body);
    var p := h + CrcBytes(h) + body;
    assert p[0] == p[..5][0] && p[1] == p[..5][1] && p[2] == p[..5][2] && p[3] == p[..5][3] && p[4] == p[..5][4];
  }

  lemma BoundIsBound(s: Settings, t: PacketType)
    ensures BoundEpoch(s, t) == Bound(s, t) && (IsTagged(s, t) <==> Tagged(s, t))
  {
  }

  lemma TaggedBody(mac: Mac, s: Settings, t: PacketType, payload: seq<Byte>, o: BuildOptions, h: seq<Byte>)
    requires Tagged(s, t) && |h| == 13
    ensures var body := payload + mac(BuildKey(s, o), s.stretchAsciiKey, MacInput(h, payload, BoundEpoch(s, t)));
            BodyIs(h + CrcBytes(h) + body, mac, s, t, payload, o)
  {
    BoundIsBound(s, t);
    if Bound(s, t) > 0.0 {
      EpochIsBigEndian(Bound(s, t));
    } else {
      NoEpochBytes();
    }
    hide CrcBytes, BigEndian, EpochBytes, Bound, BoundEpoch;
    var body := payload + mac(BuildKey(s, o), s.stretchAsciiKey, MacInput(h, payload, Bound(s, t)));
    Parts(h, CrcBytes(h), body);
    assert MacInput(h, payload, Bound(s, t)) == h + payload + EpochBytes(Bound(s, t));
  }

  /** Every packet that is built lays out its fields, payload and tag in this way. */
  lemma BuiltBytes(mac: Mac, s: Settings, t: PacketType, payload: seq<Byte>, flags: Flags, sequence: int, o: BuildOptions)
    requires BuildPacket(mac, s, t, payload, flags, sequence, o).Ok?
    ensures var p := BuildPacket(mac, s, t, payload, flags, sequence, o).value;
            |p| >= 15 && HeaderIs(p, s, t, flags, sequence) && BodyIs(p, mac, s, t, payload, o)
  {
    hide Header13, CrcBytes, HeaderIs, BuildFlags, BoundEpoch, MacInput, Bound;
    BoundIsBound(s, t);
    if Tagged(s, t) {
      BuiltIsTagged(mac, s, t, payload, flags, sequence, o);
      var h := Header13(t, BuildFlags(s, t, flags), ToUint32(sequence), |payload| + TAG_LENGTH);
      var body := payload + mac(BuildKey(s, o), s.stretchAsciiKey, MacInput(h, payload, BoundEpoch(s, t)));
      HeaderIsLaid(s, t, flags, sequence, body);
      TaggedBody(mac, s, t, payload, o, h);
    } else {
      var h := Header13(t, BuildFlags(s, t, flags), ToUint32(sequence), |payload|);
      assert payload + [] == payload;
      HeaderIsLaid(s, t, flags, sequence, payload);
      Parts(h, CrcBytes(h), payload);
    }
  }

  /** A packet is refused exactly for another version, for a tag without a key, or for its length, in that order. */
  lemma BuildFailsExactly(mac: Mac, s: Settings, t: PacketType, payload: seq<Byte>, flags: Flags, sequence: int, o: BuildOptions)
    ensures var r := BuildPacket(mac, s, t, payload, flags, sequence, o);
            if o.protocolVersion.Some? && o.protocolVersion.value != 3 then r == Err(UnsupportedVersion)
            else if Tagged(s, t) && o.secretKey == "" && s.secretKey == "" then r == Err(NoSecretKey)
            else if |payload| + (if Tagged(s, t) then 16 else 0) >= 0x1_0000_0000 then r == Err(LengthOutOfRange)
            else r.Ok?
  {
    hide Header13, CrcBytes, MacInput, BuildFlags;
  }

  // ------------------------------------------------------------------------- parsing

  /** What is wrong with the bytes themselves, in the order of the checks. */
  function Malformed(p: seq<Byte>): Option<ParseError> {
    if |p| < 15 then Some(TooSmall)
    else if p[0] != 0x53 || p[1] != 0x4b then Some(BadMagic)
    else if p[2] != 3 then Some(BadVersion)
    else if p[3] == 0 || p[3] > 8 then Some(UnknownType)
    else if BigEndian(p[13..15]) != Crc16Value(p[..13]) then Some(CrcMismatch)
    else if BigEndian(p[9..13]) != |p| - 15 then Some(LengthMismatch)
    else None
  }

  predicate IsData(p: seq<Byte>)
    requires |p| >= 15
  {
    p[3] == 1 || p[3] == 6
  }

  predicate Flag(p: seq<Byte>, weight: nat)
    requires |p| >= 15 && 0 < weight
  {
    p[4] as int / weight % 2 == 1
  }

  function Or<T>(o: Option<T>, own: T): T {
    if o.Some? then o.value else own
  }

  /** What is missing before a tag can be compared; HELLO need not name an epoch. */
  function Unauthentic(p: seq<Byte>, r: Settings, po: ParseOptions): Option<ParseError>
    requires |p| >= 15
  {
    var known := po.epoch.Some? && po.epoch.value.Finite? && po.epoch.value.r > 0.0;
    var insists := p[3] != 5 && Or(po.epochBoundAuth, r.epochBoundAuth);
    if IsData(p) && !Flag(p, 16) then Some(HeaderNotAuthenticated)
    else if !IsData(p) && |p| < 31 then Some(TagMissing)
    else if !Flag(p, 32) && insists then Some(EpochNotBound)
    else if Flag(p, 32) && !known then Some(NoPeerEpoch)
    else if |p| < 31 then Some(TagMissing)
    else if po.secretKey == "" && r.secretKey == "" then Some(ParserHasNoKey)
    else None
  }

  /** The tag at the end of the packet is the one over its first thirteen bytes, its payload and the expected epoch. */
  predicate TagFits(mac: Mac, p: seq<Byte>, r: Settings, po: ParseOptions)
    requires |p| >= 31
  {
    var payload := p[15..|p| - 16];
    var epoch := if Flag(p, 32) && po.epoch.Some? && po.epoch.value.Finite? then po.epoch.value.r else 0.0;
    mac(if po.secretKey != "" then po.secretKey else r.secretKey, Or(po.stretchAsciiKey, r.stretchAsciiKey),
        p[..13] + payload + EpochBytes(epoch)) == p[|p| - 16..]
  }

  lemma TypeIsKnown(b: Byte)
    ensures TypeOfByte(b) == None <==> b == 0 || b > 8
    ensures TypeOfByte(b).Some? ==> (IsControl(TypeOfByte(b).value) <==> b != 1 && b != 6) && (TypeOfByte(b).value.HELLO? <==> b == 5)
  {
  }

  /** Parsing up to the tag: every malformed packet is refused for its first fault, and every other one is read. */
  lemma FaultsAreFound(mac: Mac, r: Settings, p: seq<Byte>, po: ParseOptions)
    ensures Malformed(p).Some? ==> ParseHeader(mac, r, p, po) == Err(Malformed(p).value)
    ensures Malformed(p) == None ==>
              && |p| >= 15 && TypeOfByte(p[3]).Some?
              && var q := ParsedPacket(p[2], TypeOfByte(p[3]).value, FlagsOfByte(p[4]), BigEndian(p[5..9]), |p| - 15, p[15..]);
                 ParseHeader(mac, r, p, po) == match ParsePayload(mac, r, p[..13], q, po)
                                               case Err(e) => Err(e)
                                               case Ok(payload) => Ok(q.(payload := payload))
  {
    hide ParsePayload, FlagsOfByte, BigEndian, ReadU32, ReadU16, Crc16Value;
    if |p| >= 15 {
      TypeIsKnown(p[3]);
      BigEndianFour(p[5..9]);
      BigEndianFour(p[9..13]);
      BigEndianTwo(p[13..15]);
    }
  }

  lemma PayloadExactly(mac: Mac, r: Settings, p: seq<Byte>, po: ParseOptions)
    requires |p| >= 15 && TypeOfByte(p[3]).Some?
    ensures var q := ParsedPacket(p[2], TypeOfByte(p[3]).value, FlagsOfByte(p[4]), BigEndian(p[5..9]), |p| - 15, p[15..]);
            var result := ParsePayload(mac, r, p[..13], q, po);
            if IsData(p) && !Or(po.authenticatedHeaders, r.authenticatedHeaders) then result == Ok(p[15..])
            else if Unauthentic(p, r, po).Some? then result == Err(Unauthentic(p, r, po).value)
            else if !TagFits(mac, p, r, po) then result == Err(AuthenticationFailed)
            else result == Ok(p[15..|p| - 16])
  {
    TypeIsKnown(p[3]);
    NoEpochBytes();
    hide BigEndian, EpochBytes, TypeOfByte;
    if |p| >= 31 {
      assert p[15..][..|p| - 31] == p[15..|p| - 16] && p[15..][|p| - 31..] == p[|p| - 16..];
    }
  }

  /** Whether a well-formed packet is accepted: untagged data as it is, anything else if nothing is missing and its tag fits. */
  lemma AuthenticatedExactly(mac: Mac, r: Settings, p: seq<Byte>, po: ParseOptions)
    requires Malformed(p) == None
    ensures var result := ParseHeader(mac, r, p, po);
            if IsData(p) && !Or(po.authenticatedHeaders, r.authenticatedHeaders) then result.Ok? && result.value.payload == p[15..]
            else if Unauthentic(p, r, po).Some? then result == Err(Unauthentic(p, r, po).value)
            else if !TagFits(mac, p, r, po) then result == Err(AuthenticationFailed)
            else result.Ok? && result.value.payload == p[15..|p| - 16]
  {
    FaultsAreFound(mac, r, p, po);
    PayloadExactly(mac, r, p, po);
    hide BigEndian, ParseHeader, ParsePayload, TagFits, Unauthentic, FlagsOfByte, TypeOfByte;
  }

  /** What an accepted packet is read as, field by field. */
  lemma AcceptedFields(mac: Mac, r: Settings, p: seq<Byte>, po: ParseOptions)
    requires ParseHeader(mac, r, p, po).Ok?
    ensures var q := ParseHeader(mac, r, p, po).value;
            && Malformed(p) == None && HasType(p[3], q.packetType) && q.version == 3
            && q.sequence == BigEndian(p[5..9]) && q.payloadLength == |p| - 15
            && (q.flags.flags.compressed <==> Flag(p, 1)) && (q.flags.flags.encrypted <==> Flag(p, 2))
            && (q.flags.flags.messagepack <==> Flag(p, 4)) && (q.flags.flags.pathDictionary <==> Flag(p, 8))
            && (q.flags.authenticatedHeader <==> Flag(p, 16)) && (q.flags.epochBoundAuth <==> Flag(p, 32))
  {
    FaultsAreFound(mac, r, p, po);
    hide BigEndian, ParseHeader, ParsePayload, Crc16Value;
  }
}
