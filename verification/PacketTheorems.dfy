/** What building and parsing a packet promise each other. */
module PacketTheorems {
  import opened Common
  import opened Bytes
  import opened CrcTable
  import opened Packet

  lemma TypeRoundTrip(t: PacketType)
    ensures TypeOfByte(TypeByte(t)) == Some(t)
  {
  }

  lemma BitFacts(on: bool, weight: nat)
    ensures Bit(on, weight) == weight * Bit(on, 1) && Bit(on, 1) <= 1
    ensures Bit(on, 1) == 1 <==> on
  {
  }

  lemma Peel(bit: nat, rest: nat, n: nat)
    requires bit <= 1 && n == bit + 2 * rest
    ensures n % 2 == bit && n / 2 == rest
  {
  }

  lemma Halvings(b: nat)
    ensures b / 4 == b / 2 / 2 && b / 8 == b / 4 / 2 && b / 16 == b / 8 / 2 && b / 32 == b / 16 / 2
  {
  }

  /** The digits of a number written with six bits, lowest first. */
  predicate HasBits(n: nat, c: nat, e: nat, m: nat, d: nat, a: nat, x: nat) {
    n % 2 == c && n / 2 % 2 == e && n / 4 % 2 == m && n / 8 % 2 == d && n / 16 % 2 == a && n / 32 % 2 == x
  }

  lemma SixBits(c: nat, e: nat, m: nat, d: nat, a: nat, x: nat)
    requires c <= 1 && e <= 1 && m <= 1 && d <= 1 && a <= 1 && x <= 1
    ensures HasBits(c + 2 * e + 4 * m + 8 * d + 16 * a + 32 * x, c, e, m, d, a, x)
  {
    var n4 := a + 2 * x;
    var n3 := d + 2 * n4;
    var n2 := m + 2 * n3;
    var n1 := e + 2 * n2;
    var n := c + 2 * n1;
    Peel(c, n1, n);
    Peel(e, n2, n1);
    Peel(m, n3, n2);
    Peel(d, n4, n3);
    Peel(a, x, n4);
    Halvings(n);
  }

  lemma FlagsRoundTrip(f: FlagBits)
    ensures FlagsOfByte(FlagByte(f)) == f
  {
    var c, e := Bit(f.flags.compressed, 1), Bit(f.flags.encrypted, 1);
    var m, d := Bit(f.flags.messagepack, 1), Bit(f.flags.pathDictionary, 1);
    var a, x := Bit(f.authenticatedHeader, 1), Bit(f.epochBoundAuth, 1);
    BitFacts(f.flags.compressed, 1);
    BitFacts(f.flags.encrypted, 2);
    BitFacts(f.flags.messagepack, 4);
    BitFacts(f.flags.pathDictionary, 8);
    BitFacts(f.authenticatedHeader, 16);
    BitFacts(f.epochBoundAuth, 32);
    hide Bit;
    assert FlagByte(f) as int == c + 2 * e + 4 * m + 8 * d + 16 * a + 32 * x;
    hide FlagByte;
    SixBits(c, e, m, d, a, x);
    assert HasBits(FlagByte(f) as int, c, e, m, d, a, x);
  }

  lemma BitOfByte(b: Byte, weight: nat)
    requires 0 < weight
    ensures Bit(BitSet(b, weight), weight) == weight * (b as int / weight % 2)
  {
    assert b as int / weight % 2 == 0 || b as int / weight % 2 == 1;
  }

  lemma BinaryDigits(n: int)
    requires 0 <= n < 64
    ensures n == n % 2 + 2 * (n / 2 % 2) + 4 * (n / 4 % 2) + 8 * (n / 8 % 2) + 16 * (n / 16 % 2) + 32 * (n / 32 % 2)
  {
    var a := n / 2;
    var b := a / 2;
    var c := b / 2;
    var d := c / 2;
    assert n / 4 == b && n / 8 == c && n / 16 == d && n / 32 == d / 2;
  }

  lemma Shifted(q: nat, r: nat)
    ensures (64 * q + r) / 2 == 32 * q + r / 2 && (64 * q + r) / 4 == 16 * q + r / 4
  {
  }

  lemma LowBit(b: Byte, weight: nat)
    requires weight == 1 || weight == 2 || weight == 4
    ensures BitSet(b, weight) == BitSet(b % 64, weight)
  {
    assert b == 64 * (b / 64) + b % 64;
    Shifted(b / 64, b % 64);
  }

  lemma HigherBit(b: Byte, weight: nat)
    requires weight == 8 || weight == 16 || weight == 32
    ensures BitSet(b, weight) == BitSet(b % 64, weight)
  {
    assert b == 64 * (b / 64) + b % 64;
  }

  lemma LowBits(b: Byte)
    ensures FlagsOfByte(b) == FlagsOfByte(b % 64)
  {
    hide BitSet;
    LowBit(b, 1);
    LowBit(b, 2);
    LowBit(b, 4);
    HigherBit(b, 8);
    HigherBit(b, 16);
    HigherBit(b, 32);
  }

  /** The flags read off a byte are rebuilt to it, but for the two unused bits. */
  lemma FlagByteRoundTrip(b: Byte)
    ensures FlagByte(FlagsOfByte(b)) == b % 64
  {
    LowBits(b);
    var r := b % 64;
    hide BitSet, Bit, FlagsOfByte;
    FlagByteOfLow(r);
  }

  lemma FlagByteOfLow(b: Byte)
    requires b < 64
    ensures FlagByte(FlagsOfByte(b)) == b
  {
    hide BitSet, Bit;
    BitOfByte(b, 1);
    BitOfByte(b, 2);
    BitOfByte(b, 4);
    BitOfByte(b, 8);
    BitOfByte(b, 16);
    BitOfByte(b, 32);
    BinaryDigits(b);
  }

  lemma Header13Fields(t: PacketType, f: FlagBits, sequence: nat, length: nat)
    requires sequence < TWO32 && length < TWO32
    ensures var h := Header13(t, f, sequence, length);
            && h[0] == MAGIC0 && h[1] == MAGIC1 && h[2] == PROTOCOL_VERSION
            && TypeOfByte(h[3]) == Some(t) && FlagsOfByte(h[4]) == f
            && h[5..9] == U32(sequence) && h[9..13] == U32(length)
            && ReadU32(h[5..9]) == sequence && ReadU32(h[9..13]) == length
  {
    TypeRoundTrip(t);
    FlagsRoundTrip(f);
    ReadU32OfU32(sequence);
    ReadU32OfU32(length);
  }

  /** The header with another flag byte that differs in the two unused bits only. */
  function HeaderWith(t: PacketType, f: FlagBits, sequence: nat, length: nat, b: Byte): (h: seq<Byte>)
    requires sequence < TWO32 && length < TWO32
    ensures |h| == COVERED
  {
    Header13(t, f, sequence, length)[4 := b]
  }

  lemma FlagsOfSameLowBits(f: FlagBits, b: Byte)
    requires b % 64 == FlagByte(f)
    ensures FlagsOfByte(b) == f
  {
    hide FlagsOfByte, FlagByte;
    LowBits(b);
    FlagsRoundTrip(f);
  }

  /** Reading back a header and body that were put together with their checksum. */
  lemma AssembledPacket(t: PacketType, f: FlagBits, sequence: nat, body: seq<Byte>, b: Byte)
    requires sequence < TWO32 && |body| < TWO32 && b % 64 == FlagByte(f)
    ensures var h := HeaderWith(t, f, sequence, |body|, b);
            var p := h + CrcBytes(h) + body;
            && |p| == HEADER_SIZE + |body| && p[..COVERED] == h && p[HEADER_SIZE..] == body
            && ParseFields(p) == Ok(ParsedPacket(PROTOCOL_VERSION, t, f, sequence, |body|, body))
            && ValidateIntegrity(p, |body|) == None
  {
    var h := HeaderWith(t, f, sequence, |body|, b);
    var p := h + CrcBytes(h) + body;
    Header13Fields(t, f, sequence, |body|);
    FlagsOfSameLowBits(f, b);
    assert p[..COVERED] == h && p[HEADER_SIZE..] == body;
    assert p[5..9] == h[5..9] == Header13(t, f, sequence, |body|)[5..9];
    assert p[9..13] == h[9..13] == Header13(t, f, sequence, |body|)[9..13];
    assert p[13..15] == CrcBytes(h);
    hide Header13, FlagByte, FlagsOfByte, TypeOfByte, CrcBytes;
  }

  /** The receiver's key and header settings are the sender's. */
  ghost predicate SameSettings(s: Settings, bo: BuildOptions, r: Settings, po: ParseOptions) {
    && Key(r, po) == BuildKey(s, bo)
    && Override(po.stretchAsciiKey, r.stretchAsciiKey) == s.stretchAsciiKey
    && Override(po.authenticatedHeaders, r.authenticatedHeaders) == s.authenticatedHeaders
  }

  /**
   * The receiver can tell which epoch the tag covers: it was told the bound epoch, or none is
   * bound and it does not insist on one. HELLO never binds and is never asked to.
   */
  ghost predicate EpochAgrees(s: Settings, t: PacketType, r: Settings, po: ParseOptions) {
    var bound := BoundEpoch(s, t);
    if 0.0 < bound then po.epoch.Some? && PositiveEpoch(po.epoch.value) == bound
    else t.HELLO? || !Override(po.epochBoundAuth, r.epochBoundAuth)
  }

  function Key(r: Settings, po: ParseOptions): string {
    if po.secretKey != "" then po.secretKey else r.secretKey
  }

  function TagFor(mac: Mac, r: Settings, po: ParseOptions, h: seq<Byte>, payload: seq<Byte>, epoch: real): Tag {
    mac(Key(r, po), Override(po.stretchAsciiKey, r.stretchAsciiKey), MacInput(h, payload, epoch))
  }

  /** A body is accepted exactly when it is some payload followed by the right tag. */
  lemma StripTagExactly(mac: Mac, r: Settings, h: seq<Byte>, body: seq<Byte>, epoch: real, po: ParseOptions, payload: seq<Byte>)
    requires Key(r, po) != ""
    ensures StripTag(mac, r, h, body, epoch, po) == Ok(payload)
        <==> body == payload + TagFor(mac, r, po, h, payload, epoch)
  {
    if |body| >= TAG_LENGTH {
      assert body == body[..|body| - TAG_LENGTH] + body[|body| - TAG_LENGTH..];
    }
    if body == payload + TagFor(mac, r, po, h, payload, epoch) {
      assert body[..|body| - TAG_LENGTH] == payload;
    }
  }

  /** Parsing an assembled packet comes down to authenticating its body. */
  lemma ParseAssembledWith(mac: Mac, r: Settings, po: ParseOptions, t: PacketType, f: FlagBits, sequence: nat,
                           body: seq<Byte>, b: Byte)
    requires sequence < TWO32 && |body| < TWO32 && b % 64 == FlagByte(f)
    ensures var h := HeaderWith(t, f, sequence, |body|, b);
            var q := ParsedPacket(PROTOCOL_VERSION, t, f, sequence, |body|, body);
            ParseHeader(mac, r, h + CrcBytes(h) + body, po)
              == match ParsePayload(mac, r, h, q, po)
                 case Err(e) => Err(e)
                 case Ok(payload) => Ok(q.(payload := payload))
  {
    AssembledPacket(t, f, sequence, body, b);
    hide HeaderWith, FlagByte, CrcBytes, ParsePayload, ParseFields, ValidateIntegrity;
  }

  lemma ParseAssembled(mac: Mac, r: Settings, po: ParseOptions, t: PacketType, f: FlagBits, sequence: nat, body: seq<Byte>)
    requires sequence < TWO32 && |body| < TWO32
    ensures var h := Header13(t, f, sequence, |body|);
            var q := ParsedPacket(PROTOCOL_VERSION, t, f, sequence, |body|, body);
            ParseHeader(mac, r, h + CrcBytes(h) + body, po)
              == match ParsePayload(mac, r, h, q, po)
                 case Err(e) => Err(e)
                 case Ok(payload) => Ok(q.(payload := payload))
  {
    HeaderFlagByte(t, f, sequence, |body|);
    FlagByteIsSmall(f);
    assert HeaderWith(t, f, sequence, |body|, FlagByte(f)) == Header13(t, f, sequence, |body|);
    ParseAssembledWith(mac, r, po, t, f, sequence, body, FlagByte(f));
    hide HeaderWith, Header13, FlagByte, CrcBytes, ParsePayload, ParseHeader;
  }

  lemma FlagByteIsSmall(f: FlagBits)
    ensures FlagByte(f) < 64
  {
  }

  lemma TaggedBodyIsAccepted(mac: Mac, s: Settings, bo: BuildOptions, r: Settings, po: ParseOptions,
                             h: seq<Byte>, q: ParsedPacket, payload: seq<Byte>)
    requires SameSettings(s, bo, r, po) && IsTagged(s, q.packetType) && EpochAgrees(s, q.packetType, r, po)
    requires BuildKey(s, bo) != "" && q.flags == BuildFlags(s, q.packetType, q.flags.flags)
    requires q.payload == payload + TagFor(mac, r, po, h, payload, BoundEpoch(s, q.packetType))
    ensures ParsePayload(mac, r, h, q, po) == Ok(payload)
  {
    var hello := po.(epochBoundAuth := Some(false));
    StripTagExactly(mac, r, h, q.payload, BoundEpoch(s, q.packetType), po, payload);
    StripTagExactly(mac, r, h, q.payload, BoundEpoch(s, q.packetType), hello, payload);
    assert TagFor(mac, r, hello, h, payload, BoundEpoch(s, q.packetType))
        == TagFor(mac, r, po, h, payload, BoundEpoch(s, q.packetType));
  }

  lemma UntaggedBodyIsAccepted(mac: Mac, s: Settings, bo: BuildOptions, r: Settings, po: ParseOptions,
                               h: seq<Byte>, q: ParsedPacket)
    requires SameSettings(s, bo, r, po) && !IsTagged(s, q.packetType)
    ensures ParsePayload(mac, r, h, q, po) == Ok(q.payload)
  {
  }

  lemma FlagsOfBuilt(s: Settings, t: PacketType, flags: Flags)
    ensures BuildFlags(s, t, flags).flags == flags
    ensures BuildFlags(s, t, flags).epochBoundAuth == (0.0 < BoundEpoch(s, t))
  {
  }

  /**
   * Every packet that can be built parses back, under the same settings, to its type, flags,
   * sequence number modulo 2^32 and untagged payload. Data and metadata need the epoch settings to
   * agree only when their headers are authenticated.
   */
  lemma RoundTrip(mac: Mac, s: Settings, t: PacketType, payload: seq<Byte>, flags: Flags, sequence: int,
                  bo: BuildOptions, r: Settings, po: ParseOptions)
    requires BuildPacket(mac, s, t, payload, flags, sequence, bo).Ok?
    requires SameSettings(s, bo, r, po)
    requires IsTagged(s, t) ==> EpochAgrees(s, t, r, po)
    ensures var length := |payload| + (if IsTagged(s, t) then TAG_LENGTH else 0);
            ParseHeader(mac, r, BuildPacket(mac, s, t, payload, flags, sequence, bo).value, po)
              == Ok(ParsedPacket(PROTOCOL_VERSION, t, BuildFlags(s, t, flags), sequence % TWO32, length, payload))
  {
    hide Header13, CrcBytes, ParseHeader, ParsePayload, MacInput, BoundEpoch, BuildFlags, EpochAgrees;
    var f := BuildFlags(s, t, flags);
    FlagsOfBuilt(s, t, flags);
    if IsTagged(s, t) {
      var h := Header13(t, f, ToUint32(sequence), |payload| + TAG_LENGTH);
      var body := payload + TagFor(mac, r, po, h, payload, BoundEpoch(s, t));
      ParseAssembled(mac, r, po, t, f, ToUint32(sequence), body);
      TaggedBodyIsAccepted(mac, s, bo, r, po, h,
                           ParsedPacket(PROTOCOL_VERSION, t, f, ToUint32(sequence), |body|, body), payload);
    } else {
      assert payload + [] == payload;
      ParseAssembled(mac, r, po, t, f, ToUint32(sequence), payload);
      UntaggedBodyIsAccepted(mac, s, bo, r, po, Header13(t, f, ToUint32(sequence), |payload|),
                             ParsedPacket(PROTOCOL_VERSION, t, f, ToUint32(sequence), |payload|, payload));
    }
  }

  /** A HELLO that can be built is understood whatever the two sides know of each other's epochs. */
  lemma HelloIsUnderstood(mac: Mac, s: Settings, payload: seq<Byte>, flags: Flags, sequence: int,
                          bo: BuildOptions, r: Settings, po: ParseOptions)
    requires BuildPacket(mac, s, HELLO, payload, flags, sequence, bo).Ok? && SameSettings(s, bo, r, po)
    ensures var result := ParseHeader(mac, r, BuildPacket(mac, s, HELLO, payload, flags, sequence, bo).value, po);
            result.Ok? && result.value.packetType == HELLO && result.value.payload == payload
  {
    hide BuildPacket, ParseHeader, SameSettings;
    HelloAlwaysAgrees(s, r, po);
    RoundTrip(mac, s, HELLO, payload, flags, sequence, bo, r, po);
  }

  lemma HelloAlwaysAgrees(s: Settings, r: Settings, po: ParseOptions)
    ensures EpochAgrees(s, HELLO, r, po)
  {
  }

  /**
   * Where the epoch settings disagree a tagged packet is refused for that reason: no bound epoch
   * though the receiver insists, or a bound epoch the receiver does not know.
   */
  lemma EpochDisagreement(mac: Mac, s: Settings, t: PacketType, payload: seq<Byte>, flags: Flags, sequence: int,
                          bo: BuildOptions, r: Settings, po: ParseOptions)
    requires BuildPacket(mac, s, t, payload, flags, sequence, bo).Ok? && IsTagged(s, t)
    requires SameSettings(s, bo, r, po)
    ensures var result := ParseHeader(mac, r, BuildPacket(mac, s, t, payload, flags, sequence, bo).value, po);
            var known := if po.epoch.Some? then PositiveEpoch(po.epoch.value) else 0.0;
            var insists := Override(po.epochBoundAuth, r.epochBoundAuth);
            && ((BoundEpoch(s, t) == 0.0 && !t.HELLO? && insists) ==> result == Err(EpochNotBound))
            && ((0.0 < BoundEpoch(s, t) && known == 0.0) ==> result == Err(NoPeerEpoch))
  {
    hide Header13, CrcBytes, ParseHeader, MacInput, StripTag;
    var h := Header13(t, BuildFlags(s, t, flags), ToUint32(sequence), |payload| + TAG_LENGTH);
    var tag := mac(BuildKey(s, bo), s.stretchAsciiKey, MacInput(h, payload, BoundEpoch(s, t)));
    ParseAssembled(mac, r, po, t, BuildFlags(s, t, flags), ToUint32(sequence), payload + tag);
  }

  /**
   * A packet bound to one epoch and a receiver that expects another: refused as not authentic, unless the two tags
   * happen to be the same.
   */
  lemma DifferentEpochs(mac: Mac, s: Settings, t: PacketType, payload: seq<Byte>, flags: Flags, sequence: int,
                        bo: BuildOptions, r: Settings, po: ParseOptions)
    requires BuildPacket(mac, s, t, payload, flags, sequence, bo).Ok? && IsTagged(s, t)
    requires SameSettings(s, bo, r, po) && 0.0 < BoundEpoch(s, t)
    requires po.epoch.Some? && 0.0 < PositiveEpoch(po.epoch.value)
    ensures var result := ParseHeader(mac, r, BuildPacket(mac, s, t, payload, flags, sequence, bo).value, po);
            var h := Header13(t, BuildFlags(s, t, flags), ToUint32(sequence), |payload| + TAG_LENGTH);
            var bound, expected := MacInput(h, payload, BoundEpoch(s, t)), MacInput(h, payload, PositiveEpoch(po.epoch.value));
            && (bound == expected <==> BoundEpoch(s, t).Floor % TWO64 == PositiveEpoch(po.epoch.value).Floor % TWO64)
            && (result.Ok? <==> mac(BuildKey(s, bo), s.stretchAsciiKey, bound) == mac(BuildKey(s, bo), s.stretchAsciiKey, expected))
            && (result.Err? ==> result == Err(AuthenticationFailed))
  {
    hide Header13, CrcBytes, ParseHeader, MacInput, BoundEpoch, BuildFlags, PositiveEpoch, SameSettings, IsTagged, BuildKey;
    FlagsOfBuilt(s, t, flags);
    BuiltIsTagged(mac, s, t, payload, flags, sequence, bo);
    OtherEpoch(mac, s, t, payload, flags, sequence, bo, r, po);
    MacInputInjective(t, BuildFlags(s, t, flags), ToUint32(sequence), payload, BoundEpoch(s, t),
                      t, BuildFlags(s, t, flags), ToUint32(sequence), payload, PositiveEpoch(po.epoch.value));
  }

  /** What is built with a tag: a key was there, the body fits, and the tag covers header, payload and epoch. */
  lemma BuiltIsTagged(mac: Mac, s: Settings, t: PacketType, payload: seq<Byte>, flags: Flags, sequence: int, bo: BuildOptions)
    requires BuildPacket(mac, s, t, payload, flags, sequence, bo).Ok? && IsTagged(s, t)
    ensures BuildKey(s, bo) != "" && |payload| + TAG_LENGTH < TWO32
    ensures var h := Header13(t, BuildFlags(s, t, flags), ToUint32(sequence), |payload| + TAG_LENGTH);
            BuildPacket(mac, s, t, payload, flags, sequence, bo).value
              == h + CrcBytes(h) + (payload + mac(BuildKey(s, bo), s.stretchAsciiKey, MacInput(h, payload, BoundEpoch(s, t))))
  {
    hide Header13, CrcBytes, MacInput, BoundEpoch, BuildFlags;
  }

  lemma OtherEpoch(mac: Mac, s: Settings, t: PacketType, payload: seq<Byte>, flags: Flags, sequence: int,
                   bo: BuildOptions, r: Settings, po: ParseOptions)
    requires BuildPacket(mac, s, t, payload, flags, sequence, bo).Ok? && IsTagged(s, t)
    requires SameSettings(s, bo, r, po) && 0.0 < BoundEpoch(s, t)
    requires po.epoch.Some? && 0.0 < PositiveEpoch(po.epoch.value)
    ensures var result := ParseHeader(mac, r, BuildPacket(mac, s, t, payload, flags, sequence, bo).value, po);
            var h := Header13(t, BuildFlags(s, t, flags), ToUint32(sequence), |payload| + TAG_LENGTH);
            var bound, expected := MacInput(h, payload, BoundEpoch(s, t)), MacInput(h, payload, PositiveEpoch(po.epoch.value));
            && (result.Ok? <==> mac(BuildKey(s, bo), s.stretchAsciiKey, bound) == mac(BuildKey(s, bo), s.stretchAsciiKey, expected))
            && (result.Err? ==> result == Err(AuthenticationFailed))
  {
    hide Header13, CrcBytes, ParseHeader, ParsePayload, MacInput, BoundEpoch, BuildFlags, PositiveEpoch, BuildPacket,
         SameSettings, IsTagged, BuildKey;
    BuiltIsTagged(mac, s, t, payload, flags, sequence, bo);
    FlagsOfBuilt(s, t, flags);
    var f := BuildFlags(s, t, flags);
    var h := Header13(t, f, ToUint32(sequence), |payload| + TAG_LENGTH);
    var tag := mac(BuildKey(s, bo), s.stretchAsciiKey, MacInput(h, payload, BoundEpoch(s, t)));
    var body := payload + tag;
    ParseAssembled(mac, r, po, t, f, ToUint32(sequence), body);
    OtherEpochBody(mac, s, bo, r, po, h, ParsedPacket(PROTOCOL_VERSION, t, f, ToUint32(sequence), |body|, body), payload, tag);
  }

  lemma OtherEpochBody(mac: Mac, s: Settings, bo: BuildOptions, r: Settings, po: ParseOptions,
                       h: seq<Byte>, q: ParsedPacket, payload: seq<Byte>, tag: Tag)
    requires SameSettings(s, bo, r, po) && IsTagged(s, q.packetType) && BuildKey(s, bo) != ""
    requires q.flags == BuildFlags(s, q.packetType, q.flags.flags) && 0.0 < BoundEpoch(s, q.packetType)
    requires po.epoch.Some? && 0.0 < PositiveEpoch(po.epoch.value)
    requires q.payload == payload + tag
    ensures ParsePayload(mac, r, h, q, po)
         == if mac(BuildKey(s, bo), s.stretchAsciiKey, MacInput(h, payload, PositiveEpoch(po.epoch.value))) == tag
            then Ok(payload) else Err(AuthenticationFailed)
  {
    hide MacInput;
    assert q.payload[..|payload|] == payload && q.payload[|payload|..] == tag;
  }

  // --------------------------------------------------------- what the tag is bound to

  lemma EpochBytesEqual(e: real, e': real)
    requires (0.0 < e) == (0.0 < e')
    ensures EpochBytes(e) == EpochBytes(e') <==> (0.0 < e ==> e.Floor % TWO64 == e'.Floor % TWO64)
  {
    if 0.0 < e && EpochBytes(e) == EpochBytes(e') {
      U64Injective(e.Floor % TWO64, e'.Floor % TWO64);
    }
  }

  /** Same-length heads and equal texts: the rests are equal. */
  lemma SplitEqual(a: seq<Byte>, b: seq<Byte>, x: seq<Byte>, y: seq<Byte>)
    requires |a| == |b| && a + x == b + y
    ensures a == b && x == y
  {
    assert a == (a + x)[..|a|] == (b + y)[..|b|] == b;
    assert x == (a + x)[|a|..] == (b + y)[|b|..] == y;
  }

  lemma Header13Injective(t: PacketType, f: FlagBits, n: nat, len: nat, t': PacketType, f': FlagBits, n': nat, len': nat)
    requires n < TWO32 && len < TWO32 && n' < TWO32 && len' < TWO32
    requires Header13(t, f, n, len) == Header13(t', f', n', len')
    ensures t == t' && f == f' && n == n' && len == len'
  {
    Header13Fields(t, f, n, len);
    Header13Fields(t', f', n', len');
  }

  /**
   * Two tagged packets feed the HMAC the same bytes exactly when they have the same type, flags,
   * sequence number and payload and the same epoch once rounded down and reduced modulo 2^64: the
   * covered header holds the final length and says whether epoch bytes follow the payload.
   */
  lemma MacInputInjective(t: PacketType, f: FlagBits, n: nat, payload: seq<Byte>, e: real,
                          t': PacketType, f': FlagBits, n': nat, payload': seq<Byte>, e': real)
    requires n < TWO32 && |payload| + TAG_LENGTH < TWO32 && f.epochBoundAuth == (0.0 < e)
    requires n' < TWO32 && |payload'| + TAG_LENGTH < TWO32 && f'.epochBoundAuth == (0.0 < e')
    ensures MacInput(Header13(t, f, n, |payload| + TAG_LENGTH), payload, e)
              == MacInput(Header13(t', f', n', |payload'| + TAG_LENGTH), payload', e')
            <==> t == t' && f == f' && n == n' && payload == payload'
                 && (0.0 < e ==> e.Floor % TWO64 == e'.Floor % TWO64)
  {
    hide Header13, EpochBytes;
    var h, h' := Header13(t, f, n, |payload| + TAG_LENGTH), Header13(t', f', n', |payload'| + TAG_LENGTH);
    if MacInput(h, payload, e) == MacInput(h', payload', e') {
      assert MacInput(h, payload, e) == h + (payload + EpochBytes(e));
      assert MacInput(h', payload', e') == h' + (payload' + EpochBytes(e'));
      SplitEqual(h, h', payload + EpochBytes(e), payload' + EpochBytes(e'));
      Header13Injective(t, f, n, |payload| + TAG_LENGTH, t', f', n', |payload'| + TAG_LENGTH);
      SplitEqual(payload, payload', EpochBytes(e), EpochBytes(e'));
      EpochBytesEqual(e, e');
    } else if t == t' && f == f' && n == n' && payload == payload' {
      EpochBytesEqual(e, e');
    }
  }

  // ---------------------------------------------------------------- what is accepted

  /**
   * Every accepted packet is a header, its own checksum and a body of the announced length; the header is the one of
   * the parsed fields, but for the two unused bits of the flag byte.
   */
  lemma AcceptedShape(mac: Mac, r: Settings, p: seq<Byte>, po: ParseOptions)
    requires ParseHeader(mac, r, p, po).Ok?
    ensures var q := ParseHeader(mac, r, p, po).value;
            && q.payloadLength == |p| - HEADER_SIZE < TWO32 && q.sequence < TWO32
            && FlagByte(q.flags) == p[4] % 64
            && var h := HeaderWith(q.packetType, q.flags, q.sequence, q.payloadLength, p[4]);
               p == h + CrcBytes(h) + p[HEADER_SIZE..]
  {
    var q := ParseHeader(mac, r, p, po).value;
    FlagByteRoundTrip(p[4]);
    U32OfReadU32(p[5..9]);
    U32OfReadU32(p[9..13]);
    TypeOfByteRoundTrip(p[3]);
    var h := HeaderWith(q.packetType, q.flags, q.sequence, q.payloadLength, p[4]);
    hide FlagByte, FlagsOfByte, TypeByte;
    assert p[..COVERED] == h;
    assert U16(ReadU16(p[13..15])) == p[13..15];
    assert p == p[..13] + p[13..15] + p[15..];
  }

  lemma TypeOfByteRoundTrip(b: Byte)
    ensures TypeOfByte(b).Some? ==> TypeByte(TypeOfByte(b).value) == b
  {
  }

  /** An accepted payload came with the tag for the epoch that the settings resolve to. */
  lemma AcceptedPayload(mac: Mac, s: Settings, r: Settings, po: ParseOptions, h: seq<Byte>, q: ParsedPacket, payload: seq<Byte>)
    requires SameSettings(s, NO_OPTIONS, r, po) && IsTagged(s, q.packetType)
    requires q.flags == BuildFlags(s, q.packetType, q.flags.flags)
    requires q.flags.epochBoundAuth ==> po.epoch.Some? && po.epoch.value == s.epoch
    requires ParsePayload(mac, r, h, q, po) == Ok(payload)
    ensures BuildKey(s, NO_OPTIONS) != ""
    ensures q.payload == payload + TagFor(mac, r, po, h, payload, BoundEpoch(s, q.packetType))
  {
    var epoch := BoundEpoch(s, q.packetType);
    var o := if q.packetType.HELLO? then po.(epochBoundAuth := Some(false)) else po;
    assert ResolveAuthEpoch(r, q.flags, o) == Ok(epoch);
    assert StripTag(mac, r, h, q.payload, epoch, o) == Ok(payload);
    StripTagExactly(mac, r, h, q.payload, epoch, o, payload);
    assert TagFor(mac, r, o, h, payload, epoch) == TagFor(mac, r, po, h, payload, epoch);
  }

  lemma BuiltFlagByte(mac: Mac, s: Settings, t: PacketType, payload: seq<Byte>, flags: Flags, sequence: int, o: BuildOptions)
    requires BuildPacket(mac, s, t, payload, flags, sequence, o).Ok?
    ensures var p := BuildPacket(mac, s, t, payload, flags, sequence, o).value;
            |p| >= HEADER_SIZE && p[4] == FlagByte(BuildFlags(s, t, flags)) < 64
  {
    hide MacInput, CrcBytes, BuildFlags;
    var f := BuildFlags(s, t, flags);
    var length := |payload| + (if IsTagged(s, t) then TAG_LENGTH else 0);
    var h := Header13(t, f, ToUint32(sequence), length);
    assert h[4] == FlagByte(f);
    assert BuildPacket(mac, s, t, payload, flags, sequence, o).value[..COVERED] == h;
  }

  /**
   * The other direction of the round trip: a packet accepted with its tag checked, with flags that the builder sets
   * for these settings, is byte for byte what the builder produces from the parsed fields, exactly if the two unused
   * bits of its flag byte are clear.
   */
  lemma AcceptedIsBuilt(mac: Mac, r: Settings, p: seq<Byte>, po: ParseOptions, s: Settings)
    requires ParseHeader(mac, r, p, po).Ok?
    requires var q := ParseHeader(mac, r, p, po).value;
             && IsTagged(s, q.packetType)
             && SameSettings(s, NO_OPTIONS, r, po)
             && q.flags == BuildFlags(s, q.packetType, q.flags.flags)
             && (q.flags.epochBoundAuth ==> po.epoch.Some? && po.epoch.value == s.epoch)
    ensures var q := ParseHeader(mac, r, p, po).value;
            BuildPacket(mac, s, q.packetType, q.payload, q.flags.flags, q.sequence, NO_OPTIONS) == Ok(p) <==> p[4] < 64
  {
    hide Header13, CrcBytes, MacInput, BoundEpoch, BuildFlags, ParsePayload, ValidateIntegrity, FlagByte, FlagsOfByte;
    var q := ParseHeader(mac, r, p, po).value;
    AcceptedShape(mac, r, p, po);
    var built := BuildPacket(mac, s, q.packetType, q.payload, q.flags.flags, q.sequence, NO_OPTIONS);
    if built == Ok(p) {
      BuiltFlagByte(mac, s, q.packetType, q.payload, q.flags.flags, q.sequence, NO_OPTIONS);
    } else if p[4] < 64 {
      var h := Header13(q.packetType, q.flags, q.sequence, q.payloadLength);
      HeaderFlagByte(q.packetType, q.flags, q.sequence, q.payloadLength);
      assert h[4 := p[4]] == h;
      assert p[..COVERED] == h;
      AcceptedPayload(mac, s, r, po, h, q.(payload := p[HEADER_SIZE..]), q.payload);
    }
  }

  /**
   * For every tagged packet that can be built, the one that sets the first unused flag bit as well, with tag and
   * checksum made for it, is accepted to the same fields and is not a packet that the builder makes.
   */
  lemma UnusedBitIsAccepted(mac: Mac, s: Settings, t: PacketType, payload: seq<Byte>, flags: Flags, sequence: int,
                            r: Settings, po: ParseOptions)
    requires BuildPacket(mac, s, t, payload, flags, sequence, NO_OPTIONS).Ok?
    requires SameSettings(s, NO_OPTIONS, r, po) && IsTagged(s, t) && EpochAgrees(s, t, r, po)
    ensures |payload| + TAG_LENGTH < TWO32
    ensures var f := BuildFlags(s, t, flags);
            var h := HeaderWith(t, f, ToUint32(sequence), |payload| + TAG_LENGTH, FlagByte(f) + 64);
            var p := h + CrcBytes(h)
                     + (payload + mac(BuildKey(s, NO_OPTIONS), s.stretchAsciiKey, MacInput(h, payload, BoundEpoch(s, t))));
            && ParseHeader(mac, r, p, po)
                 == Ok(ParsedPacket(PROTOCOL_VERSION, t, f, sequence % TWO32, |payload| + TAG_LENGTH, payload))
            && BuildPacket(mac, s, t, payload, flags, sequence, NO_OPTIONS) != Ok(p)
  {
    hide HeaderWith, Header13, FlagByte, CrcBytes, ParseHeader, MacInput, BoundEpoch, BuildFlags, EpochAgrees, SameSettings,
         IsTagged, BuildKey, BuildPacket;
    BuiltIsTagged(mac, s, t, payload, flags, sequence, NO_OPTIONS);
    BuiltFlagByte(mac, s, t, payload, flags, sequence, NO_OPTIONS);
    var f, n := BuildFlags(s, t, flags), ToUint32(sequence);
    var b: Byte := FlagByte(f) + 64;
    TaggedIsAccepted(mac, s, t, payload, flags, n, r, po, b);
    var h := HeaderWith(t, f, n, |payload| + TAG_LENGTH, b);
    HeaderWithByte(t, f, n, |payload| + TAG_LENGTH, b);
    var body := payload + mac(BuildKey(s, NO_OPTIONS), s.stretchAsciiKey, MacInput(h, payload, BoundEpoch(s, t)));
    assert (h + CrcBytes(h) + body)[4] == h[4];
  }

  lemma HeaderWithByte(t: PacketType, f: FlagBits, n: nat, length: nat, b: Byte)
    requires n < TWO32 && length < TWO32
    ensures HeaderWith(t, f, n, length, b)[4] == b
  {
  }

  /** A header with any value of the unused bits, the right tag and the right checksum are accepted. */
  lemma TaggedIsAccepted(mac: Mac, s: Settings, t: PacketType, payload: seq<Byte>, flags: Flags, n: nat,
                         r: Settings, po: ParseOptions, b: Byte)
    requires n < TWO32 && |payload| + TAG_LENGTH < TWO32 && BuildKey(s, NO_OPTIONS) != ""
    requires SameSettings(s, NO_OPTIONS, r, po) && IsTagged(s, t) && EpochAgrees(s, t, r, po)
    requires b % 64 == FlagByte(BuildFlags(s, t, flags))
    ensures var f := BuildFlags(s, t, flags);
            var h := HeaderWith(t, f, n, |payload| + TAG_LENGTH, b);
            var body := payload + mac(BuildKey(s, NO_OPTIONS), s.stretchAsciiKey, MacInput(h, payload, BoundEpoch(s, t)));
            ParseHeader(mac, r, h + CrcBytes(h) + body, po)
              == Ok(ParsedPacket(PROTOCOL_VERSION, t, f, n, |payload| + TAG_LENGTH, payload))
  {
    hide HeaderWith, FlagByte, CrcBytes, ParseHeader, ParsePayload, MacInput, BoundEpoch, BuildFlags, EpochAgrees,
         SameSettings, IsTagged, BuildKey, TagFor;
    FlagsOfBuilt(s, t, flags);
    var f := BuildFlags(s, t, flags);
    var h := HeaderWith(t, f, n, |payload| + TAG_LENGTH, b);
    TagIsTheSenders(mac, s, r, po, h, payload, BoundEpoch(s, t));
    var body := payload + TagFor(mac, r, po, h, payload, BoundEpoch(s, t));
    ParseAssembledWith(mac, r, po, t, f, n, body, b);
    TaggedBodyIsAccepted(mac, s, NO_OPTIONS, r, po, h, ParsedPacket(PROTOCOL_VERSION, t, f, n, |body|, body), payload);
  }

  lemma TagIsTheSenders(mac: Mac, s: Settings, r: Settings, po: ParseOptions, h: seq<Byte>, payload: seq<Byte>, epoch: real)
    requires SameSettings(s, NO_OPTIONS, r, po)
    ensures TagFor(mac, r, po, h, payload, epoch) == mac(BuildKey(s, NO_OPTIONS), s.stretchAsciiKey, MacInput(h, payload, epoch))
  {
    hide MacInput;
  }

  lemma HeaderFlagByte(t: PacketType, f: FlagBits, n: nat, length: nat)
    requires n < TWO32 && length < TWO32
    ensures Header13(t, f, n, length)[4] == FlagByte(f)
  {
  }

  /** Change at most two adjacent bytes among the thirteen covered ones: an accepted packet is no longer accepted. */
  lemma CorruptedHeaderIsRejected(mac: Mac, r: Settings, p: seq<Byte>, po: ParseOptions, i: nat, x: Byte, y: Byte)
    requires ParseHeader(mac, r, p, po).Ok? && i + 1 < COVERED
    requires p[i := x][i + 1 := y] != p
    ensures ParseHeader(mac, r, p[i := x][i + 1 := y], po).Err?
  {
    var p' := p[i := x][i + 1 := y];
    var before, after := p[..i], p[i + 2..COVERED];
    assert p[..COVERED] == before + p[i..i + 2] + after;
    assert p'[..COVERED] == before + [x, y] + after;
    assert p[i..i + 2] == [p[i], p[i + 1]];
    AdjacentBytesAreNoticed(before, p[i..i + 2], [x, y], after);
    assert p'[13..15] == p[13..15];
  }

  // ---------------------------------------------------------------- ACK and NAK payloads

  /** A NAK payload decodes to the sequence numbers modulo 2^32, in order. */
  lemma {:induction false} NakRoundTrip(missing: seq<int>)
    ensures |ReadAll(NakPayload(missing))| == |missing|
    ensures forall i :: 0 <= i < |missing| ==> ReadAll(NakPayload(missing))[i] == missing[i] % TWO32
  {
    if missing == [] {
    } else {
      NakRoundTrip(missing[1..]);
      ReadU32OfU32(ToUint32(missing[0]));
      var p := NakPayload(missing);
      assert p[..4] == U32(ToUint32(missing[0])) && p[4..] == NakPayload(missing[1..]);
    }
  }

  /** Decoding and encoding again gives back every payload of whole words. */
  lemma {:induction false} NakPayloadRoundTrip(payload: seq<Byte>)
    requires |payload| % 4 == 0
    ensures NakPayload(ReadAll(payload)) == payload
  {
    if payload == [] {
    } else {
      U32OfReadU32(payload[..4]);
      NakPayloadRoundTrip(payload[4..]);
      assert ReadAll(payload)[1..] == ReadAll(payload[4..]);
      assert payload == payload[..4] + payload[4..];
    }
  }

  /** An ACK payload decodes to the sequence number and, when sent, the window, modulo 2^32. */
  lemma AckRoundTrip(acked: int, window: Option<int>)
    ensures ParseAck(AckPayload(acked, window))
         == Some((acked % TWO32, if window.Some? then Some(window.value % TWO32) else None))
  {
    var p := AckPayload(acked, window);
    ReadU32OfU32(ToUint32(acked));
    assert p[..4] == U32(ToUint32(acked));
    if window.Some? {
      ReadU32OfU32(ToUint32(window.value));
      assert p[4..8] == U32(ToUint32(window.value));
    }
  }
}
