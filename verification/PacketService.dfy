/** The builder as an object with two sequence counters, and the payload loops. */
module PacketService {
  import opened Common
  import opened Crc
  import opened Bytes
  import opened CrcTable
  import opened Packet
  import opened PacketNumbering

  class PacketBuilder {
    const mac: Mac
    const table: array<Bits>
    const secretKey: string
    const stretchAsciiKey: bool
    const authenticatedHeaders: bool
    const epochBoundAuth: bool
    var sequence: int
    var metaSequence: int
    var connectionEpoch: Number

    ghost predicate Valid()
      reads this, table
    {
      IsTable(table[..])
    }

    ghost function View(): Settings
      reads this
    {
      Settings(secretKey, stretchAsciiKey, authenticatedHeaders, epochBoundAuth, connectionEpoch)
    }

    constructor (mac: Mac, table: array<Bits>, secretKey: string, stretchAsciiKey: bool,
                 authenticatedHeaders: bool, epochBoundAuth: bool, initialSequence: int, connectionEpoch: Number)
      requires IsTable(table[..])
      ensures Valid() && this.mac == mac && this.table == table
      ensures View() == Settings(secretKey, stretchAsciiKey, authenticatedHeaders, epochBoundAuth, connectionEpoch)
      ensures sequence == initialSequence && metaSequence == 0
    {
      this.mac, this.table := mac, table;
      this.secretKey, this.stretchAsciiKey := secretKey, stretchAsciiKey;
      this.authenticatedHeaders, this.epochBoundAuth := authenticatedHeaders, epochBoundAuth;
      this.sequence, this.metaSequence := initialSequence, 0;
      this.connectionEpoch := connectionEpoch;
    }

    method SetConnectionEpoch(epoch: Number)
      modifies this
      ensures connectionEpoch == Finite(PositiveEpoch(epoch))
      ensures sequence == old(sequence) && metaSequence == old(metaSequence)
    {
      connectionEpoch := if epoch.Finite? && 0.0 < epoch.r then epoch else Finite(0.0);
    }

    /** Write the header in place, tag the payload over it, then add the checksum. */
    method Build(t: PacketType, payload: seq<Byte>, flags: Flags, seqNo: int, o: BuildOptions)
      returns (r: Result<seq<Byte>, BuildError>)
      requires Valid()
      ensures r == BuildPacket(mac, View(), t, payload, flags, seqNo, o)
    {
      if o.protocolVersion.Some? && o.protocolVersion.value != 3 {
        return Err(UnsupportedVersion);
      }
      var settings := Settings(secretKey, stretchAsciiKey, authenticatedHeaders, epochBoundAuth, connectionEpoch);
      var epoch := BoundEpoch(settings, t);
      var tagged := IsTagged(settings, t);
      var key := BuildKey(settings, o);
      if tagged && key == "" {
        return Err(NoSecretKey);
      }
      var length := |payload| + (if tagged then TAG_LENGTH else 0);
      if TWO32 <= length {
        return Err(LengthOutOfRange);
      }
      hide Header13, CrcBytes, MacInput, BuildFlags, BoundEpoch;
      var f := BuildFlags(settings, t, flags);
      var bytes := Assemble(t, f, ToUint32(seqNo), payload, tagged, key, epoch);
      r := Ok(bytes);
    }

    method Assemble(t: PacketType, f: FlagBits, seqNo: nat, payload: seq<Byte>, tagged: bool, key: string, epoch: real)
      returns (bytes: seq<Byte>)
      requires Valid() && seqNo < TWO32 && |payload| + (if tagged then TAG_LENGTH else 0) < TWO32
      ensures var h := Header13(t, f, seqNo, |payload| + (if tagged then TAG_LENGTH else 0));
              var tag := if tagged then mac(key, stretchAsciiKey, MacInput(h, payload, epoch)) else [];
              bytes == h + CrcBytes(h) + (payload + tag)
    {
      hide Header13, CrcBytes, MacInput;
      var length := |payload| + (if tagged then TAG_LENGTH else 0);
      var header := new Byte[15](_ => 0);
      FillHeader(header, t, f, seqNo, length);
      var tag: seq<Byte> := [];
      if tagged {
        tag := mac(key, stretchAsciiKey, MacInput(header[..COVERED], payload, epoch));
      }
      Seal(header);
      bytes := header[..] + (payload + tag);
    }

    method FillHeader(header: array<Byte>, t: PacketType, f: FlagBits, seqNo: nat, length: nat)
      requires header.Length == HEADER_SIZE && seqNo < TWO32 && length < TWO32
      modifies header
      ensures header[..COVERED] == Header13(t, f, seqNo, length)
    {
      hide U32, FlagByte, TypeByte;
      header[0], header[1], header[2] := MAGIC0, MAGIC1, PROTOCOL_VERSION;
      header[3] := TypeByte(t);
      header[4] := FlagByte(f);
      WriteBytes(header, 5, U32(seqNo));
      WriteBytes(header, 9, U32(length));
      var h := Header13(t, f, seqNo, length);
      assert header[..COVERED] == header[..5] + header[5..9] + header[9..13];
    }

    method WriteBytes(buffer: array<Byte>, offset: nat, bytes: seq<Byte>)
      requires |bytes| == 4 && offset + 4 <= buffer.Length
      modifies buffer
      ensures buffer[offset..offset + 4] == bytes
      ensures forall i :: 0 <= i < buffer.Length && !(offset <= i < offset + 4) ==> buffer[i] == old(buffer[i])
    {
      buffer[offset], buffer[offset + 1] := bytes[0], bytes[1];
      buffer[offset + 2], buffer[offset + 3] := bytes[2], bytes[3];
    }

    /** Write the checksum of the covered bytes behind them. */
    method Seal(header: array<Byte>)
      requires Valid() && header.Length == HEADER_SIZE && header as object != table
      modifies header
      ensures header[..] == old(header[..COVERED]) + CrcBytes(old(header[..COVERED]))
    {
      hide U16;
      ghost var h := header[..COVERED];
      var crc := Crc16(table, header[..COVERED]);
      var bytes := U16(CrcNumber(crc));
      assert CrcBytes(h) == bytes;
      header[13], header[14] := bytes[0], bytes[1];
      assert header[..COVERED] == h;
      assert header[13..] == bytes;
      assert header[..] == header[..COVERED] + header[13..];
    }

    /** A data packet takes the next data sequence number; a refused one takes none. */
    method BuildData(payload: seq<Byte>, flags: Flags) returns (r: Result<seq<Byte>, BuildError>)
      requires Valid()
      modifies this
      ensures Valid() && View() == old(View()) && metaSequence == old(metaSequence)
      ensures r == BuildPacket(mac, View(), DATA, payload, flags, old(sequence), NO_OPTIONS)
      ensures sequence == if r.Ok? then ToUint32(old(sequence) + 1) else old(sequence)
      ensures Answered(mac, View(), old(Counters(sequence, metaSequence)), Data(payload, flags),
                       r, Counters(sequence, metaSequence))
    {
      hide BuildPacket;
      r := Build(DATA, payload, flags, sequence, NO_OPTIONS);
      if r.Ok? {
        sequence := ToUint32(sequence + 1);
      }
    }

    /** Metadata draws from its own counter and leaves the data counter alone. */
    method BuildMetadata(payload: seq<Byte>, flags: Flags) returns (r: Result<seq<Byte>, BuildError>)
      requires Valid()
      modifies this
      ensures Valid() && View() == old(View()) && sequence == old(sequence)
      ensures r == BuildPacket(mac, View(), METADATA, payload, flags, old(metaSequence), NO_OPTIONS)
      ensures metaSequence == if r.Ok? then ToUint32(old(metaSequence) + 1) else old(metaSequence)
      ensures Answered(mac, View(), old(Counters(sequence, metaSequence)), Metadata(payload, flags),
                       r, Counters(sequence, metaSequence))
    {
      hide BuildPacket;
      r := Build(METADATA, payload, flags, metaSequence, NO_OPTIONS);
      if r.Ok? {
        metaSequence := ToUint32(metaSequence + 1);
      }
    }

    method BuildAck(acked: int, window: Option<int>, o: BuildOptions) returns (r: Result<seq<Byte>, BuildError>)
      requires Valid()
      ensures r == BuildPacket(mac, View(), ACK, AckPayload(acked, window), NO_FLAGS, sequence, o)
    {
      var payload := U32(ToUint32(acked));
      if window.Some? {
        payload := payload + U32(ToUint32(window.value));
      } else {
        assert payload + [] == payload;
      }
      r := Build(ACK, payload, NO_FLAGS, sequence, o);
    }

    method BuildNak(missing: seq<int>, o: BuildOptions) returns (r: Result<seq<Byte>, BuildError>)
      requires Valid()
      ensures r == BuildPacket(mac, View(), NAK, NakPayload(missing), NO_FLAGS, sequence, o)
    {
      var payload: seq<Byte> := [];
      for i := 0 to |missing|
        invariant payload == NakPayload(missing[..i])
      {
        NakPayloadSnoc(missing[..i], missing[i]);
        assert missing[..i + 1] == missing[..i] + [missing[i]];
        payload := payload + U32(ToUint32(missing[i]));
      }
      assert missing[..|missing|] == missing;
      r := Build(NAK, payload, NO_FLAGS, sequence, o);
    }
  }

  function CrcNumber(crc: Bits): (n: nat)
    requires |crc| == 16
    ensures n < 0x10000
  {
    BitsOfValue(crc);
    Powers();
    Value(crc)
  }

  lemma {:induction false} NakPayloadSnoc(missing: seq<int>, x: int)
    ensures NakPayload(missing + [x]) == NakPayload(missing) + U32(ToUint32(x))
  {
    if missing == [] {
      assert [x][1..] == [];
    } else {
      assert (missing + [x])[1..] == missing[1..] + [x];
      NakPayloadSnoc(missing[1..], x);
    }
  }

  lemma {:induction false} ReadAllSnoc(payload: seq<Byte>, word: seq<Byte>)
    requires |payload| % 4 == 0 && |word| == 4
    ensures ReadAll(payload + word) == ReadAll(payload) + [ReadU32(word)]
  {
    if payload == [] {
      assert payload + word == word && word[..4] == word && word[4..] == [];
    } else {
      assert (payload + word)[..4] == payload[..4];
      assert (payload + word)[4..] == payload[4..] + word;
      ReadAllSnoc(payload[4..], word);
    }
  }

  /** `None` when the payload is not a whole number of words. */
  method ParseNakPayload(payload: seq<Byte>) returns (r: Option<seq<nat>>)
    ensures r == if |payload| % 4 == 0 then Some(ReadAll(payload)) else None
  {
    if |payload| % 4 != 0 {
      return None;
    }
    var missing: seq<nat> := [];
    var i := 0;
    while i < |payload|
      invariant 0 <= i <= |payload| && i % 4 == 0
      invariant missing == ReadAll(payload[..i])
    {
      var word := payload[i..i + 4];
      ReadAllSnoc(payload[..i], word);
      assert payload[..i + 4] == payload[..i] + word;
      missing := missing + [ReadU32(word)];
      i := i + 4;
    }
    assert payload[..|payload|] == payload;
    r := Some(missing);
  }
}
