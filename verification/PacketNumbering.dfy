/** The two sequence counters of the builder over many calls, and the numbers that the receiver reads. */
module PacketNumbering {
  import opened Common
  import opened Bytes
  import opened Packet
  import opened PacketTheorems

  datatype Counters = Counters(data: int, meta: int)

  /** Control packets carry a number but take none. */
  datatype Call =
    | Data(payload: seq<Byte>, flags: Flags)
    | Metadata(payload: seq<Byte>, flags: Flags)
    | Control(packetType: PacketType, payload: seq<Byte>, options: BuildOptions)

  function Result(mac: Mac, s: Settings, n: Counters, c: Call): Common.Result<seq<Byte>, BuildError> {
    match c
    case Data(payload, flags) => BuildPacket(mac, s, DATA, payload, flags, n.data, NO_OPTIONS)
    case Metadata(payload, flags) => BuildPacket(mac, s, METADATA, payload, flags, n.meta, NO_OPTIONS)
    case Control(t, payload, o) => BuildPacket(mac, s, t, payload, NO_FLAGS, n.data, o)
  }

  function After(mac: Mac, s: Settings, n: Counters, c: Call): Counters {
    if Result(mac, s, n, c).Err? then n
    else
      match c
      case Data(_, _) => n.(data := ToUint32(n.data + 1))
      case Metadata(_, _) => n.(meta := ToUint32(n.meta + 1))
      case Control(_, _, _) => n
  }

  /** What one call of the builder answers and leaves. */
  predicate Answered(mac: Mac, s: Settings, before: Counters, c: Call, r: Common.Result<seq<Byte>, BuildError>, after: Counters) {
    r == Result(mac, s, before, c) && after == After(mac, s, before, c)
  }

  /** The data packets, or the metadata packets, that a run of calls produces. */
  function Built(mac: Mac, s: Settings, n: Counters, calls: seq<Call>, metadata: bool): seq<seq<Byte>>
    decreases |calls|
  {
    if calls == [] then []
    else
      var r := Result(mac, s, n, calls[0]);
      (if (if metadata then calls[0].Metadata? else calls[0].Data?) && r.Ok? then [r.value] else [])
      + Built(mac, s, After(mac, s, n, calls[0]), calls[1..], metadata)
  }

  lemma NextNumber(x: int, k: nat)
    ensures (ToUint32(x + 1) + k) % TWO32 == (x + (k + 1)) % TWO32
  {
  }

  /** Data and metadata carry no tag, or the receiver knows what epoch it covers. */
  ghost predicate TagsAgree(s: Settings, r: Settings, po: ParseOptions) {
    && (IsTagged(s, DATA) ==> EpochAgrees(s, DATA, r, po))
    && (IsTagged(s, METADATA) ==> EpochAgrees(s, METADATA, r, po))
  }

  lemma OneNumber(mac: Mac, s: Settings, n: Counters, c: Call, r: Settings, po: ParseOptions)
    requires c.Data? || c.Metadata?
    requires Result(mac, s, n, c).Ok? && SameSettings(s, NO_OPTIONS, r, po)
    requires TagsAgree(s, r, po)
    ensures var q := ParseHeader(mac, r, Result(mac, s, n, c).value, po);
            && q.Ok? && q.value.payload == c.payload
            && q.value.sequence == (if c.Data? then n.data else n.meta) % TWO32
  {
    hide BuildPacket, ParseHeader, SameSettings, EpochAgrees, IsTagged;
    var t := if c.Data? then DATA else METADATA;
    RoundTrip(mac, s, t, c.payload, c.flags, if c.Data? then n.data else n.meta, NO_OPTIONS, r, po);
  }

  /**
   * However data, metadata and control packets are interleaved and whichever calls are refused: a receiver with
   * agreeing settings reads from the k-th data packet the initial data number plus k, modulo 2^32, and from the k-th
   * metadata packet the initial metadata number plus k.
   */
  lemma {:induction false} NumbersAreConsecutive(mac: Mac, s: Settings, n: Counters, calls: seq<Call>, metadata: bool,
                                                 r: Settings, po: ParseOptions, k: nat)
    requires SameSettings(s, NO_OPTIONS, r, po) && TagsAgree(s, r, po)
    requires k < |Built(mac, s, n, calls, metadata)|
    ensures var q := ParseHeader(mac, r, Built(mac, s, n, calls, metadata)[k], po);
            q.Ok? && q.value.sequence == ((if metadata then n.meta else n.data) + k) % TWO32
    decreases |calls|
  {
    hide Result, ParseHeader, SameSettings, TagsAgree;
    var c := calls[0];
    var out := Result(mac, s, n, c);
    var rest := Built(mac, s, After(mac, s, n, c), calls[1..], metadata);
    if (if metadata then c.Metadata? else c.Data?) && out.Ok? {
      assert Built(mac, s, n, calls, metadata) == [out.value] + rest;
      if k == 0 {
        OneNumber(mac, s, n, c, r, po);
      } else {
        NumbersAreConsecutive(mac, s, After(mac, s, n, c), calls[1..], metadata, r, po, k - 1);
        NextNumber(if metadata then n.meta else n.data, k - 1);
      }
    } else {
      assert Built(mac, s, n, calls, metadata) == rest;
      NumbersAreConsecutive(mac, s, After(mac, s, n, c), calls[1..], metadata, r, po, k);
    }
  }
}
