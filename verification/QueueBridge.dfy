/**
 The message codec and the queue router.

 A message is a 24-byte header and its payload.  The header holds the payload length in 16 bits, which is
 where the round trip ends: `RoundTripIff` says exactly for which messages it holds.
 */
module QueueBridge {
  import opened Options

  newtype byte = x: int | 0 <= x < 256

  type U64 = x: nat | x < 0x1_0000_0000_0000_0000
  type U32 = x: nat | x < 0x1_0000_0000

  datatype Priority = Low | Normal | High | Critical

  datatype Message = Message(
    sourceDeviceId: U64,
    timestampMs: U64,
    priority: Priority,
    payload: seq<byte>,
    routingKey: U32)

  const HEADER := 24
  const MAX_PAYLOAD := 0xFFFF

  // ---------------------------------------------------------------------------------------------
  // Little-endian numbers
  // ---------------------------------------------------------------------------------------------

  function Pow256(k: nat): nat {
    if k == 0 then 1 else 256 * Pow256(k - 1)
  }

  /** The low `k` bytes of `n`, lowest first. */
  function LittleEndian(n: nat, k: nat): (bytes: seq<byte>)
    ensures |bytes| == k
  {
    if k == 0 then [] else [(n % 256) as byte] + LittleEndian(n / 256, k - 1)
  }

  function FromLittleEndian(bytes: seq<byte>): nat {
    if bytes == [] then 0 else bytes[0] as nat + 256 * FromLittleEndian(bytes[1..])
  }

  lemma {:induction false} FromOfLittleEndian(n: nat, k: nat)
    requires n < Pow256(k)
    ensures FromLittleEndian(LittleEndian(n, k)) == n
  {
    if k > 0 {
      FromOfLittleEndian(n / 256, k - 1);
      assert LittleEndian(n, k)[1..] == LittleEndian(n / 256, k - 1);
    }
  }

  lemma LowByte(low: nat, high: nat)
    requires low < 256
    ensures (low + 256 * high) % 256 == low && (low + 256 * high) / 256 == high
  {
  }

  lemma {:induction false} LittleEndianOfFrom(bytes: seq<byte>)
    ensures FromLittleEndian(bytes) < Pow256(|bytes|)
    ensures LittleEndian(FromLittleEndian(bytes), |bytes|) == bytes
  {
    if bytes != [] {
      LittleEndianOfFrom(bytes[1..]);
      LowByte(bytes[0] as nat, FromLittleEndian(bytes[1..]));
      assert bytes == [bytes[0]] + bytes[1..];
    }
  }

  lemma Widths()
    ensures Pow256(2) == 0x1_0000 && Pow256(4) == 0x1_0000_0000 && Pow256(8) == 0x1_0000_0000_0000_0000
  {
    assert Pow256(4) == 256 * 256 * Pow256(2);
    assert Pow256(8) == 256 * 256 * 256 * 256 * Pow256(4);
  }

  /** What little-endian bytes stand for, spelled out for the widths in use. */
  lemma BytesStandFor(b: seq<byte>)
    ensures |b| == 2 ==> FromLittleEndian(b) == b[0] as nat + 0x100 * b[1] as nat
    ensures |b| == 4 ==>
              FromLittleEndian(b)
              == b[0] as nat + 0x100 * b[1] as nat + 0x1_0000 * b[2] as nat + 0x100_0000 * b[3] as nat
    ensures |b| == 8 ==>
              FromLittleEndian(b)
              == b[0] as nat + 0x100 * b[1] as nat + 0x1_0000 * b[2] as nat + 0x100_0000 * b[3] as nat
                 + 0x1_0000_0000 * b[4] as nat + 0x100_0000_0000 * b[5] as nat
                 + 0x1_0000_0000_0000 * b[6] as nat + 0x100_0000_0000_0000 * b[7] as nat
  {
    if |b| == 2 {
      TwoBytes(b);
    } else if |b| == 4 {
      TwoBytes(b[2..]);
      assert b[1..][1..] == b[2..];
    } else if |b| == 8 {
      TwoBytes(b[6..]);
      assert b[5..][1..] == b[6..] && b[4..][1..] == b[5..] && b[3..][1..] == b[4..];
      assert b[2..][1..] == b[3..] && b[1..][1..] == b[2..];
    }
  }

  lemma TwoBytes(b: seq<byte>)
    requires |b| == 2
    ensures FromLittleEndian(b) == b[0] as nat + 0x100 * b[1] as nat
  {
    assert b[1..][1..] == [] && b[1..][0] == b[1];
    assert FromLittleEndian(b[1..]) == b[1] as nat + 256 * FromLittleEndian(b[1..][1..]);
    assert FromLittleEndian([]) == 0;
  }

  // ---------------------------------------------------------------------------------------------
  // The codec
  // ---------------------------------------------------------------------------------------------

  function PriorityByte(p: Priority): byte {
    match p
    case Low => 0
    case Normal => 1
    case High => 2
    case Critical => 3
  }

  function PriorityOf(b: byte): Option<Priority> {
    if b == 0 then Some(Low)
    else if b == 1 then Some(Normal)
    else if b == 2 then Some(High)
    else if b == 3 then Some(Critical)
    else None
  }

  function Header(m: Message): (bytes: seq<byte>)
    ensures |bytes| == HEADER
  {
    LittleEndian(m.sourceDeviceId, 8)
    + LittleEndian(m.timestampMs, 8)
    + [PriorityByte(m.priority)]
    + LittleEndian(m.routingKey, 4)
    + LittleEndian(|m.payload| % 0x1_0000, 2)
    + [0]
  }

  function Encode(m: Message): seq<byte> {
    Header(m) + m.payload
  }

  /** The bytes as the gateway appends them, field by field. */
  method ToBytes(m: Message) returns (buf: seq<byte>)
    ensures buf == Encode(m)
  {
    buf := [];
    buf := buf + LittleEndian(m.sourceDeviceId, 8);
    buf := buf + LittleEndian(m.timestampMs, 8);
    buf := buf + [PriorityByte(m.priority)];
    buf := buf + LittleEndian(m.routingKey, 4);
    buf := buf + LittleEndian(|m.payload| % 0x1_0000, 2);
    buf := buf + [0];
    buf := buf + m.payload;
  }

  function FromBytes(buf: seq<byte>): Option<Message> {
    if |buf| < HEADER then None
    else
      var priority := PriorityOf(buf[16]);
      var len := FromLittleEndian(buf[21..23]);
      if priority.None? || |buf| < HEADER + len then None
      else
        LittleEndianOfFrom(buf[0..8]);
        LittleEndianOfFrom(buf[8..16]);
        LittleEndianOfFrom(buf[17..21]);
        Widths();
        Some(Message(
          FromLittleEndian(buf[0..8]),
          FromLittleEndian(buf[8..16]),
          priority.value,
          buf[HEADER..HEADER + len],
          FromLittleEndian(buf[17..21])))
  }

  /** Whatever follows, a header gives back its fields and the length modulo 2^16. */
  lemma HeaderFields(m: Message, rest: seq<byte>)
    ensures var buf := Header(m) + rest;
            && FromLittleEndian(buf[0..8]) == m.sourceDeviceId
            && FromLittleEndian(buf[8..16]) == m.timestampMs
            && PriorityOf(buf[16]) == Some(m.priority)
            && FromLittleEndian(buf[17..21]) == m.routingKey
            && FromLittleEndian(buf[21..23]) == |m.payload| % 0x1_0000
  {
    Widths();
    var buf := Header(m) + rest;
    assert buf[0..8] == LittleEndian(m.sourceDeviceId, 8);
    assert buf[8..16] == LittleEndian(m.timestampMs, 8);
    assert buf[17..21] == LittleEndian(m.routingKey, 4);
    assert buf[21..23] == LittleEndian(|m.payload| % 0x1_0000, 2);
    FromOfLittleEndian(m.sourceDeviceId, 8);
    FromOfLittleEndian(m.timestampMs, 8);
    FromOfLittleEndian(m.routingKey, 4);
    FromOfLittleEndian(|m.payload| % 0x1_0000, 2);
  }

  /** The encoding, byte for byte. */
  lemma Layout(m: Message)
    ensures var b := Encode(m);
            && |b| == 24 + |m.payload| && b[24..] == m.payload
            && b[0] as nat + 0x100 * b[1] as nat + 0x1_0000 * b[2] as nat + 0x100_0000 * b[3] as nat
               + 0x1_0000_0000 * b[4] as nat + 0x100_0000_0000 * b[5] as nat
               + 0x1_0000_0000_0000 * b[6] as nat + 0x100_0000_0000_0000 * b[7] as nat == m.sourceDeviceId
            && b[8] as nat + 0x100 * b[9] as nat + 0x1_0000 * b[10] as nat + 0x100_0000 * b[11] as nat
               + 0x1_0000_0000 * b[12] as nat + 0x100_0000_0000 * b[13] as nat
               + 0x1_0000_0000_0000 * b[14] as nat + 0x100_0000_0000_0000 * b[15] as nat == m.timestampMs
            && b[16] == (match m.priority case Low => 0 case Normal => 1 case High => 2 case Critical => 3)
            && b[17] as nat + 0x100 * b[18] as nat + 0x1_0000 * b[19] as nat + 0x100_0000 * b[20] as nat
               == m.routingKey
            && b[21] as nat + 0x100 * b[22] as nat == |m.payload| % 0x1_0000
            && b[23] == 0
  {
    hide LittleEndian, FromLittleEndian;
    var b := Encode(m);
    HeaderFields(m, m.payload);
    BytesStandFor(b[0..8]);
    BytesStandFor(b[8..16]);
    BytesStandFor(b[17..21]);
    BytesStandFor(b[21..23]);
  }

  /** Exactly which buffers are accepted. */
  lemma AcceptedIff(buf: seq<byte>)
    ensures FromBytes(buf).Some?
       <==> |buf| >= 24 && buf[16] <= 3 && |buf| >= 24 + buf[21] as nat + 0x100 * buf[22] as nat
  {
    hide FromLittleEndian;
    if |buf| >= 24 {
      BytesStandFor(buf[21..23]);
    }
  }

  /** What decoding an encoding gives, for every message and every trailing bytes. */
  lemma DecodeOfEncode(m: Message, rest: seq<byte>)
    ensures FromBytes(Encode(m) + rest) == Some(m.(payload := m.payload[..|m.payload| % 0x1_0000]))
  {
    var buf, len := Encode(m) + rest, |m.payload| % 0x1_0000;
    assert buf == Header(m) + (m.payload + rest);
    HeaderFields(m, m.payload + rest);
    hide LittleEndian, FromLittleEndian, Header;
    assert buf[HEADER..] == m.payload + rest;
    assert buf[HEADER..HEADER + len] == (m.payload + rest)[..len] == m.payload[..len];
  }

  /** The round trip holds exactly for payloads whose length fits the header. */
  lemma RoundTripIff(m: Message, rest: seq<byte>)
    ensures FromBytes(Encode(m) + rest) == Some(m) <==> |m.payload| <= MAX_PAYLOAD
  {
    DecodeOfEncode(m, rest);
    if |m.payload| <= MAX_PAYLOAD {
      assert m.payload[..|m.payload|] == m.payload;
    }
  }

  /** Re-encoding an accepted buffer gives its first `HEADER + len` bytes, with the padding byte cleared. */
  lemma EncodeOfDecode(buf: seq<byte>)
    requires FromBytes(buf).Some?
    ensures var m := FromBytes(buf).value;
            && HEADER + |m.payload| <= |buf|
            && Encode(m) == buf[..HEADER + |m.payload|][23 := 0]
  {
    hide LittleEndian, FromLittleEndian, Pow256;
    var m := FromBytes(buf).value;
    LittleEndianOfFrom(buf[0..8]);
    LittleEndianOfFrom(buf[8..16]);
    LittleEndianOfFrom(buf[17..21]);
    LittleEndianOfFrom(buf[21..23]);
    Widths();
    assert |m.payload| == FromLittleEndian(buf[21..23]) < 0x1_0000;
    assert PriorityByte(m.priority) == buf[16];
    HeaderOfBuffer(buf);
    assert Header(m) == buf[..HEADER][23 := 0];
    assert m.payload == buf[HEADER..HEADER + |m.payload|];
    HeaderAndPayload(buf, |m.payload|);
  }

  lemma HeaderAndPayload(buf: seq<byte>, len: nat)
    requires HEADER + len <= |buf|
    ensures buf[..HEADER + len][23 := 0] == buf[..HEADER][23 := 0] + buf[HEADER..HEADER + len]
  {
  }

  lemma HeaderOfBuffer(buf: seq<byte>)
    requires |buf| >= HEADER
    ensures buf[..HEADER][23 := 0] == buf[0..8] + buf[8..16] + [buf[16]] + buf[17..21] + buf[21..23] + [0]
  {
  }

  // ---------------------------------------------------------------------------------------------
  // Streams of messages
  // ---------------------------------------------------------------------------------------------

  function EncodeAll(ms: seq<Message>): seq<byte> {
    if ms == [] then [] else Encode(ms[0]) + EncodeAll(ms[1..])
  }

  /** Reads messages one after another until the bytes are used up. */
  function DecodeAll(buf: seq<byte>): Option<seq<Message>>
    decreases |buf|
  {
    if buf == [] then Some([])
    else
      var first := FromBytes(buf);
      if first.None? then None
      else
        var others := DecodeAll(buf[HEADER + |first.value.payload|..]);
        if others.None? then None else Some([first.value] + others.value)
  }

  lemma {:induction false} StreamRoundTrip(ms: seq<Message>)
    requires forall m :: m in ms ==> |m.payload| <= MAX_PAYLOAD
    ensures DecodeAll(EncodeAll(ms)) == Some(ms)
  {
    if ms != [] {
      var rest := EncodeAll(ms[1..]);
      RoundTripIff(ms[0], rest);
      StreamRoundTrip(ms[1..]);
      var buf := EncodeAll(ms);
      assert buf[HEADER + |ms[0].payload|..] == rest;
      assert ms == [ms[0]] + ms[1..];
    }
  }

  /** A stream has only one reading. */
  lemma StreamsDiffer(a: seq<Message>, b: seq<Message>)
    requires forall m :: m in a + b ==> |m.payload| <= MAX_PAYLOAD
    requires EncodeAll(a) == EncodeAll(b)
    ensures a == b
  {
    forall m | m in a || m in b
      ensures m in a + b
    {
    }
    StreamRoundTrip(a);
    StreamRoundTrip(b);
  }

  // ---------------------------------------------------------------------------------------------
  // The router
  // ---------------------------------------------------------------------------------------------

  ghost function TotalBytes(ms: seq<Message>): nat {
    if ms == [] then 0 else TotalBytes(ms[..|ms| - 1]) + |ms[|ms| - 1].payload|
  }

  /** One router, with the messages it has routed as a ghost. */
  class GatewayRouter {
    var messagesRouted: nat
    var bytesRouted: nat
    const queueCount: nat
    ghost var routed: seq<Message>

    /** The counters are the totals of the routed messages, and there is a queue. */
    ghost predicate Valid()
      reads this
    {
      queueCount > 0 && messagesRouted == |routed| && bytesRouted == TotalBytes(routed)
    }

    constructor (queueCount: U32)
      ensures Valid() && routed == [] && this.queueCount == (if queueCount == 0 then 1 else queueCount)
    {
      this.queueCount := if queueCount > 1 then queueCount else 1;
      messagesRouted, bytesRouted, routed := 0, 0, [];
    }

    method Account(m: Message)
      requires Valid()
      modifies this
      ensures Valid() && routed == old(routed) + [m]
      ensures messagesRouted == old(messagesRouted) + 1 && bytesRouted == old(bytesRouted) + |m.payload|
    {
      messagesRouted := messagesRouted + 1;
      bytesRouted := bytesRouted + |m.payload|;
      routed := routed + [m];
    }

    /** Messages with the same key share a queue. */
    method Route(m: Message) returns (queue: nat)
      requires Valid()
      modifies this
      ensures Valid() && routed == old(routed) + [m]
      ensures messagesRouted == old(messagesRouted) + 1 && bytesRouted == old(bytesRouted) + |m.payload|
      ensures queue == m.routingKey % queueCount < queueCount
    {
      Account(m);
      queue := m.routingKey % queueCount;
    }

    /** The same, except that critical messages all go to queue 0. */
    method RouteWithPriority(m: Message) returns (queue: nat)
      requires Valid()
      modifies this
      ensures Valid() && routed == old(routed) + [m]
      ensures messagesRouted == old(messagesRouted) + 1 && bytesRouted == old(bytesRouted) + |m.payload|
      ensures queue == (if m.priority == Critical then 0 else m.routingKey % queueCount) < queueCount
    {
      Account(m);
      if m.priority == Critical {
        queue := 0;
      } else {
        queue := m.routingKey % queueCount;
      }
    }
  }
}
