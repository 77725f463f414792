/** Ethernet framing of the CSMA device on bytes: what AddHeader writes and what Receive reads back. */
module Frames {
  import opened Wrappers
  import opened Arithmetic

  type uint16 = x: int | 0 <= x < 0x1_0000
  type Bytes = seq<byte>
  type Mac48 = a: Bytes | |a| == 6 witness [0, 0, 0, 0, 0, 0]
  type Fcs = f: Bytes | |f| == 4 witness [0, 0, 0, 0]

  datatype EncapsulationMode = ILLEGAL | DIX | LLC

  datatype PacketType = PACKET_HOST | PACKET_BROADCAST | PACKET_MULTICAST | PACKET_OTHERHOST

  /** Assertions and fatal errors of the framing code; ShortPacket is a header read past the packet's end. */
  datatype Fault = IllegalMode | MtuExceeded | ShortPacket | LengthBeyondPacket | PadTooLong

  /** The node-wide checksum switch, with the checksum itself left open. */
  datatype Checksum = Checksum(enabled: bool, crc: Bytes -> Fcs)

  datatype Reception =
    | Ignored
    | PhyRxDrop
    | Delivered(payload: Bytes, protocol: uint16, source: Mac48, destination: Mac48, packetType: PacketType)

  const MIN_PAYLOAD := 46
  const MAX_LENGTH_FIELD := 1500
  const BROADCAST: Mac48 := [255, 255, 255, 255, 255, 255]
  const NO_FCS: Fcs := [0, 0, 0, 0]

  function U16(v: uint16): Bytes { [v / 256, v % 256] }

  function ReadU16(b: Bytes): uint16
    requires |b| == 2
  {
    var high: int, low: int := b[0], b[1];
    high * 256 + low
  }

  function Zeros(n: nat): Bytes { seq<byte>(n, _ => 0) }

  function PadLength(size: nat): nat { if size < MIN_PAYLOAD then MIN_PAYLOAD - size else 0 }

  function Padded(b: Bytes): Bytes { b + Zeros(PadLength(|b|)) }

  /** LLC and SNAP headers, eight bytes, the last two carrying the protocol. */
  function LlcSnap(protocol: uint16): Bytes { [0xAA, 0xAA, 0x03, 0, 0, 0] + U16(protocol) }

  function EthernetHeader(source: Mac48, destination: Mac48, lengthType: uint16): Bytes {
    destination + source + U16(lengthType)
  }

  function CalcFcs(sum: Checksum, b: Bytes): Fcs {
    if sum.enabled then sum.crc(b) else NO_FCS
  }

  predicate CheckFcs(sum: Checksum, b: Bytes, fcs: Fcs) {
    !sum.enabled || sum.crc(b) == fcs
  }

  function Framed(sum: Checksum, source: Mac48, destination: Mac48, lengthType: uint16, body: Bytes): Bytes {
    var covered := EthernetHeader(source, destination, lengthType) + body;
    covered + CalcFcs(sum, covered)
  }

  /** The frame AddHeader turns the packet into. */
  function AddHeader(mode: EncapsulationMode, mtu: uint16, sum: Checksum,
                     source: Mac48, destination: Mac48, protocol: uint16, packet: Bytes): Result<Bytes, Fault>
  {
    match mode
    case DIX =>
      Success(Framed(sum, source, destination, protocol, Padded(packet)))
    case LLC =>
      var body := LlcSnap(protocol) + packet;
      :- Check(|Padded(body)| <= mtu, MtuExceeded);
      Success(Framed(sum, source, destination, |body| % 0x1_0000, Padded(body)))
    case ILLEGAL =>
      Failure(IllegalMode)
  }

  function Classify(own: Mac48, destination: Mac48): PacketType {
    if destination == BROADCAST then PACKET_BROADCAST
    else if destination[0] % 2 == 1 then PACKET_MULTICAST
    else if destination == own then PACKET_HOST
    else PACKET_OTHERHOST
  }

  /** Length or type interpretation of the body: the payload and the protocol number. */
  function Interpret(lengthType: uint16, body: Bytes): Result<(Bytes, uint16), Fault> {
    if lengthType <= MAX_LENGTH_FIELD then
      :- Check(|body| >= lengthType, LengthBeyondPacket);
      :- Check(|body| - lengthType <= MIN_PAYLOAD, PadTooLong);
      var trimmed := body[..lengthType];
      :- Check(|trimmed| >= 8, ShortPacket);
      Success((trimmed[8..], ReadU16(trimmed[6..8])))
    else
      Success((body, lengthType))
  }

  /** What Receive makes of a frame; `corrupt` is the verdict of the receive error model. */
  function Receive(own: Mac48, enabled: bool, sum: Checksum, fromSelf: bool, corrupt: bool, frame: Bytes)
    : Result<Reception, Fault>
  {
    if fromSelf then Success(Ignored)
    else if !enabled || corrupt then Success(PhyRxDrop)
    else
      :- Check(|frame| >= 4, ShortPacket);
      var covered := frame[..|frame| - 4];
      var fcs: Fcs := frame[|frame| - 4..];
      if !CheckFcs(sum, covered, fcs) then Success(PhyRxDrop)
      else
        :- Check(|covered| >= 14, ShortPacket);
        var destination: Mac48 := covered[0..6];
        var source: Mac48 := covered[6..12];
        var (payload, protocol) :- Interpret(ReadU16(covered[12..14]), covered[14..]);
        Success(Delivered(payload, protocol, source, destination, Classify(own, destination)))
  }

  lemma SliceOfPrefix(b: Bytes, n: nat, i: nat, j: nat)
    requires i <= j <= n <= |b|
    ensures b[..n][i..j] == b[i..j]
  {
  }

  /** Receive undoes Framed: what is left is the interpretation of the body. */
  lemma ReceiveFramed(own: Mac48, sum: Checksum, source: Mac48, destination: Mac48, lengthType: uint16, body: Bytes)
    ensures Receive(own, true, sum, false, false, Framed(sum, source, destination, lengthType, body))
         == match Interpret(lengthType, body)
            case Failure(fault) => Failure(fault)
            case Success(read) =>
              Success(Delivered(read.0, read.1, source, destination, Classify(own, destination)))
  {
    var covered := EthernetHeader(source, destination, lengthType) + body;
    var frame := Framed(sum, source, destination, lengthType, body);
    assert frame[..|frame| - 4] == covered;
    assert frame[|frame| - 4..] == CalcFcs(sum, covered);
    assert covered[0..6] == destination;
    assert covered[6..12] == source;
    assert covered[12..14] == U16(lengthType);
    assert covered[14..] == body;
  }

  // ---------- the layout of a frame, byte by byte ----------

  /** Destination, source, length or type with the high byte first, body, and four bytes of checksum over all that
      (section 3 of IEEE Std 802.3). */
  lemma FrameLayout(sum: Checksum, source: Mac48, destination: Mac48, lengthType: uint16, body: Bytes)
    ensures var frame := Framed(sum, source, destination, lengthType, body);
            && |frame| == |body| + 18
            && frame[0..6] == destination && frame[6..12] == source
            && frame[12] as int * 256 + frame[13] as int == lengthType
            && frame[14..|frame| - 4] == body
            && frame[|frame| - 4..] == (if sum.enabled then sum.crc(frame[..|frame| - 4]) else [0, 0, 0, 0])
  {
    var header := EthernetHeader(source, destination, lengthType);
    var frame := Framed(sum, source, destination, lengthType, body);
    assert frame[..|frame| - 4] == header + body;
    assert frame[|frame| - 4..] == CalcFcs(sum, header + body);
    assert header[0..6] == destination && header[6..12] == source;
    assert frame[0..6] == header[0..6] && frame[6..12] == header[6..12];
    assert frame[12] == header[12] == lengthType / 256 && frame[13] == header[13] == lengthType % 256;
  }

  /** Padding goes up to 46 bytes, with zeros behind what is there. */
  lemma PaddedBytes(b: Bytes)
    ensures |Padded(b)| == if |b| < 46 then 46 else |b|
    ensures forall k :: 0 <= k < |Padded(b)| ==> Padded(b)[k] == if k < |b| then b[k] else 0
  {
  }

  /** A frame with the type interpretation: the protocol stands in the type field, and the packet is padded to at
      least 46 bytes, 64 with header and checksum. The MTU plays no part. */
  lemma DixFrame(mtu: uint16, sum: Checksum, source: Mac48, destination: Mac48, protocol: uint16, packet: Bytes)
    ensures AddHeader(DIX, mtu, sum, source, destination, protocol, packet).Success?
    ensures var frame := AddHeader(DIX, mtu, sum, source, destination, protocol, packet).value;
            && |frame| == (if |packet| < 46 then 64 else |packet| + 18)
            && frame[0..6] == destination && frame[6..12] == source
            && frame[12] as int * 256 + frame[13] as int == protocol
            && (forall k :: 14 <= k < |frame| - 4 ==> frame[k] == if k < 14 + |packet| then packet[k - 14] else 0)
            && frame[|frame| - 4..] == (if sum.enabled then sum.crc(frame[..|frame| - 4]) else [0, 0, 0, 0])
  {
    FrameLayout(sum, source, destination, protocol, Padded(packet));
    PaddedBytes(packet);
    var frame := Framed(sum, source, destination, protocol, Padded(packet));
    assert forall k :: 14 <= k < |frame| - 4 ==> frame[k] == frame[14..|frame| - 4][k - 14];
  }

  /** A frame with the length interpretation: the length field counts packet and LLC/SNAP header, which is the bytes
      AA AA 03 00 00 00 and the protocol; it is built if and only if what is padded to at least 46 bytes fits the MTU. */
  lemma LlcFrame(mtu: uint16, sum: Checksum, source: Mac48, destination: Mac48, protocol: uint16, packet: Bytes)
    ensures AddHeader(LLC, mtu, sum, source, destination, protocol, packet).Success?
        <==> (if |packet| + 8 < 46 then 46 else |packet| + 8) <= mtu
    ensures AddHeader(LLC, mtu, sum, source, destination, protocol, packet).Success? ==>
              var frame := AddHeader(LLC, mtu, sum, source, destination, protocol, packet).value;
              && |frame| == (if |packet| + 8 < 46 then 64 else |packet| + 26)
              && frame[0..6] == destination && frame[6..12] == source
              && frame[12] as int * 256 + frame[13] as int == |packet| + 8
              && frame[14..20] == [0xAA, 0xAA, 0x03, 0x00, 0x00, 0x00]
              && frame[20] as int * 256 + frame[21] as int == protocol
              && (forall k :: 22 <= k < |frame| - 4 ==> frame[k] == if k < 22 + |packet| then packet[k - 22] else 0)
              && frame[|frame| - 4..] == (if sum.enabled then sum.crc(frame[..|frame| - 4]) else [0, 0, 0, 0])
  {
    var body := LlcSnap(protocol) + packet;
    PaddedBytes(body);
    if AddHeader(LLC, mtu, sum, source, destination, protocol, packet).Success? {
      LlcBytes(sum, source, destination, protocol, packet);
    }
  }

  lemma LlcBytes(sum: Checksum, source: Mac48, destination: Mac48, protocol: uint16, packet: Bytes)
    requires |packet| + 8 < 0x1_0000
    ensures var body := LlcSnap(protocol) + packet;
            var frame := Framed(sum, source, destination, |body| % 0x1_0000, Padded(body));
            && |frame| == (if |packet| + 8 < 46 then 64 else |packet| + 26)
            && frame[0..6] == destination && frame[6..12] == source
            && frame[12] as int * 256 + frame[13] as int == |packet| + 8
            && frame[14..20] == [0xAA, 0xAA, 0x03, 0x00, 0x00, 0x00]
            && frame[20] as int * 256 + frame[21] as int == protocol
            && (forall k :: 22 <= k < |frame| - 4 ==> frame[k] == if k < 22 + |packet| then packet[k - 22] else 0)
            && frame[|frame| - 4..] == (if sum.enabled then sum.crc(frame[..|frame| - 4]) else [0, 0, 0, 0])
  {
    var body := Padded(LlcSnap(protocol) + packet);
    FrameLayout(sum, source, destination, |packet| + 8, body);
    LlcBody(protocol, packet);
    BodyBytes(Framed(sum, source, destination, |packet| + 8, body), body);
  }

  lemma BodyBytes(frame: Bytes, body: Bytes)
    requires |frame| == |body| + 18 && frame[14..|frame| - 4] == body
    ensures forall k :: 14 <= k < |frame| - 4 ==> frame[k] == body[k - 14]
    ensures forall j :: 0 <= j <= |body| ==> frame[14..14 + j] == body[..j]
  {
    assert forall k :: 14 <= k < |frame| - 4 ==> frame[k] == frame[14..|frame| - 4][k - 14];
  }

  lemma LlcBody(protocol: uint16, packet: Bytes)
    ensures var body := Padded(LlcSnap(protocol) + packet);
            && |body| == (if |packet| + 8 < 46 then 46 else |packet| + 8)
            && body[..6] == [0xAA, 0xAA, 0x03, 0x00, 0x00, 0x00]
            && body[6] as int * 256 + body[7] as int == protocol
            && forall k :: 8 <= k < |body| ==> body[k] == if k < 8 + |packet| then packet[k - 8] else 0
  {
    var body := LlcSnap(protocol) + packet;
    PaddedBytes(body);
    assert body[6] == protocol / 256 && body[7] == protocol % 256;
    assert forall k :: 8 <= k < |body| ==> body[k] == packet[k - 8];
  }

  // ---------- what a receiver makes of any bytes ----------

  /** Which frames are ignored, dropped and accepted: its own are ignored; a disabled receiver, a corruption, or a
      checksum that is switched on and wrong drops the frame, and nothing else does. */
  lemma DroppedExactly(own: Mac48, enabled: bool, sum: Checksum, fromSelf: bool, corrupt: bool, frame: Bytes)
    ensures var r := Receive(own, enabled, sum, fromSelf, corrupt, frame);
            && (r == Success(Ignored) <==> fromSelf)
            && (r == Success(PhyRxDrop) <==>
                  && !fromSelf
                  && (!enabled || corrupt
                      || (|frame| >= 4 && sum.enabled && sum.crc(frame[..|frame| - 4]) != frame[|frame| - 4..])))
  {
  }

  /** The frame reaches the reading of its length or type field. */
  predicate Heeded(enabled: bool, sum: Checksum, fromSelf: bool, corrupt: bool, frame: Bytes) {
    && !fromSelf && enabled && !corrupt && |frame| >= 18
    && (sum.enabled ==> sum.crc(frame[..|frame| - 4]) == frame[|frame| - 4..])
  }

  function LengthType(frame: Bytes): int
    requires |frame| >= 18
  {
    frame[12] as int * 256 + frame[13] as int
  }

  /** Which assertions such a frame fails, by its length field and the size of what it carries. */
  lemma FaultsExactly(own: Mac48, enabled: bool, sum: Checksum, fromSelf: bool, corrupt: bool, frame: Bytes)
    requires Heeded(enabled, sum, fromSelf, corrupt, frame)
    ensures var r, n, size := Receive(own, enabled, sum, fromSelf, corrupt, frame), LengthType(frame), |frame| - 18;
            && (r == Failure(LengthBeyondPacket) <==> n <= 1500 && size < n)
            && (r == Failure(PadTooLong) <==> n <= 1500 && n <= size && size - n > 46)
            && (r == Failure(ShortPacket) <==> n < 8 && n <= size <= n + 46)
            && (r.Success? <==> n > 1500 || (8 <= n <= size <= n + 46))
  {
    var covered := frame[..|frame| - 4];
    assert covered[12..14] == [frame[12], frame[13]];
    assert |covered[14..]| == |frame| - 18;
  }

  /** What is delivered otherwise: by a length field the bytes behind the LLC/SNAP header up to that length, and by a
      type field all of the body. */
  lemma DeliveredExactly(own: Mac48, enabled: bool, sum: Checksum, fromSelf: bool, corrupt: bool, frame: Bytes)
    requires Heeded(enabled, sum, fromSelf, corrupt, frame)
    requires Receive(own, enabled, sum, fromSelf, corrupt, frame).Success?
    ensures var r, n := Receive(own, enabled, sum, fromSelf, corrupt, frame).value, LengthType(frame);
            && r.Delivered? && r.destination == frame[0..6] && r.source == frame[6..12]
            && r.payload == (if n <= 1500 then frame[22..14 + n] else frame[14..|frame| - 4])
            && r.protocol as int == if n <= 1500 then frame[20] as int * 256 + frame[21] as int else n
  {
    FaultsExactly(own, enabled, sum, fromSelf, corrupt, frame);
    var covered, n := frame[..|frame| - 4], LengthType(frame);
    assert covered[12..14] == [frame[12], frame[13]];
    assert covered[0..6] == frame[0..6] && covered[6..12] == frame[6..12];
    assert covered[14..] == frame[14..|frame| - 4];
    if n <= 1500 {
      var trimmed := covered[14..][..n];
      assert trimmed == frame[14..14 + n];
      assert trimmed[6..8] == [frame[20], frame[21]];
      assert trimmed[8..] == frame[22..14 + n];
    }
  }

  /** The kind of packet a receiver takes a delivered frame for: broadcast if the destination is all ones; multicast if
      its group bit is set otherwise; its own if it is a single station's address and the receiver's; and else
      somebody else's. */
  lemma ClassifiedExactly(own: Mac48, enabled: bool, sum: Checksum, fromSelf: bool, corrupt: bool, frame: Bytes)
    requires Receive(own, enabled, sum, fromSelf, corrupt, frame).Success?
    requires Receive(own, enabled, sum, fromSelf, corrupt, frame).value.Delivered?
    ensures var r := Receive(own, enabled, sum, fromSelf, corrupt, frame).value;
            var d := r.destination;
            && (r.packetType == PACKET_BROADCAST <==> forall k :: 0 <= k < 6 ==> d[k] == 255)
            && (r.packetType == PACKET_MULTICAST <==> d[0] % 2 == 1 && exists k :: 0 <= k < 6 && d[k] != 255)
            && (r.packetType == PACKET_HOST <==> d[0] % 2 == 0 && d == own)
            && (r.packetType == PACKET_OTHERHOST <==> d[0] % 2 == 0 && d != own)
  {
    var d := Receive(own, enabled, sum, fromSelf, corrupt, frame).value.destination;
    assert d == BROADCAST <==> forall k :: 0 <= k < 6 ==> d[k] == 255;
  }

  /** Of receivers with different addresses at most one takes a frame for its own. */
  lemma OneHost(one: Mac48, other: Mac48, sum: Checksum, frame: Bytes)
    requires one != other
    requires Receive(one, true, sum, false, false, frame).Success?
    requires Receive(one, true, sum, false, false, frame).value.Delivered?
    ensures var r, q := Receive(one, true, sum, false, false, frame), Receive(other, true, sum, false, false, frame);
            q.Success? && q.value.Delivered?
            && !(r.value.packetType == PACKET_HOST && q.value.packetType == PACKET_HOST)
  {
    ClassifiedExactly(one, true, sum, false, false, frame);
    ClassifiedExactly(other, true, sum, false, false, frame);
  }

  // ---------- round trips ----------

  /** With the length interpretation the exact payload and protocol come back if and only if payload and
      LLC header fit the length field; a longer one is taken for a type. */
  lemma LlcRoundTrip(mtu: uint16, sum: Checksum, own: Mac48, source: Mac48, destination: Mac48,
                     protocol: uint16, payload: Bytes)
    requires AddHeader(LLC, mtu, sum, source, destination, protocol, payload).Success?
    ensures Receive(own, true, sum, false, false,
                    AddHeader(LLC, mtu, sum, source, destination, protocol, payload).value)
         == Success(Delivered(payload, protocol, source, destination, Classify(own, destination)))
        <==> |payload| + 8 <= 1500
  {
    var body := LlcSnap(protocol) + payload;
    ReceiveFramed(own, sum, source, destination, |body| % 0x1_0000, Padded(body));
    LlcInterpreted(protocol, payload);
  }

  lemma LlcInterpreted(protocol: uint16, payload: Bytes)
    ensures var body := LlcSnap(protocol) + payload;
            |Padded(body)| < 0x1_0000 ==>
              (Interpret(|body| % 0x1_0000, Padded(body)) == Success((payload, protocol)) <==> |payload| + 8 <= 1500)
  {
    var body := LlcSnap(protocol) + payload;
    if |body| <= 1500 {
      assert Padded(body)[..|body|] == body;
      assert body[8..] == payload;
      assert body[6..8] == U16(protocol);
    } else {
      assert |Padded(body)| != |payload|;
    }
  }

  /** With the type interpretation the protocol comes back, and the payload followed only by zeros up to 46 bytes, if
      and only if the protocol number is above the length range. */
  lemma DixRoundTrip(mtu: uint16, sum: Checksum, own: Mac48, source: Mac48, destination: Mac48,
                     protocol: uint16, payload: Bytes)
    ensures AddHeader(DIX, mtu, sum, source, destination, protocol, payload).Success?
    ensures protocol > 1500 <==>
              var r := Receive(own, true, sum, false, false,
                               AddHeader(DIX, mtu, sum, source, destination, protocol, payload).value);
              && r.Success? && r.value.Delivered?
              && r.value.protocol == protocol && r.value.source == source && r.value.destination == destination
              && |r.value.payload| == (if |payload| < 46 then 46 else |payload|)
              && forall k :: 0 <= k < |r.value.payload| ==>
                   r.value.payload[k] == if k < |payload| then payload[k] else 0
  {
    ReceiveFramed(own, sum, source, destination, protocol, Padded(payload));
    PaddedBytes(payload);
  }
}
