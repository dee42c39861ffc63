/** The MySensors message the remote exchanges over the RF24 link, as a plain record
    with a byte payload, and the protocol constants the firmware uses.

    The MySensors library itself is not part of this model. Its constants are
    declared without values; the few facts the firmware depends on are stated as
    predicates (`ProtocolAssumptions`) and required by exactly the lemmas that need
    them. Payload writers and readers use little-endian byte order, as MySensors
    does on the targets the firmware runs on. */
module MySensors {
  import opened Arduino

  //--------------------------------------------------------------------------
  // Protocol constants (values come from the MySensors library)
  //--------------------------------------------------------------------------

  const AUTO: byte
  const GATEWAY_ADDRESS: byte
  const BASESERVICE_ADDRESS: byte

  const C_PRESENTATION: byte
  const C_SET: byte
  const C_REQ: byte
  const C_INTERNAL: byte

  const V_TEMP: byte
  const V_HUM: byte
  const V_STATUS: byte
  const V_PERCENTAGE: byte
  const V_LEVEL: byte
  const V_RGBW: byte

  const S_TEMP: byte
  const S_DIMMER: byte
  const S_LIGHT: byte

  const I_ID_REQUEST: byte
  const I_ID_RESPONSE: byte

  const HEADER_SIZE: byte
  const MAX_MESSAGE_LENGTH: byte

  const RF24_BASE_RADIO_ID: uint64
  const RF24_PA_MAX: byte
  const RF24_PA_LEVEL_NODE: byte

  /** The four command codes the router tells apart are distinct. */
  ghost predicate CommandsDistinct()
  {
    C_PRESENTATION != C_SET && C_PRESENTATION != C_REQ && C_PRESENTATION != C_INTERNAL
    && C_SET != C_REQ && C_SET != C_INTERNAL && C_REQ != C_INTERNAL
  }

  /** The value types the router tells apart after a request are distinct. */
  ghost predicate ValueTypesDistinct()
  {
    V_STATUS != V_PERCENTAGE && V_STATUS != V_LEVEL && V_STATUS != V_RGBW
    && V_PERCENTAGE != V_LEVEL && V_PERCENTAGE != V_RGBW && V_LEVEL != V_RGBW
  }

  /** What the firmware relies on: `AUTO` is a usable node id, and the power levels
      fit the two-bit field of the configuration record. */
  ghost predicate ProtocolAssumptions()
  {
    AUTO != 0 && RF24_PA_MAX <= 3 && RF24_PA_LEVEL_NODE <= RF24_PA_MAX
  }

  //--------------------------------------------------------------------------
  // Messages
  //--------------------------------------------------------------------------

  /** The payload type tag of a message. */
  datatype PayloadKind =
    | PString
    | PByte
    | PInt16
    | PUInt16
    | PULong64
    | PFloat32(decimals: byte)
    | PCustom

  datatype Message = Message(
    sender: byte,
    destination: byte,
    sensor: byte,
    command: byte,
    mtype: byte,
    requestAck: bool,
    ack: bool,
    kind: PayloadKind,
    payload: seq<byte>)

  /** An all-zero message, the state of the global buffer at start-up. */
  const EmptyMessage := Message(0, 0, 0, 0, 0, false, false, PCustom, [])

  /** `MyMessage::build`: sets the header fields and clears the ack flag. The payload
      and its type are those of the message being rebuilt. */
  function Build(m: Message, sender: byte, destination: byte, sensor: byte,
                 command: byte, mtype: byte, enableAck: bool): (r: Message)
    ensures r.sender == sender && r.destination == destination && r.sensor == sensor
    ensures r.command == command && r.mtype == mtype && r.requestAck == enableAck && !r.ack
    ensures r.kind == m.kind && r.payload == m.payload
  {
    m.(sender := sender, destination := destination, sensor := sensor, command := command,
       mtype := mtype, requestAck := enableAck, ack := false)
  }

  //--------------------------------------------------------------------------
  // Little-endian encoding of unsigned values
  //--------------------------------------------------------------------------

  /** The `n` low-order bytes of `v`, least significant first. */
  function LittleEndian(v: nat, n: nat): (r: seq<byte>)
    ensures |r| == n
  {
    if n == 0 then [] else [v % 256] + LittleEndian(v / 256, n - 1)
  }

  /** The value of a little-endian byte string. */
  function FromLittleEndian(b: seq<byte>): (v: nat)
    ensures v < Pow256(|b|)
  {
    if |b| == 0 then 0 else b[0] + 256 * FromLittleEndian(b[1..])
  }

  /** Decoding an encoded value gives it back when it fits in the `n` bytes written. */
  lemma {:induction false} LittleEndianFits(v: nat, n: nat)
    requires v < Pow256(n)
    ensures FromLittleEndian(LittleEndian(v, n)) == v
  {
    if n > 0 {
      assert v / 256 < Pow256(n - 1);
      LittleEndianFits(v / 256, n - 1);
      assert LittleEndian(v, n)[1..] == LittleEndian(v / 256, n - 1);
    }
  }

  //--------------------------------------------------------------------------
  // Payload writers (`MyMessage::set` overloads)
  //--------------------------------------------------------------------------

  function SetByte(m: Message, v: byte): (r: Message)
    ensures r.kind == PByte && r.payload == [v]
    ensures r == m.(kind := PByte, payload := r.payload)
  {
    m.(kind := PByte, payload := [v])
  }

  /** A signed 16-bit value, stored in two's complement. */
  function SetInt16(m: Message, v: int16): (r: Message)
    ensures r.kind == PInt16 && |r.payload| == 2
    ensures FromLittleEndian(r.payload) == ToUInt16(v)
    ensures r == m.(kind := PInt16, payload := r.payload)
  {
    LittleEndianFits(ToUInt16(v), 2);
    m.(kind := PInt16, payload := LittleEndian(ToUInt16(v), 2))
  }

  function SetUInt16(m: Message, v: uint16): (r: Message)
    ensures r.kind == PUInt16 && |r.payload| == 2
    ensures FromLittleEndian(r.payload) == v
    ensures r == m.(kind := PUInt16, payload := r.payload)
  {
    LittleEndianFits(v, 2);
    m.(kind := PUInt16, payload := LittleEndian(v, 2))
  }

  function SetUInt64(m: Message, v: uint64): (r: Message)
    ensures r.kind == PULong64 && |r.payload| == 8
    ensures FromLittleEndian(r.payload) == v
    ensures r == m.(kind := PULong64, payload := r.payload)
  {
    LittleEndianFits(v, 8);
    m.(kind := PULong64, payload := LittleEndian(v, 8))
  }

  /** Characters in the `char` range become bytes. */
  function SetString(m: Message, s: string): (r: Message)
    requires forall i :: 0 <= i < |s| ==> s[i] as int < 256
    ensures r.kind == PString && |r.payload| == |s|
    ensures forall i :: 0 <= i < |s| ==> r.payload[i] == s[i] as int
    ensures r == m.(kind := PString, payload := r.payload)
  {
    m.(kind := PString, payload := seq(|s|, i requires 0 <= i < |s| => s[i] as int as byte))
  }

  /** A float is written as its four IEEE-754 bytes, given here already encoded. */
  function SetFloat32(m: Message, ieee: seq<byte>, decimals: byte): (r: Message)
    requires |ieee| == 4
    ensures r.kind == PFloat32(decimals) && r.payload == ieee
    ensures r == m.(kind := PFloat32(decimals), payload := ieee)
  {
    m.(kind := PFloat32(decimals), payload := ieee)
  }

  function SetCustom(m: Message, data: seq<byte>): (r: Message)
    ensures r.kind == PCustom && r.payload == data
    ensures r == m.(kind := PCustom, payload := data)
  {
    m.(kind := PCustom, payload := data)
  }

  //--------------------------------------------------------------------------
  // Payload readers
  //--------------------------------------------------------------------------

  function GetByte(m: Message): (r: byte)
    requires |m.payload| >= 1
  {
    m.payload[0]
  }

  function GetUInt(m: Message): (r: uint16)
    requires |m.payload| >= 2
  {
    FromLittleEndian(m.payload[..2])
  }

  function GetUInt64(m: Message): (r: uint64)
    requires |m.payload| >= 8
  {
    FromLittleEndian(m.payload[..8])
  }

  /** What a writer stores, the matching reader gives back. */
  lemma ReadersInvertWriters(m: Message, b: byte, u: uint16, w: uint64)
    ensures GetByte(SetByte(m, b)) == b
    ensures GetUInt(SetUInt16(m, u)) == u
    ensures GetUInt64(SetUInt64(m, w)) == w
  {
    assert SetUInt16(m, u).payload[..2] == SetUInt16(m, u).payload;
    assert SetUInt64(m, w).payload[..8] == SetUInt64(m, w).payload;
  }
}
