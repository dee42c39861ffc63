/** The RF24 client of the remote: its own address, the send/receive counters, the
    global message buffer every command is built in, the command-string codec
    `"<node>:<template>[:<payload>]"` with its thirteen message templates, and the
    dispatcher that picks the next hop.

    The link layer (`MyTransportNRF24`) is not part of this model: whether a frame is
    delivered, the MAC address of the Wi-Fi module, and what the free-form serial
    parser of template 0 makes of a string are inputs (`Link`). */
module RF24Client {
  import opened Arduino
  import opened Common
  import opened MySensors
  import opened Options
  import Config

  datatype Address = Address(node: byte, network: uint64)

  /** `_times`, `_succ`, `_received` (unbounded here; the source's are 32-bit). */
  datatype Counters = Counters(times: nat, succ: nat, received: nat)

  datatype Radio = Radio(address: Address, counters: Counters, buffer: Message)

  type Mac = s: seq<byte> | |s| == 6 witness [0, 0, 0, 0, 0, 0]

  /** What the platform decides: the MAC address, whether a send is acknowledged by
      the link layer, and the result of the free-form parser for template 0. */
  datatype Link = Link(mac: Mac, delivered: bool, parsed: Option<Message>)

  /** A frame handed to the link layer, with the hop it is sent to. */
  datatype Transmission = Transmission(msg: Message, hop: byte)

  //--------------------------------------------------------------------------
  // Network id from the MAC address
  //--------------------------------------------------------------------------

  /** Bytes read as a big-endian number. */
  function BigEndian(b: seq<byte>): (v: nat)
    ensures v < Pow256(|b|)
  {
    if |b| == 0 then 0 else BigEndian(b[..|b| - 1]) * 256 + b[|b| - 1]
  }

  /** The network id `GetNetworkID` derives: all six MAC bytes when `full`, else the
      last four followed by a zero byte. */
  function MacNetworkId(mac: Mac, full: bool): (v: uint64)
  {
    Pow256Six();
    if full then BigEndian(mac) else BigEndian(mac[2..]) * 256
  }

  lemma Pow256Six()
    ensures Pow256(4) == 0x1_0000_0000 && Pow256(6) == 0x1_0000_0000_0000
  {
    assert Pow256(1) == 256;
    assert Pow256(2) == 0x1_0000;
    assert Pow256(3) == 0x100_0000;
  }

  /** One turn of the `GetNetworkID` loop: the next byte enters at the bottom, and
      the value stays within six bytes. */
  lemma ShiftIn(mac: Mac, start: nat, i: nat)
    requires start <= i < 6
    ensures BigEndian(mac[start..i + 1]) == BigEndian(mac[start..i]) * 256 + mac[i]
    ensures BigEndian(mac[start..i + 1]) < 0x1_0000_0000_0000
  {
    assert mac[start..i + 1][..i - start] == mac[start..i];
    PowMonotone(i + 1 - start, 6);
    Pow256Six();
  }

  /** `GetNetworkID`: the accumulate-and-shift loop over the MAC bytes on a 64-bit
      value (the shift never loses bits, since at most 56 are used). */
  method GetNetworkID(mac: Mac, full: bool) returns (netId: uint64)
    ensures full ==> netId == BigEndian(mac)
    ensures !full ==> netId == BigEndian(mac[2..]) * 256
    ensures netId == MacNetworkId(mac, full)
  {
    Pow256Six();
    var start := if full then 0 else 2;
    netId := 0;
    var i := start;
    while i < 6
      invariant start <= i <= 6
      invariant full ==> i < 6
      invariant netId == BigEndian(mac[start..i]) * 256
      decreases 6 - i
    {
      ShiftIn(mac, start, i);
      netId := (netId + mac[i]) % 0x1_0000_0000_0000_0000;
      if full && i == 5 {
        assert mac[start..i + 1] == mac;
        break;
      }
      netId := (netId * 256) % 0x1_0000_0000_0000_0000;
      i := i + 1;
    }
    if !full {
      assert mac[start..i] == mac[2..];
    }
  }

  lemma {:induction false} PowMonotone(a: nat, b: nat)
    requires a <= b
    ensures Pow256(a) <= Pow256(b)
    decreases b
  {
    if a < b {
      PowMonotone(a, b - 1);
    }
  }

  //--------------------------------------------------------------------------
  // Own address
  //--------------------------------------------------------------------------

  /** `ChangeNodeID`: the same id succeeds without change, id 0 fails without change,
      any other id becomes the address on the base network. */
  function ChangeNodeID(radio: Radio, nodeId: byte): (r: (Radio, bool))
    ensures nodeId == radio.address.node ==> r == (radio, true)
    ensures nodeId != radio.address.node && nodeId == 0 ==> r == (radio, false)
    ensures nodeId != radio.address.node && nodeId != 0 ==>
              r == (radio.(address := Address(nodeId, RF24_BASE_RADIO_ID)), true)
  {
    if nodeId == radio.address.node then (radio, true)
    else if nodeId == 0 then (radio, false)
    else (radio.(address := Address(nodeId, RF24_BASE_RADIO_ID)), true)
  }

  //--------------------------------------------------------------------------
  // Command strings
  //--------------------------------------------------------------------------

  /** A parsed command string. Template 0 stands for the free-form format. */
  datatype CommandLine = CommandLine(node: byte, template: byte, payload: string)

  /** Splits `"<node>:<template>[:<payload>]"`: the node is the text before the first
      `':'` (which must not be at index 0), the template the text up to the next
      `':'` or the end; both are read with `toInt` and kept modulo 256. */
  function SplitCommand(s: string): (c: CommandLine)
    ensures ':' !in s ==> c.template == 0
    ensures |s| > 0 && s[0] == ':' ==> c.template == 0
  {
    var p := IndexOf(s, ':', 0);
    if p > 0 then
      var p2 := IndexOf(s, ':', p + 1);
      if p2 > 0 then
        CommandLine(ToByte(AtoI(Substring(s, 0, p))), ToByte(AtoI(Substring(s, p + 1, p2))), SubstringFrom(s, p2 + 1))
      else
        CommandLine(ToByte(AtoI(Substring(s, 0, p))), ToByte(AtoI(SubstringFrom(s, p + 1))), "")
    else
      CommandLine(0, 0, "")
  }

  /** Splitting `pre:mid:post` (no `':'` in `pre` or `mid`, `pre` non-empty) gives
      the two numbers modulo 256 and the rest verbatim. */
  lemma SplitThreeFields(pre: string, mid: string, post: string)
    requires |pre| > 0 && ':' !in pre && ':' !in mid
    ensures SplitCommand(pre + ":" + mid + ":" + post)
            == CommandLine(ToByte(AtoI(pre)), ToByte(AtoI(mid)), post)
  {
    var s := pre + ":" + mid + ":" + post;
    ThreeFields(pre, mid, post, ':');
    var p := IndexOf(s, ':', 0);
    var p2 := IndexOf(s, ':', p + 1);
    assert p == |pre| && p2 == |pre| + 1 + |mid|;
    assert Substring(s, 0, p) == pre && Substring(s, p + 1, p2) == mid && SubstringFrom(s, p2 + 1) == post;
  }

  /** Splitting `pre:mid` (no further `':'`) gives an empty payload. */
  lemma SplitTwoFields(pre: string, mid: string)
    requires |pre| > 0 && ':' !in pre && ':' !in mid
    ensures SplitCommand(pre + ":" + mid) == CommandLine(ToByte(AtoI(pre)), ToByte(AtoI(mid)), "")
  {
    TwoFields(pre, mid, ':');
  }

  /** A template field with no digits (after blanks and a sign) selects template 0,
      with or without a payload field. */
  lemma NonNumericTemplate(pre: string, mid: string, post: string)
    requires |pre| > 0 && ':' !in pre && ':' !in mid && NoNumber(mid)
    ensures SplitCommand(pre + ":" + mid).template == 0
    ensures SplitCommand(pre + ":" + mid + ":" + post).template == 0
  {
    SplitTwoFields(pre, mid);
    SplitThreeFields(pre, mid, post);
    AtoINoNumber(mid);
  }

  //--------------------------------------------------------------------------
  // Templates
  //--------------------------------------------------------------------------

  /** The IEEE-754 single-precision bytes of 23.5, least significant first. */
  const FLOAT_23_5: seq<byte> := [0x00, 0x00, 0xBC, 0x41]

  /** Template 13 payload: `[1, brightness, cct low, cct high]`, read from
      `"<br>:<cct>"` with the colour temperature clamped and the brightness kept
      modulo 256; without a `':'` after the first character, 65 and 3000. */
  function Template13Payload(p: string): (r: seq<byte>)
    ensures |r| == 4 && r[0] == 1
    ensures CT_MIN_VALUE <= r[2] + 256 * r[3] <= CT_MAX_VALUE
  {
    var v := Template13Values(p);
    [1, v.0, v.1 % 256, v.1 / 256]
  }

  /** The brightness and colour temperature template 13 reads from its payload. */
  function Template13Values(p: string): (v: (byte, int))
    ensures CT_MIN_VALUE <= v.1 <= CT_MAX_VALUE
  {
    var n := IndexOf(p, ':', 0);
    if n > 0 then (ToByte(AtoI(Substring(p, 0, n))), Constrain(AtoI(SubstringFrom(p, n + 1)), CT_MIN_VALUE, CT_MAX_VALUE))
    else (65, 3000)
  }

  /** A message ready to be sent, and the address the radio has after preparing it. */
  datatype Prepared = NotReady | Ready(address: Address, msg: Message)

  /** The message a template builds in the buffer `m`; `None` for template 1 on the
      gateway and for template numbers above 13. */
  function Prepare(radio: Radio, c: CommandLine, link: Link): (r: Prepared)
    ensures r.NotReady? <==>
              (c.template == 0 && link.parsed.None?)
              || (c.template == 1 && radio.address.node == GATEWAY_ADDRESS)
              || c.template > 13
    ensures r.Ready? && c.template != 1 ==> r.address == radio.address
  {
    var m := radio.buffer;
    var self := radio.address.node;
    var t := c.template;
    if t == 0 then
      match link.parsed
      case Some(msg) => Ready(radio.address, msg)
      case None => NotReady
    else if t == 1 then
      if self == GATEWAY_ADDRESS then NotReady
      else
        var radio' := ChangeNodeID(radio, AUTO).0;
        Ready(radio'.address, SetUInt64(Build(m, AUTO, BASESERVICE_ADDRESS, NODE_TYP_REMOTE, C_INTERNAL, I_ID_REQUEST, false),
                                        MacNetworkId(link.mac, true)))
    else if t == 2 then
      Ready(radio.address, SetUInt64(Build(m, self, c.node, REMOTE_TYPE_RF_SIMPLY, C_PRESENTATION, S_DIMMER, true),
                                     MacNetworkId(link.mac, true)))
    else if t == 3 then
      Ready(radio.address, SetString(Build(m, self, c.node, 1, C_PRESENTATION, S_TEMP, false), ""))
    else if t == 4 then
      Ready(radio.address, SetFloat32(Build(m, self, c.node, 1, C_SET, V_TEMP, false), FLOAT_23_5, 2))
    else if t == 5 then
      Ready(radio.address, SetInt16(Build(m, self, c.node, 1, C_SET, V_HUM, false), 45))
    else if t == 6 then
      Ready(radio.address, Build(m, self, c.node, 1, C_REQ, V_STATUS, true))
    else if t == 7 then
      Ready(radio.address, SetByte(Build(m, self, c.node, 1, C_SET, V_STATUS, true), if c.payload == "1" then 1 else 0))
    else if t == 8 then
      Ready(radio.address, Build(m, self, c.node, 1, C_REQ, V_PERCENTAGE, true))
    else if t == 9 then
      Ready(radio.address, SetByte(Build(m, self, c.node, 1, C_SET, V_PERCENTAGE, true), Constrain(AtoI(c.payload), 0, 100)))
    else if t == 10 then
      Ready(radio.address, Build(m, self, c.node, 1, C_REQ, V_LEVEL, true))
    else if t == 11 then
      Ready(radio.address, SetUInt16(Build(m, self, c.node, 1, C_SET, V_LEVEL, true),
                                     Constrain(AtoI(c.payload), CT_MIN_VALUE, CT_MAX_VALUE)))
    else if t == 12 then
      Ready(radio.address, SetByte(Build(m, self, c.node, 1, C_REQ, V_RGBW, true), RING_ID_ALL))
    else if t == 13 then
      Ready(radio.address, SetCustom(Build(m, self, c.node, 1, C_SET, V_RGBW, true), Template13Payload(c.payload)))
    else
      NotReady
  }

  //--------------------------------------------------------------------------
  // Dispatch
  //--------------------------------------------------------------------------

  /** The result of a send: the radio afterwards, what the firmware returns, and the
      frame handed to the link layer, if any. */
  datatype SendResult = SendResult(radio: Radio, ok: bool, sent: Option<Transmission>)

  /** The next hop: the gateway once the remote holds a token, else the destination. */
  function NextHop(config: Config.Config, msg: Message): (hop: byte)
    ensures Config.GetPresent(config) ==> hop == NODEID_GATEWAY
    ensures !Config.GetPresent(config) ==> hop == msg.destination
  {
    if Config.GetPresent(config) then NODEID_GATEWAY else msg.destination
  }

  /** `ProcessSend(MyMessage*)`: one attempt, counted in `_times`, and in `_succ`
      when the link layer delivers. */
  function Dispatch(radio: Radio, config: Config.Config, msg: Message, link: Link): (r: SendResult)
    ensures r.radio.counters.times == radio.counters.times + 1
    ensures r.radio.counters.succ == radio.counters.succ + (if link.delivered then 1 else 0)
    ensures r.radio.counters.received == radio.counters.received
    ensures r.ok == link.delivered
    ensures r.sent == Some(Transmission(msg, NextHop(config, msg)))
    ensures r.radio.address == radio.address && r.radio.buffer == radio.buffer
  {
    var times := radio.counters.times + 1;
    var succ := if link.delivered then radio.counters.succ + 1 else radio.counters.succ;
    SendResult(radio.(counters := radio.counters.(times := times, succ := succ)), link.delivered,
               Some(Transmission(msg, NextHop(config, msg))))
  }

  /** `ProcessSend(String&, MyMessage&)`: parse, build in the global buffer, send.
      When no message is built the radio is untouched and the result is false. */
  function ProcessSend(radio: Radio, config: Config.Config, s: string, link: Link): (r: SendResult)
    ensures r.ok ==> r.sent.Some?
    ensures r.sent.None? <==> Prepare(radio, SplitCommand(s), link).NotReady?
    ensures r.sent.None? ==> r.radio == radio && !r.ok
    ensures r.sent.Some? ==>
              var p := Prepare(radio, SplitCommand(s), link);
              r.ok == link.delivered
              && r.radio.buffer == p.msg && r.radio.address == p.address
              && r.sent.value == Transmission(p.msg, NextHop(config, p.msg))
              && r.radio.counters == radio.counters.(times := radio.counters.times + 1,
                                                     succ := radio.counters.succ + if link.delivered then 1 else 0)
  {
    match Prepare(radio, SplitCommand(s), link)
    case NotReady => SendResult(radio, false, None)
    case Ready(address, msg) => Dispatch(radio.(address := address, buffer := msg), config, msg, link)
  }

  /** Sends never count more successes than attempts. */
  predicate CountersSound(c: Counters)
  {
    c.succ <= c.times
  }

  lemma ProcessSendKeepsCountersSound(radio: Radio, config: Config.Config, s: string, link: Link)
    requires CountersSound(radio.counters)
    ensures CountersSound(ProcessSend(radio, config, s, link).radio.counters)
  {
  }

  //--------------------------------------------------------------------------
  // Facts about the templates
  //--------------------------------------------------------------------------

  /** Template 1 ignores the parsed node: it resets the own id to `AUTO` and asks the
      base service for an id, carrying the full MAC as identity. */
  lemma Template1RequestsId(radio: Radio, c: CommandLine, link: Link)
    requires ProtocolAssumptions()
    requires c.template == 1 && radio.address.node != GATEWAY_ADDRESS
    ensures var p := Prepare(radio, c, link);
            p.Ready? && p.address.node == AUTO
            && p.msg.sender == AUTO && p.msg.destination == BASESERVICE_ADDRESS
            && p.msg.command == C_INTERNAL && p.msg.mtype == I_ID_REQUEST && !p.msg.requestAck
            && FromLittleEndian(p.msg.payload) == MacNetworkId(link.mac, true)
  {
  }

  /** Template 2 presents the remote to node `c.node` as a dimmer, asking for an
      acknowledgement, with the full MAC as identity. */
  lemma Template2Presentation(radio: Radio, c: CommandLine, link: Link)
    requires c.template == 2
    ensures var p := Prepare(radio, c, link);
            p.Ready? && p.address == radio.address
            && p.msg.sender == radio.address.node && p.msg.destination == c.node
            && p.msg.sensor == REMOTE_TYPE_RF_SIMPLY && p.msg.command == C_PRESENTATION
            && p.msg.mtype == S_DIMMER && p.msg.requestAck
            && FromLittleEndian(p.msg.payload) == MacNetworkId(link.mac, true)
  {
    var m := Build(radio.buffer, radio.address.node, c.node, REMOTE_TYPE_RF_SIMPLY, C_PRESENTATION, S_DIMMER, true);
    assert Prepare(radio, c, link) == Ready(radio.address, SetUInt64(m, MacNetworkId(link.mac, true)));
  }

  /** Template 12 asks node `c.node` for the state of all its rings. */
  lemma Template12RingRequest(radio: Radio, c: CommandLine, link: Link)
    requires c.template == 12
    ensures var p := Prepare(radio, c, link);
            p.Ready? && p.msg.destination == c.node && p.msg.command == C_REQ && p.msg.mtype == V_RGBW
            && p.msg.requestAck && p.msg.payload == [RING_ID_ALL]
  {
    var m := Build(radio.buffer, radio.address.node, c.node, 1, C_REQ, V_RGBW, true);
    assert Prepare(radio, c, link) == Ready(radio.address, SetByte(m, RING_ID_ALL));
  }

  /** Template 3 presents sensor 1 of node `c.node` as a temperature sensor, with
      an empty string and no acknowledgement. */
  lemma Template3TemperaturePresentation(radio: Radio, c: CommandLine, link: Link)
    requires c.template == 3
    ensures var p := Prepare(radio, c, link);
            p.Ready? && p.address == radio.address
            && p.msg.sender == radio.address.node && p.msg.destination == c.node && p.msg.sensor == 1
            && p.msg.command == C_PRESENTATION && p.msg.mtype == S_TEMP && !p.msg.requestAck
            && p.msg.kind == PString && p.msg.payload == []
  {
    var m := Build(radio.buffer, radio.address.node, c.node, 1, C_PRESENTATION, S_TEMP, false);
    assert Prepare(radio, c, link) == Ready(radio.address, SetString(m, ""));
  }

  /** Template 4 sets the temperature of sensor 1 to 23.5 with two decimals and no
      acknowledgement. The payload reads back as an IEEE-754 single: sign 0,
      biased exponent 127 + 4, and a mantissa that makes 1.46875 * 2^4 = 23.5. */
  lemma Template4Temperature(radio: Radio, c: CommandLine, link: Link)
    requires c.template == 4
    ensures var p := Prepare(radio, c, link);
            p.Ready? && p.msg.destination == c.node && p.msg.sensor == 1
            && p.msg.command == C_SET && p.msg.mtype == V_TEMP && !p.msg.requestAck
            && p.msg.kind == PFloat32(2) && |p.msg.payload| == 4
            && var bits := FromLittleEndian(p.msg.payload);
               && bits / 0x8000_0000 == 0
               && (bits / 0x80_0000) % 0x100 == 127 + 4
               && (0x80_0000 + bits % 0x80_0000) as real / 0x80_0000 as real * 16.0 == 23.5
  {
    var m := Build(radio.buffer, radio.address.node, c.node, 1, C_SET, V_TEMP, false);
    assert Prepare(radio, c, link) == Ready(radio.address, SetFloat32(m, FLOAT_23_5, 2));
    assert FromLittleEndian(FLOAT_23_5) == 0x41BC_0000;
  }

  /** Template 5 sets the humidity of sensor 1 to 45 as a signed 16-bit value,
      with no acknowledgement. */
  lemma Template5Humidity(radio: Radio, c: CommandLine, link: Link)
    requires c.template == 5
    ensures var p := Prepare(radio, c, link);
            p.Ready? && p.msg.destination == c.node && p.msg.sensor == 1
            && p.msg.command == C_SET && p.msg.mtype == V_HUM && !p.msg.requestAck
            && p.msg.kind == PInt16 && FromLittleEndian(p.msg.payload) == 45
  {
    var m := Build(radio.buffer, radio.address.node, c.node, 1, C_SET, V_HUM, false);
    assert Prepare(radio, c, link) == Ready(radio.address, SetInt16(m, 45));
  }

  /** Templates 6, 8 and 10 ask sensor 1 of node `c.node` for its power state,
      brightness and colour temperature, with an acknowledgement. They do not set
      a payload, so the one left in the buffer by the previous message goes out. */
  lemma TemplateRequests(radio: Radio, c: CommandLine, link: Link)
    requires c.template in {6, 8, 10}
    ensures var p := Prepare(radio, c, link);
            p.Ready? && p.address == radio.address
            && p.msg.sender == radio.address.node && p.msg.destination == c.node && p.msg.sensor == 1
            && p.msg.command == C_REQ && p.msg.requestAck
            && p.msg.mtype == (if c.template == 6 then V_STATUS else if c.template == 8 then V_PERCENTAGE else V_LEVEL)
            && p.msg.kind == radio.buffer.kind && p.msg.payload == radio.buffer.payload
  {
  }

  /** Template 7 sends 1 exactly when the payload is `"1"`. */
  lemma Template7Switch(radio: Radio, c: CommandLine, link: Link)
    requires c.template == 7
    ensures var p := Prepare(radio, c, link);
            p.Ready? && p.msg.destination == c.node
            && p.msg.command == C_SET && p.msg.mtype == V_STATUS && p.msg.requestAck
            && p.msg.payload == [if c.payload == "1" then 1 else 0]
  {
  }

  /** Template 9 sends the brightness clamped to [0, 100]. */
  lemma Template9Brightness(radio: Radio, c: CommandLine, link: Link)
    requires c.template == 9
    ensures var p := Prepare(radio, c, link);
            p.Ready? && p.msg.destination == c.node
            && p.msg.command == C_SET && p.msg.mtype == V_PERCENTAGE && |p.msg.payload| == 1
            && p.msg.payload[0] == Constrain(AtoI(c.payload), 0, 100)
            && (0 <= AtoI(c.payload) <= 100 ==> p.msg.payload[0] == AtoI(c.payload))
  {
    var v: byte := Constrain(AtoI(c.payload), 0, 100);
    var m := Build(radio.buffer, radio.address.node, c.node, 1, C_SET, V_PERCENTAGE, true);
    assert Prepare(radio, c, link) == Ready(radio.address, SetByte(m, v));
  }

  /** Template 11 sends the colour temperature clamped to [2700, 6500]. */
  lemma Template11ColourTemperature(radio: Radio, c: CommandLine, link: Link)
    requires c.template == 11
    ensures var p := Prepare(radio, c, link);
            p.Ready? && p.msg.destination == c.node && p.msg.command == C_SET && p.msg.mtype == V_LEVEL
            && FromLittleEndian(p.msg.payload) == Constrain(AtoI(c.payload), 2700, 6500)
  {
    var v: uint16 := Constrain(AtoI(c.payload), CT_MIN_VALUE, CT_MAX_VALUE);
    var m := Build(radio.buffer, radio.address.node, c.node, 1, C_SET, V_LEVEL, true);
    assert Prepare(radio, c, link) == Ready(radio.address, SetUInt16(m, v));
  }

  /** Template 13 sends `[1, br, cct mod 256, cct / 256]`. */
  lemma Template13Fields(radio: Radio, c: CommandLine, link: Link, br: nat, cct: nat)
    requires c.template == 13 && c.payload == FormatDecimal(br) + ":" + FormatDecimal(cct)
    ensures var p := Prepare(radio, c, link);
            var k := Constrain(cct, 2700, 6500);
            p.Ready? && p.msg.destination == c.node
            && p.msg.command == C_SET && p.msg.mtype == V_RGBW && p.msg.kind == PCustom
            && p.msg.payload == [1, br % 256, k % 256, k / 256]
  {
    Template13Split(br, cct);
    PrepareTemplate13(radio, c, link);
  }

  lemma PrepareTemplate13(radio: Radio, c: CommandLine, link: Link)
    requires c.template == 13
    ensures var p := Prepare(radio, c, link);
            p.Ready? && p.msg.destination == c.node
            && p.msg.command == C_SET && p.msg.mtype == V_RGBW && p.msg.kind == PCustom
            && p.msg.payload == Template13Payload(c.payload)
  {
  }

  lemma Template13Split(br: nat, cct: nat)
    ensures var k := Constrain(cct, 2700, 6500);
            Template13Payload(FormatDecimal(br) + ":" + FormatDecimal(cct)) == [1, br % 256, k % 256, k / 256]
  {
    var a := FormatDecimal(br);
    var p := a + ":" + FormatDecimal(cct);
    DigitsHaveNo(a, ':');
    assert p[0..|a|] == a;
    IndexOfAfter(p, ':', 0, a);
    assert Substring(p, 0, |a|) == a;
    assert SubstringFrom(p, |a| + 1) == FormatDecimal(cct);
    FormatDecimalRoundTrip(br);
    FormatDecimalRoundTrip(cct);
  }

  /** Without a `':'` after the first character, template 13 uses brightness 65 and
      3000 K. */
  lemma Template13Defaults(p: string)
    requires IndexOf(p, ':', 0) <= 0
    ensures Template13Payload(p) == [1, 65, 184, 11]
  {
  }
}
