/** The receive side of the RF24 client: one call takes at most one frame from the
    link layer, counts it, and routes it on (command, type, ack) into writes to the
    configuration and device-status records, answering an id response with a
    presentation and a presentation acknowledgement with a ring-state request.

    The link layer decides whether the radio is valid, whether a frame is
    available and whether a reply is delivered; all three are inputs. The received
    frame overwrites the message buffer the sender also uses, as in the firmware,
    where the receive buffer aliases the global message. */
module Router {
  import opened Arduino
  import opened Common
  import opened MySensors
  import opened Options
  import opened RF24Client
  import opened Config
  import SmartRemote

  /** A frame as `receive` returns it: its length and the message it fills in. */
  datatype Frame = Frame(length: byte, msg: Message)

  /** The part of the remote the router reads and writes. */
  datatype Node = Node(radio: Radio, store: Store)

  /** The state after a call, what `ProcessReceive` returns, and any reply sent. */
  datatype Received = Received(node: Node, ok: bool, sent: Option<Transmission>)

  /** The router reads payload bytes 0..7 without a length check; the firmware's
      message buffer always holds them. */
  predicate FullPayload(m: Message)
  {
    |m.payload| >= 8
  }

  //--------------------------------------------------------------------------
  // C_INTERNAL: id response
  //--------------------------------------------------------------------------

  /** An id response is taken only while the own id is `AUTO` or the base service's,
      and only when the offered id is neither the gateway's nor the dummy. */
  predicate AcceptsId(n: Node, m: Message)
  {
    m.mtype == I_ID_RESPONSE
    && (n.radio.address.node == AUTO || n.radio.address.node == BASESERVICE_ADDRESS)
    && m.sensor != NODEID_GATEWAY && m.sensor != NODEID_DUMMY
  }

  function IdResponse(n: Node, m: Message, link: Link): (r: (Node, Option<Transmission>))
    requires FullPayload(m)
    ensures !AcceptsId(n, m) ==> r == (n, None)
    ensures AcceptsId(n, m) ==>
              var id := m.sensor;
              var net := GetUInt64(m);
              r.0.radio.address == Address(id, net)
              && r.0.store.config == n.store.config.(nodeId := id, networkId := net)
              && r.0.store.dev == n.store.dev
              && r.1.Some? && r.1.value.msg.command == C_PRESENTATION && r.1.value.msg.sender == id
    ensures r.0.radio.counters == Sent(n.radio.counters, r.1.Some?, link)
  {
    if AcceptsId(n, m) then
      var id := m.sensor;
      var net := GetUInt64(m);
      var store := SetNetworkID(SetNodeID(n.store, id), net);
      var sent := SmartRemote.SendDevicePresentation(n.radio.(address := Address(id, net)), store.config, link);
      (Node(sent.radio, store), sent.sent)
    else
      (n, None)
  }

  //--------------------------------------------------------------------------
  // C_PRESENTATION: presentation acknowledgement
  //--------------------------------------------------------------------------

  /** An acknowledged light or dimmer presentation carries the token; the remote
      keeps it and asks the main device for its ring states. */
  function PresentationAck(n: Node, m: Message, link: Link): (r: (Node, Option<Transmission>))
    requires FullPayload(m)
    ensures !((m.mtype == S_LIGHT || m.mtype == S_DIMMER) && m.ack) ==> r == (n, None)
    ensures (m.mtype == S_LIGHT || m.mtype == S_DIMMER) && m.ack ==>
              r.0.store == SetToken(n.store, GetUInt(m))
              && r.0.radio.address == n.radio.address
              && r.1.Some? && r.1.value.msg.destination == NODEID_MAINDEVICE
              && r.1.value.msg.command == C_REQ && r.1.value.msg.mtype == V_RGBW
    ensures r.0.radio.counters == Sent(n.radio.counters, r.1.Some?, link)
  {
    if (m.mtype == S_LIGHT || m.mtype == S_DIMMER) && m.ack then
      AskRings(n.radio, SetToken(n.store, GetUInt(m)), link)
    else
      (n, None)
  }

  /** Asks the main device for its ring states, keeping the given store. */
  function AskRings(radio: Radio, store: Store, link: Link): (r: (Node, Option<Transmission>))
    ensures r.0.store == store && r.0.radio.address == radio.address
    ensures r.1.Some? && r.1.value.msg.destination == NODEID_MAINDEVICE
            && r.1.value.msg.command == C_REQ && r.1.value.msg.mtype == V_RGBW
    ensures r.0.radio.counters == Sent(radio.counters, true, link)
  {
    var sent := SmartRemote.SendReqLampStatus(radio, store.config, link, NODEID_MAINDEVICE);
    (Node(sent.radio, store), sent.sent)
  }

  //--------------------------------------------------------------------------
  // C_REQ and C_SET: acknowledgements that update the device status
  //--------------------------------------------------------------------------

  /** The store as the router's writes are observed: the configuration and its
      change flag, and the device status as its getters read it (from ring 0). */
  datatype Lamp = Lamp(config: Config, changed: bool, uid: byte, nodeId: byte,
                       devType: byte, present: bool, state: bool, br: uint7, cct: uint16)

  function LampOf(s: Store): Lamp
  {
    var h := s.dev.ring[0];
    Lamp(s.config, s.changed, s.dev.uid, s.dev.nodeId, s.dev.devType, s.dev.present, h.state, h.br, h.cct)
  }

  /** Each device-status setter changes exactly its own field of the view. */
  lemma DevTypeOnLamp(s: Store, t: byte)
    ensures LampOf(SetDevType(s, t)) == LampOf(s).(devType := t)
  {
  }

  lemma DevPresentOnLamp(s: Store, present: bool)
    ensures LampOf(SetDevPresent(s, present)) == LampOf(s).(present := present)
  {
  }

  lemma DevStatusOnLamp(s: Store, status: bool)
    ensures LampOf(SetDevStatus(s, status)) == LampOf(s).(state := status)
  {
  }

  lemma DevBrightnessOnLamp(s: Store, level: byte)
    ensures LampOf(SetDevBrightness(s, level)) == LampOf(s).(br := level % 128)
  {
  }

  lemma DevCCTOnLamp(s: Store, cct: uint16)
    ensures LampOf(SetDevCCT(s, cct)) == LampOf(s).(cct := cct)
  {
  }

  /** The colour temperature a sunny lamp reports in payload bytes 6 (low) and 7. */
  function ReportedCCT(p: seq<byte>): (cct: uint16)
    requires |p| >= 8
    ensures cct == FromLittleEndian(p[6..8])
  {
    (p[7] as int) * 256 + p[6] as int
  }

  /** A successful ring report: type, presence, on/off and brightness from bytes
      1, 2, 4 and 5, and the colour temperature from bytes 6 and 7 for a sunny
      lamp only. */
  function RingReport(s: Store, p: seq<byte>): (r: Store)
    requires |p| >= 8
    ensures LampOf(r) == LampOf(s).(devType := p[1], present := p[2] != 0, state := p[4] != 0,
                                    br := p[5] % 128,
                                    cct := if IsSunny(p[1]) then ReportedCCT(p) else LampOf(s).cct)
  {
    var s1 := SetDevType(s, p[1]);
    DevTypeOnLamp(s, p[1]);
    var s2 := SetDevPresent(s1, p[2] != 0);
    DevPresentOnLamp(s1, p[2] != 0);
    var s3 := SetDevStatus(s2, p[4] != 0);
    DevStatusOnLamp(s2, p[4] != 0);
    var s4 := SetDevBrightness(s3, p[5]);
    DevBrightnessOnLamp(s3, p[5]);
    DevCCTOnLamp(s4, ReportedCCT(p));
    if IsSunny(p[1]) then SetDevCCT(s4, ReportedCCT(p)) else s4
  }

  /** The `C_REQ` part: an acknowledged `V_RGBW` request reports the lamp's state.
      A zero success byte marks the lamp absent and off; otherwise `RingReport`. */
  function RingAck(s: Store, m: Message): (r: Store)
    requires FullPayload(m)
    ensures !(m.ack && m.mtype == V_RGBW) ==> r == s
    ensures m.ack && m.mtype == V_RGBW && m.payload[0] == 0 ==>
              LampOf(r) == LampOf(s).(present := false, state := false)
    ensures m.ack && m.mtype == V_RGBW && m.payload[0] != 0 ==> r == RingReport(s, m.payload)
  {
    if m.ack && m.mtype == V_RGBW then
      if m.payload[0] != 0 then RingReport(s, m.payload)
      else
        DevPresentOnLamp(s, false);
        DevStatusOnLamp(SetDevPresent(s, false), false);
        SetDevStatus(SetDevPresent(s, false), false)
    else
      s
  }

  /** The `C_SET` part: an acknowledged switch, brightness or colour temperature marks
      the lamp present and records the reported value. */
  function SetAck(s: Store, m: Message): (r: Store)
    requires FullPayload(m)
    ensures !m.ack || (m.mtype != V_STATUS && m.mtype != V_PERCENTAGE && m.mtype != V_LEVEL) ==> r == s
    ensures m.ack && m.mtype == V_STATUS ==>
              LampOf(r) == LampOf(s).(present := true, state := GetByte(m) != 0)
    ensures m.ack && m.mtype == V_PERCENTAGE && m.mtype != V_STATUS ==>
              LampOf(r) == LampOf(s).(present := true, state := m.payload[0] != 0, br := m.payload[1] % 128)
    ensures m.ack && m.mtype == V_LEVEL && m.mtype != V_STATUS && m.mtype != V_PERCENTAGE ==>
              LampOf(r) == LampOf(s).(present := true, cct := GetUInt(m))
  {
    if m.ack then
      var s1 := SetDevPresent(s, true);
      DevPresentOnLamp(s, true);
      if m.mtype == V_STATUS then
        DevStatusOnLamp(s1, GetByte(m) != 0);
        SetDevStatus(s1, GetByte(m) != 0)
      else if m.mtype == V_PERCENTAGE then
        var s2 := SetDevStatus(s1, m.payload[0] != 0);
        DevStatusOnLamp(s1, m.payload[0] != 0);
        DevBrightnessOnLamp(s2, m.payload[1]);
        SetDevBrightness(s2, m.payload[1])
      else if m.mtype == V_LEVEL then
        DevCCTOnLamp(s1, GetUInt(m));
        SetDevCCT(s1, GetUInt(m))
      else s
    else s
  }

  //--------------------------------------------------------------------------
  // The router
  //--------------------------------------------------------------------------

  /** The counters after sending a reply or not: one more attempt, and one more
      success when the link delivers. */
  function Sent(c: Counters, sent: bool, link: Link): Counters
  {
    if sent then c.(times := c.times + 1, succ := c.succ + if link.delivered then 1 else 0) else c
  }

  /** The case split on the command, with `C_REQ` falling through into `C_SET`.
      Only internal and presentation messages are answered, and a command outside
      the four changes nothing. */
  function Route(n: Node, m: Message, link: Link): (r: (Node, Option<Transmission>))
    requires FullPayload(m)
    ensures r.0.radio.counters == Sent(n.radio.counters, r.1.Some?, link)
    ensures m.command != C_INTERNAL && m.command != C_PRESENTATION ==> r.1.None? && r.0.radio == n.radio
    ensures m.command !in {C_INTERNAL, C_PRESENTATION, C_REQ, C_SET} ==> r == (n, None)
  {
    if m.command == C_INTERNAL then IdResponse(n, m, link)
    else if m.command == C_PRESENTATION then PresentationAck(n, m, link)
    else if m.command == C_REQ then (n.(store := SetAck(RingAck(n.store, m), m)), None)
    else if m.command == C_SET then (n.(store := SetAck(n.store, m)), None)
    else (n, None)
  }

  /** Frames shorter than the header or longer than the maximum message length. */
  predicate BadLength(f: Frame)
  {
    f.length < HEADER_SIZE || f.length > MAX_MESSAGE_LENGTH
  }

  /** `ProcessReceive`: `valid` is the radio's `isValid`, `frame` what `available` and
      `receive` deliver, `link` the fate of a reply. */
  function ProcessReceive(n: Node, valid: bool, frame: Option<Frame>, link: Link): (r: Received)
    requires frame.Some? ==> FullPayload(frame.value.msg)
    ensures !valid || frame.None? ==> r == Received(n, false, None)
    ensures r.ok <==> valid && frame.Some? && !BadLength(frame.value)
    ensures valid && frame.Some? && BadLength(frame.value) ==>
              r == Received(n.(radio := n.radio.(buffer := frame.value.msg)), false, None)
    ensures r.ok ==> r.node.radio.counters.received == n.radio.counters.received + 1
    ensures r.node.radio.counters.times == n.radio.counters.times + (if r.sent.Some? then 1 else 0)
    ensures r.node.radio.counters.succ
            == n.radio.counters.succ + (if r.sent.Some? && link.delivered then 1 else 0)
  {
    if !valid || frame.None? then Received(n, false, None)
    else
      var f := frame.value;
      var radio := n.radio.(buffer := f.msg);
      if BadLength(f) then Received(n.(radio := radio), false, None)
      else
        var radio := radio.(counters := radio.counters.(received := radio.counters.received + 1));
        var routed := Route(Node(radio, n.store), f.msg, link);
        Received(routed.0, true, routed.1)
  }

  //--------------------------------------------------------------------------
  // Properties
  //--------------------------------------------------------------------------

  /** Receiving keeps `_succ <= _times`. */
  lemma ReceiveKeepsCountersSound(n: Node, valid: bool, frame: Option<Frame>, link: Link)
    requires frame.Some? ==> FullPayload(frame.value.msg)
    requires CountersSound(n.radio.counters)
    ensures CountersSound(ProcessReceive(n, valid, frame, link).node.radio.counters)
  {
  }

  /** A request acknowledgement for a switch, brightness or colour temperature updates
      the store exactly as the matching set acknowledgement does, and neither sends. */
  lemma RequestAckFallsThrough(n: Node, m: Message, link: Link)
    requires CommandsDistinct() && ValueTypesDistinct()
    requires FullPayload(m) && m.mtype != V_RGBW
    ensures Route(n, m.(command := C_REQ), link) == Route(n, m.(command := C_SET), link)
  {
  }

  /** After an acknowledged presentation the remote counts as present exactly when
      the token it was given is non-zero. */
  lemma PresentAfterAck(n: Node, m: Message, link: Link)
    requires FullPayload(m) && (m.mtype == S_LIGHT || m.mtype == S_DIMMER) && m.ack
    ensures GetPresent(PresentationAck(n, m, link).0.store.config) <==> GetUInt(m) != 0
  {
    var r := PresentationAck(n, m, link);
    assert r.0.store.config.token == GetUInt(m);
  }

  /** Only id responses and presentation acknowledgements answer or touch the radio
      and the configuration; the other commands write the device status alone. */
  lemma StatusCommandsQuiet(n: Node, m: Message, link: Link)
    requires FullPayload(m) && m.command != C_INTERNAL && m.command != C_PRESENTATION
    ensures var r := Route(n, m, link);
            r.1.None? && r.0.radio == n.radio && r.0.store.config == n.store.config
            && r.0.store.changed == n.store.changed
  {
    var s := n.store;
    if m.command == C_REQ {
      assert LampOf(RingAck(s, m)).config == s.config;
      assert LampOf(SetAck(RingAck(s, m), m)).config == s.config;
    } else if m.command == C_SET {
      assert LampOf(SetAck(s, m)).config == s.config;
    }
  }

  /** An id response is committed exactly when `AcceptsId` holds; committing sets
      the address, the node id and the network id together. */
  lemma IdCommittedOnlyWhenAccepted(n: Node, m: Message, link: Link)
    requires FullPayload(m) && m.command == C_INTERNAL
    ensures var r := Route(n, m, link).0;
            r.store.config.nodeId == m.sensor && r.radio.address.node == m.sensor
            && r.store.config.networkId == GetUInt64(m) && r.radio.address.network == GetUInt64(m)
            <== AcceptsId(n, m)
    ensures !AcceptsId(n, m) ==> Route(n, m, link) == (n, None)
  {
  }
}
