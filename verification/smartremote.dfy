/** The system object of the remote: its status code, the decision taken when the
    RF network is (re)joined, and the helpers that drive a lamp by building a
    command string and handing it to the RF24 client.

    Each helper is checked against the codec: the string it formats splits back into
    the intended node, template and payload, so it reaches the intended template. */
module SmartRemote {
  import opened Arduino
  import opened Common
  import opened MySensors
  import opened Options
  import opened RF24Client
  import Config

  //--------------------------------------------------------------------------
  // Status
  //--------------------------------------------------------------------------

  /** `SetStatus`: codes above `STATUS_ERR` are refused and the status is kept. */
  function SetStatus(status: byte, st: byte): (r: (byte, bool))
    ensures r.1 <==> st <= STATUS_ERR
    ensures r.1 ==> r.0 == st
    ensures !r.1 ==> r.0 == status
  {
    if st > STATUS_ERR then (status, false) else (st, true)
  }

  /** A status that is one of the codes stays one of the codes. */
  lemma SetStatusKeepsCode(status: byte, st: byte)
    requires status <= STATUS_ERR
    ensures SetStatus(status, st).0 in StatusCodes
  {
    StatusCodesDense();
    var r := SetStatus(status, st).0;
    assert StatusCodes[r] == r;
  }

  //--------------------------------------------------------------------------
  // Command strings
  //--------------------------------------------------------------------------

  /** `"%s:%s"` and `"%s:%s:%s"`. */
  function Fields2(a: string, b: string): string
  {
    a + ":" + b
  }

  function Fields3(a: string, b: string, c: string): string
  {
    a + ":" + b + ":" + c
  }

  /** `"%d:7:%d"`: switch `dev` on (1) or off (0). */
  function SwitchCommand(sw: bool, dev: byte): string
  {
    Fields3(FormatDecimal(dev), "7", FormatDecimal(if sw then 1 else 0))
  }

  /** `"%d:12"`: ask `dev` for its ring state. */
  function LampStatusCommand(dev: byte): string
  {
    Fields2(FormatDecimal(dev), "12")
  }

  /** `"%d:9:%d"`: brightness. */
  function BrightnessCommand(br: byte, dev: byte): string
  {
    Fields3(FormatDecimal(dev), "9", FormatDecimal(br))
  }

  /** `"%d:11:%d"`: colour temperature. */
  function CCTCommand(cct: uint16, dev: byte): string
  {
    Fields3(FormatDecimal(dev), "11", FormatDecimal(cct))
  }

  /** `"%d:13:%d:%d"`: brightness and colour temperature together. */
  function BrightnessCCTCommand(br: byte, cct: uint16, dev: byte): string
  {
    Fields3(FormatDecimal(dev), "13", Fields2(FormatDecimal(br), FormatDecimal(cct)))
  }

  const RegisterCommand: string := "0:1"
  const PresentationCommand: string := "0:2"

  /** Splitting `node:template:payload`, with both numbers written in digits, gives
      its parts back. */
  lemma SplitDigits3(d: string, dev: byte, t: string, tv: byte, payload: string)
    requires |d| > 0 && AllDigits(d) && AtoI(d) == dev
    requires |t| > 0 && AllDigits(t) && AtoI(t) == tv
    ensures SplitCommand(Fields3(d, t, payload)) == CommandLine(dev, tv, payload)
  {
    DigitsHaveNo(d, ':');
    DigitsHaveNo(t, ':');
    assert ToByte(AtoI(d)) == dev && ToByte(AtoI(t)) == tv;
    SplitThreeFields(d, t, payload);
  }

  lemma SplitDigits2(d: string, dev: byte, t: string, tv: byte)
    requires |d| > 0 && AllDigits(d) && AtoI(d) == dev
    requires |t| > 0 && AllDigits(t) && AtoI(t) == tv
    ensures SplitCommand(Fields2(d, t)) == CommandLine(dev, tv, "")
  {
    DigitsHaveNo(d, ':');
    DigitsHaveNo(t, ':');
    assert ToByte(AtoI(d)) == dev && ToByte(AtoI(t)) == tv;
    SplitTwoFields(d, t);
  }

  lemma SplitFormatted3(dev: byte, t: string, tv: byte, payload: string)
    requires |t| > 0 && AllDigits(t) && AtoI(t) == tv
    ensures SplitCommand(Fields3(FormatDecimal(dev), t, payload)) == CommandLine(dev, tv, payload)
  {
    FormatDecimalRoundTrip(dev);
    SplitDigits3(FormatDecimal(dev), dev, t, tv, payload);
  }

  lemma SplitFormatted2(dev: byte, t: string, tv: byte)
    requires |t| > 0 && AllDigits(t) && AtoI(t) == tv
    ensures SplitCommand(Fields2(FormatDecimal(dev), t)) == CommandLine(dev, tv, "")
  {
    FormatDecimalRoundTrip(dev);
    SplitDigits2(FormatDecimal(dev), dev, t, tv);
  }

  /** The strings the helpers format reach the intended node, template and payload. */
  lemma SwitchRoundTrip(sw: bool, dev: byte)
    ensures SplitCommand(SwitchCommand(sw, dev)) == CommandLine(dev, 7, if sw then "1" else "0")
  {
    AtoIDecimal("7");
    assert FormatDecimal(if sw then 1 else 0) == if sw then "1" else "0";
    SplitFormatted3(dev, "7", 7, FormatDecimal(if sw then 1 else 0));
  }

  lemma LampStatusRoundTrip(dev: byte)
    ensures SplitCommand(LampStatusCommand(dev)) == CommandLine(dev, 12, "")
  {
    AtoIDecimal("12");
    SplitFormatted2(dev, "12", 12);
  }

  lemma BrightnessRoundTrip(br: byte, dev: byte)
    ensures SplitCommand(BrightnessCommand(br, dev)) == CommandLine(dev, 9, FormatDecimal(br))
  {
    AtoIDecimal("9");
    SplitFormatted3(dev, "9", 9, FormatDecimal(br));
  }

  lemma CCTRoundTrip(cct: uint16, dev: byte)
    ensures SplitCommand(CCTCommand(cct, dev)) == CommandLine(dev, 11, FormatDecimal(cct))
  {
    AtoIDecimal("11");
    SplitFormatted3(dev, "11", 11, FormatDecimal(cct));
  }

  lemma BrightnessCCTRoundTrip(br: byte, cct: uint16, dev: byte)
    ensures SplitCommand(BrightnessCCTCommand(br, cct, dev))
            == CommandLine(dev, 13, Fields2(FormatDecimal(br), FormatDecimal(cct)))
  {
    AtoIDecimal("13");
    SplitFormatted3(dev, "13", 13, Fields2(FormatDecimal(br), FormatDecimal(cct)));
  }

  lemma FixedCommandsRoundTrip()
    ensures SplitCommand(RegisterCommand) == CommandLine(0, 1, "")
    ensures SplitCommand(PresentationCommand) == CommandLine(0, 2, "")
  {
    AtoIDecimal("0");
    AtoIDecimal("1");
    AtoIDecimal("2");
    assert RegisterCommand == Fields2("0", "1");
    assert PresentationCommand == Fields2("0", "2");
    SplitDigits2("0", 0, "1", 1);
    SplitDigits2("0", 0, "2", 2);
  }

  //--------------------------------------------------------------------------
  // Sending
  //--------------------------------------------------------------------------

  /** `DevSoftSwitch`: a `V_STATUS` set to `dev` carrying 1 or 0. */
  function DevSoftSwitch(radio: Radio, config: Config.Config, link: Link, sw: bool, dev: byte): (r: SendResult)
    ensures r.ok == link.delivered && r.sent.Some?
    ensures var m := r.sent.value.msg;
            m.destination == dev && m.command == C_SET && m.mtype == V_STATUS && m.requestAck
            && m.payload == [if sw then 1 else 0]
  {
    SwitchRoundTrip(sw, dev);
    Template7Switch(radio, SplitCommand(SwitchCommand(sw, dev)), link);
    ProcessSend(radio, config, SwitchCommand(sw, dev), link)
  }

  /** `SendReqLampStatus`: a `V_RGBW` request for all rings of `dev`. */
  function SendReqLampStatus(radio: Radio, config: Config.Config, link: Link, dev: byte): (r: SendResult)
    ensures r.ok == link.delivered && r.sent.Some?
    ensures var m := r.sent.value.msg;
            m.destination == dev && m.command == C_REQ && m.mtype == V_RGBW && m.payload == [RING_ID_ALL]
    ensures r.radio.address == radio.address
    ensures r.radio.counters == radio.counters.(times := radio.counters.times + 1,
                                                succ := radio.counters.succ + if link.delivered then 1 else 0)
  {
    LampStatusRoundTrip(dev);
    Template12RingRequest(radio, SplitCommand(LampStatusCommand(dev)), link);
    ProcessSend(radio, config, LampStatusCommand(dev), link)
  }

  /** `SendChangeBrightness`: the brightness arrives clamped to 100. */
  function SendChangeBrightness(radio: Radio, config: Config.Config, link: Link, br: byte, dev: byte): (r: SendResult)
    ensures r.ok == link.delivered && r.sent.Some?
    ensures var m := r.sent.value.msg;
            m.destination == dev && m.command == C_SET && m.mtype == V_PERCENTAGE
            && m.payload == [if br > 100 then 100 else br]
  {
    BrightnessRoundTrip(br, dev);
    FormatDecimalRoundTrip(br);
    Template9Brightness(radio, SplitCommand(BrightnessCommand(br, dev)), link);
    ProcessSend(radio, config, BrightnessCommand(br, dev), link)
  }

  /** `SendChangeCCT`: the colour temperature arrives clamped to [2700, 6500]. */
  function SendChangeCCT(radio: Radio, config: Config.Config, link: Link, cct: uint16, dev: byte): (r: SendResult)
    ensures r.ok == link.delivered && r.sent.Some?
    ensures var m := r.sent.value.msg;
            m.destination == dev && m.command == C_SET && m.mtype == V_LEVEL
            && FromLittleEndian(m.payload) == Constrain(cct, CT_MIN_VALUE, CT_MAX_VALUE)
  {
    CCTRoundTrip(cct, dev);
    FormatDecimalRoundTrip(cct);
    Template11ColourTemperature(radio, SplitCommand(CCTCommand(cct, dev)), link);
    ProcessSend(radio, config, CCTCommand(cct, dev), link)
  }

  /** `SendChangeBR_CCT`: `[1, br, cct low, cct high]` with the colour temperature
      clamped and the brightness as given. */
  function SendChangeBrightnessCCT(radio: Radio, config: Config.Config, link: Link, br: byte, cct: uint16, dev: byte)
    : (r: SendResult)
    ensures r.ok == link.delivered && r.sent.Some?
    ensures var m := r.sent.value.msg;
            var k := Constrain(cct, CT_MIN_VALUE, CT_MAX_VALUE);
            m.destination == dev && m.command == C_SET && m.mtype == V_RGBW
            && m.payload == [1, br, k % 256, k / 256]
  {
    BrightnessCCTRoundTrip(br, cct, dev);
    BrightnessCCTPayload(SplitCommand(BrightnessCCTCommand(br, cct, dev)), br, cct);
    Template13Known(radio, link, SplitCommand(BrightnessCCTCommand(br, cct, dev)), br, cct);
    ProcessSend(radio, config, BrightnessCCTCommand(br, cct, dev), link)
  }

  lemma BrightnessCCTPayload(c: CommandLine, br: byte, cct: uint16)
    requires c.payload == FormatDecimal(br) + ":" + FormatDecimal(cct)
    ensures var k := Constrain(cct, CT_MIN_VALUE, CT_MAX_VALUE);
            Template13Payload(c.payload) == [1, br, k % 256, k / 256]
  {
    ByteFits(br);
    Template13Split(br, cct);
  }

  lemma Template13Known(radio: Radio, link: Link, c: CommandLine, br: byte, cct: uint16)
    requires c.template == 13
    requires var k := Constrain(cct, CT_MIN_VALUE, CT_MAX_VALUE);
             Template13Payload(c.payload) == [1, br, k % 256, k / 256]
    ensures var p := Prepare(radio, c, link);
            var k := Constrain(cct, CT_MIN_VALUE, CT_MAX_VALUE);
            p.Ready? && p.msg.destination == c.node && p.msg.command == C_SET && p.msg.mtype == V_RGBW
            && p.msg.payload == [1, br, k % 256, k / 256]
  {
    PrepareTemplate13(radio, c, link);
  }



  /** `SendDeviceRegister`: asks for a node id; nothing is sent while the own
      address is the gateway's. */
  function SendDeviceRegister(radio: Radio, config: Config.Config, link: Link): (r: SendResult)
    ensures radio.address.node == GATEWAY_ADDRESS <==> r.sent.None?
    ensures r.sent.None? ==> r.radio == radio && !r.ok
    ensures ProtocolAssumptions() && r.sent.Some? ==>
              var m := r.sent.value.msg;
              r.radio.address.node == AUTO && m.command == C_INTERNAL && m.mtype == I_ID_REQUEST
              && m.destination == BASESERVICE_ADDRESS
  {
    FixedCommandsRoundTrip();
    RegisterPrepared(radio, SplitCommand(RegisterCommand), link);
    ProcessSend(radio, config, RegisterCommand, link)
  }

  lemma RegisterPrepared(radio: Radio, c: CommandLine, link: Link)
    requires c.template == 1
    ensures ProtocolAssumptions() && radio.address.node != GATEWAY_ADDRESS ==>
              var p := Prepare(radio, c, link);
              p.Ready? && p.address.node == AUTO && p.msg.command == C_INTERNAL && p.msg.mtype == I_ID_REQUEST
              && p.msg.destination == BASESERVICE_ADDRESS
  {
    if ProtocolAssumptions() && radio.address.node != GATEWAY_ADDRESS {
      Template1RequestsId(radio, c, link);
    }
  }

  /** `SendDevicePresentation`: presents the remote to the gateway (node 0). */
  function SendDevicePresentation(radio: Radio, config: Config.Config, link: Link): (r: SendResult)
    ensures r.ok == link.delivered && r.sent.Some?
    ensures r.radio.address == radio.address
    ensures r.radio.counters == radio.counters.(times := radio.counters.times + 1,
                                                succ := radio.counters.succ + if link.delivered then 1 else 0)
    ensures var m := r.sent.value.msg;
            m.sender == radio.address.node && m.destination == NODEID_GATEWAY
            && m.command == C_PRESENTATION && m.mtype == S_DIMMER && m.requestAck
            && FromLittleEndian(m.payload) == MacNetworkId(link.mac, true)
  {
    FixedCommandsRoundTrip();
    Template2Presentation(radio, SplitCommand(PresentationCommand), link);
    ProcessSend(radio, config, PresentationCommand, link)
  }

  //--------------------------------------------------------------------------
  // Joining the network
  //--------------------------------------------------------------------------

  /** `ResumeRFNetwork`: without a node id in the remote range, register; with one,
      take the stored address and present the remote. */
  function ResumeRFNetwork(radio: Radio, config: Config.Config, link: Link): (r: SendResult)
    ensures IsNotRemoteNodeId(config.nodeId) ==> r == SendDeviceRegister(radio, config, link)
    ensures !IsNotRemoteNodeId(config.nodeId) ==>
              r.sent.Some? && r.radio.address == Address(config.nodeId, config.networkId)
              && r.sent.value.msg.sender == config.nodeId && r.sent.value.msg.command == C_PRESENTATION
  {
    if IsNotRemoteNodeId(config.nodeId) then SendDeviceRegister(radio, config, link)
    else SendDevicePresentation(radio.(address := Address(config.nodeId, config.networkId)), config, link)
  }

  /** A remote with a node id in its range never asks for a new one; one without
      asks the base service (unless its address is the gateway's). */
  lemma ResumeRegistersOnlyWithoutId(radio: Radio, config: Config.Config, link: Link)
    requires ProtocolAssumptions() && radio.address.node != GATEWAY_ADDRESS
    ensures var r := ResumeRFNetwork(radio, config, link);
            r.sent.Some? && (r.sent.value.msg.mtype == I_ID_REQUEST && r.sent.value.msg.command == C_INTERNAL
                             <== IsNotRemoteNodeId(config.nodeId))
    ensures !IsNotRemoteNodeId(config.nodeId) ==>
              ResumeRFNetwork(radio, config, link).sent.value.msg.command == C_PRESENTATION
  {
  }
}
