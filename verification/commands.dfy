/** The console's command handlers and one scan of the command table.

    A console line is given as its first word and the words after it (the
    tokenizer of the base class is not part of this model); `next()` returning
    NULL is `None` here. Where the firmware hands a NULL token to `strlen`, `atoi`
    or a `String`, the model reads it as the empty string.

    Platform actions (Wi-Fi, ping, DNS, the ASR module, resets, the clock, the base
    network switch of the transport) are not performed: a handler returns them as
    an `Effect`, together with its result and the new state. */
module ConsoleCommands {
  import opened Arduino
  import opened Options
  import opened RF24Client
  import opened ConsoleTable
  import opened SerialConsole
  import Config
  import CloudTime
  import Router

  //--------------------------------------------------------------------------
  // Machine, inputs and results
  //--------------------------------------------------------------------------

  /** The console together with the radio and the configuration store it drives. */
  datatype Machine = Machine(console: Console, node: Router.Node)

  /** The inputs a command may consult: the link layer for a send, the time-zone
      offset in minutes that `set tz` computes from its argument with `atof`, and
      the current clock fields for `set time`. */
  datatype Env = Env(link: Link, tzMinutes: int16, now: CloudTime.DateTime)

  /** The system actions of `sys`. */
  datatype SysAction = Restart | SafeMode | FirmwareUpdateMode | ResetSerialPort | SwitchToBase | SwitchToPrivate

  /** What a handler asks the platform to do. A ping goes to the address `String2IP`,
      as written, made of its argument, and only when it made one. */
  datatype Effect =
    | NoEffect
    | RadioSent(sent: Option<Transmission>)
    | Clock(time: CloudTime.TimeResult)
    | BaseNetwork(enabled: bool)
    | PingHost(target: IpResult)
    | AsrCommand(code: int)
    | NewCredential(credential: Option<Credential>)
    | System(action: SysAction)

  /** One scan of the command table: the machine afterwards, the handler's result
      and its effect. */
  datatype Outcome = Outcome(m: Machine, ok: bool, effect: Effect)

  /** `next()`: the following word, if any. */
  function Next(args: seq<string>): (r: Option<string>)
    ensures r.Some? <==> |args| > 0
    ensures r.Some? ==> r.value == args[0]
  {
    if |args| == 0 then None else Some(args[0])
  }

  /** The words after the one `next()` returns. */
  function Rest(args: seq<string>): (r: seq<string>)
    ensures |args| > 0 ==> [args[0]] + r == args
    ensures |args| == 0 ==> r == []
  {
    if |args| == 0 then [] else args[1..]
  }

  /** What a handler may do to the console: write the cloud message, and only while
      a cloud command runs. */
  predicate OutputOnly(c: Console, d: Console)
  {
    d == c.(lastMsg := d.lastMsg)
    && (d.lastMsg == c.lastMsg || (c.inCloud && |d.lastMsg| <= CLOUD_MSG_MAX))
  }

  //--------------------------------------------------------------------------
  // Topics
  //--------------------------------------------------------------------------

  /** The first entry of a `strnicmp` chain whose pattern starts `s`, ignoring case. */
  function FirstPrefix<T>(s: string, table: seq<(string, T)>, from: nat): (r: Option<nat>)
    ensures r.Some? ==> from <= r.value < |table| && StartsWithIgnoreCase(s, table[r.value].0)
    ensures r.Some? ==> forall j :: from <= j < r.value ==> !StartsWithIgnoreCase(s, table[j].0)
    ensures r.None? ==> forall j :: from <= j < |table| ==> !StartsWithIgnoreCase(s, table[j].0)
    decreases |table| - from
  {
    if from >= |table| then None
    else if StartsWithIgnoreCase(s, table[from].0) then Some(from)
    else FirstPrefix(s, table, from + 1)
  }

  /** The branch a `strnicmp` chain takes on an optional word: a missing word and a
      word no pattern starts take the last branch. */
  function TopicOf<T>(w: Option<string>, table: seq<(string, T)>, otherwise: T): (r: T)
    ensures w.None? ==> r == otherwise
    ensures w.Some? && (forall i :: 0 <= i < |table| ==> !StartsWithIgnoreCase(w.value, table[i].0)) ==> r == otherwise
    ensures forall i ::
              (0 <= i < |table| && w.Some? && StartsWithIgnoreCase(w.value, table[i].0)
               && forall j :: 0 <= j < i ==> !StartsWithIgnoreCase(w.value, table[j].0))
              ==> r == table[i].1
  {
    if w.None? then otherwise
    else match FirstPrefix(w.value, table, 0)
      case Some(i) => table[i].1
      case None => otherwise
  }

  /** With no pattern leading to `otherwise`, the chain takes a named branch
      exactly when some pattern starts the word. */
  lemma TopicKnown<T>(w: Option<string>, table: seq<(string, T)>, otherwise: T)
    requires forall i :: 0 <= i < |table| ==> table[i].1 != otherwise
    ensures TopicOf(w, table, otherwise) != otherwise
            <==> w.Some? && exists i :: 0 <= i < |table| && StartsWithIgnoreCase(w.value, table[i].0)
  {
    if w.Some? && FirstPrefix(w.value, table, 0).Some? {
      var i := FirstPrefix(w.value, table, 0).value;
      assert StartsWithIgnoreCase(w.value, table[i].0);
    }
  }

  datatype SetTopic = SetTz | SetDst | SetTime | SetDate | SetNodeId | SetBase | SetSpkr | SetOther
  datatype TestTopic = TestPing | TestSend | TestAsr | TestOther
  datatype ActionTopic = LightOn | LightOff | LightColor | ActionOther
  datatype CheckTopic = CheckRf | CheckWifi | CheckWlan | CheckFlash | CheckOther
  datatype ShowTopic =
    | ShowNet | ShowNode | ShowDev | ShowBle | ShowRf | ShowTime | ShowVar | ShowFlag | ShowVersion | ShowOther
  datatype SysTopic =
    | SysReset | SysSafe | SysDfu | SysUpdate | SysSerial | SysSync | SysClear | SysBase | SysPrivate | SysOther

  /** The tests of `doSet`, in order. */
  function SetTopics(): seq<(string, SetTopic)>
  {
    [("tz", SetTz), ("dst", SetDst), ("time", SetTime), ("date", SetDate),
     ("nodeid", SetNodeId), ("base", SetBase), ("spkr", SetSpkr)]
  }

  /** The tests of `doTest`. */
  function TestTopics(): seq<(string, TestTopic)>
  {
    [("ping", TestPing), ("send", TestSend), ("asr", TestAsr)]
  }

  /** The tests of `doAction`. */
  function ActionTopics(): seq<(string, ActionTopic)>
  {
    [("on", LightOn), ("off", LightOff), ("color", LightColor)]
  }

  /** The tests of `doCheck`. */
  function CheckTopics(): seq<(string, CheckTopic)>
  {
    [("rf", CheckRf), ("wifi", CheckWifi), ("wlan", CheckWlan), ("flash", CheckFlash)]
  }

  /** The tests of `doShow`. */
  function ShowTopics(): seq<(string, ShowTopic)>
  {
    [("net", ShowNet), ("node", ShowNode), ("dev", ShowDev), ("ble", ShowBle), ("rf", ShowRf),
     ("time", ShowTime), ("var", ShowVar), ("flag", ShowFlag), ("version", ShowVersion)]
  }

  /** The tests of `doSysSub`, made on the word of the table row that ran it. */
  function SysTopics(): seq<(string, SysTopic)>
  {
    [("reset", SysReset), ("safe", SysSafe), ("dfu", SysDfu), ("update", SysUpdate), ("serial", SysSerial),
     ("sync", SysSync), ("clear", SysClear), ("base", SysBase), ("private", SysPrivate)]
  }

  function SetTopicOf(w: Option<string>): SetTopic { TopicOf(w, SetTopics(), SetOther) }

  //--------------------------------------------------------------------------
  // help
  //--------------------------------------------------------------------------

  /** The cloud messages of the handlers: the short help of `showThisHelp` and the
      confirmations of `set` and `sys`. */
  datatype Reply =
    | HelpCheck | HelpShow | HelpPing | HelpDo | HelpTest | HelpSend | HelpSet | HelpSetFlag | HelpSetVar
    | HelpSetSpkr | HelpSys | HelpCommands
    | DstOff | DstOn | SpeakerOn | SpeakerOff
    | ResetNotice | SafeNotice | DfuNotice | ToBase | ToPrivate

  function ReplyText(reply: Reply): string
  {
    match reply
    case HelpCheck => "check ble|flash|rf|wifi|wlan"
    case HelpShow => "show ble|debug|dev|flag|net|node|rf|time|var|table|version"
    case HelpPing => "ping <address>"
    case HelpDo => "do on|off|color"
    case HelpTest => "test ping|send"
    case HelpSend => "send <message> or <NodeId:MessageId>"
    case HelpSet => "set tz|dst|nodeid|base|spkr|flag|var|debug"
    case HelpSetFlag => "set flag csc|cdts"
    case HelpSetVar => "set var senmap|devst|rfpl"
    case HelpSetSpkr => "set spkr 0|1"
    case HelpSys => "sys base|private|reset|safe|setup|dfu|update|serial|sync|clear"
    case HelpCommands => "check, show, ping, do, test, send, set, sys, help or ?"
    case DstOff => "Daylight Saving Time: 0"
    case DstOn => "Daylight Saving Time: 1"
    case SpeakerOn => "Speaker is enabled"
    case SpeakerOff => "Speaker is disabled"
    case ResetNotice => "System is about to reset"
    case SafeNotice => "System is about to enter safe mod"
    case DfuNotice => "System is about to enter DFU mode"
    case ToBase => "Switched to base network"
    case ToPrivate => "Switched to private network"
  }

  /** The sub-topics of `help set`. */
  function SetHelpTopics(): seq<(string, Option<Reply>)>
  {
    [("flag", Some(HelpSetFlag)), ("var", Some(HelpSetVar)), ("spkr", Some(HelpSetSpkr))]
  }

  /** The topics `showThisHelp` has a text of its own for. */
  const HelpTopics: seq<string> := ["check", "show", "ping", "do", "test", "send", "set", "sys"]

  /** `showThisHelp`: the short help the cloud gets for a lower-cased topic. `set`
      reads one more word for a sub-topic, and a sub-topic it does not know has no
      help; any other unknown topic gets the list of commands. */
  function HelpSummary(topic: string, sub: Option<string>): (r: Option<Reply>)
    ensures r.None? ==> topic == "set" && sub.Some?
    ensures topic !in HelpTopics ==> r == Some(HelpCommands)
  {
    if topic == "check" then Some(HelpCheck)
    else if topic == "show" then Some(HelpShow)
    else if topic == "ping" then Some(HelpPing)
    else if topic == "do" then Some(HelpDo)
    else if topic == "test" then Some(HelpTest)
    else if topic == "send" then Some(HelpSend)
    else if topic == "set" then
      if sub.None? then Some(HelpSet) else TopicOf(sub, SetHelpTopics(), None)
    else if topic == "sys" then Some(HelpSys)
    else Some(HelpCommands)
  }

  /** `doHelp`: the topic is the next word, or else the word that ran the handler. */
  function HelpCommand(m: Machine, cmd: string, args: seq<string>): (r: Outcome)
    ensures r.ok && r.effect == NoEffect && r.m.node == m.node
    ensures OutputOnly(m.console, r.m.console)
  {
    match HelpSummary(Lower(Next(args).GetOr(cmd)), Next(Rest(args)))
    case Some(reply) => Outcome(m.(console := CloudOutput(m.console, ReplyText(reply))), true, NoEffect)
    case None => Outcome(m, true, NoEffect)
  }

  //--------------------------------------------------------------------------
  // check, show, ping, do
  //--------------------------------------------------------------------------

  /** `doCheck`: true for a known object; the readings it prints come from the
      platform and are not modelled. */
  function CheckCommand(m: Machine, args: seq<string>): (r: Outcome)
    ensures r.m == m && r.effect == NoEffect
    ensures r.ok <==> TopicOf(Next(args), CheckTopics(), CheckOther) != CheckOther
    ensures r.ok <==> |args| > 0 && exists i :: 0 <= i < |CheckTopics()| && StartsWithIgnoreCase(args[0], CheckTopics()[i].0)
  {
    TopicKnown(Next(args), CheckTopics(), CheckOther);
    Outcome(m, TopicOf(Next(args), CheckTopics(), CheckOther) != CheckOther, NoEffect)
  }

  /** `doShow`: true for a known object; what it prints is not modelled. */
  function ShowCommand(m: Machine, args: seq<string>): (r: Outcome)
    ensures r.m == m && r.effect == NoEffect
    ensures r.ok <==> TopicOf(Next(args), ShowTopics(), ShowOther) != ShowOther
    ensures r.ok <==> |args| > 0 && exists i :: 0 <= i < |ShowTopics()| && StartsWithIgnoreCase(args[0], ShowTopics()[i].0)
  {
    TopicKnown(Next(args), ShowTopics(), ShowOther);
    Outcome(m, TopicOf(Next(args), ShowTopics(), ShowOther) != ShowOther, NoEffect)
  }

  /** `PingAddress`: the target is what `String2IP`, as written, makes of the
      address; a missing address is the empty text, which means 8.8.8.8. */
  function PingTarget(address: Option<string>): (r: IpResult)
    ensures address.None? ==> r == Ip(8, 8, 8, 8)
  {
    SerialConsole.String2IPAsWritten(address.GetOr(""))
  }

  /** `doPing`: always true. */
  function PingCommand(m: Machine, args: seq<string>): (r: Outcome)
    ensures r.m == m && r.ok
    ensures r.effect.PingHost? && r.effect.target == SerialConsole.String2IPAsWritten(Next(args).GetOr(""))
  {
    Outcome(m, true, PingHost(PingTarget(Next(args))))
  }

  /** An address with three dots is pinged as the corrected parser reads it. */
  lemma PingDottedQuad(m: Machine, s: string)
    requires AddressChars(s) && 6 < |s| <= SerialConsole.STRING_MAX
    requires Segment(s, 0).Some? && Segment(s, Segment(s, 0).value.1).Some?
    requires Segment(s, Segment(s, Segment(s, 0).value.1).value.1).Some?
    ensures PingCommand(m, [s]).effect == PingHost(String2IP(s))
  {
    SerialConsole.AsWrittenAgreesWithThreeDots(s);
  }

  /** A byte, a dot and a number of five digits or more are pinged as an address
      repeating the two, where the corrected parser gives no address. */
  lemma PingOneDot(m: Machine, a: byte, n: nat)
    requires 10000 <= n <= LONG_MAX
    ensures var s := FormatDecimal(a) + "." + FormatDecimal(n);
            && PingCommand(m, [s]).effect == PingHost(Ip(a, ToByte(n), a, ToByte(n)))
            && String2IP(s) == NotAnAddress
  {
    SerialConsole.OneDotNumber(a, n);
  }

  /** `doAction`: the light actions are still empty; true for a known one. */
  function ActionCommand(m: Machine, args: seq<string>): (r: Outcome)
    ensures r.m == m && r.effect == NoEffect
    ensures r.ok <==> TopicOf(Next(args), ActionTopics(), ActionOther) != ActionOther
    ensures r.ok <==> |args| > 0 && exists i :: 0 <= i < |ActionTopics()| && StartsWithIgnoreCase(args[0], ActionTopics()[i].0)
  {
    TopicKnown(Next(args), ActionTopics(), ActionOther);
    Outcome(m, TopicOf(Next(args), ActionTopics(), ActionOther) != ActionOther, NoEffect)
  }

  //--------------------------------------------------------------------------
  // send, test
  //--------------------------------------------------------------------------

  /** `doSend`: a message of three characters or more is handed to `ProcessSend`, and
      the command succeeds whether or not the message was built and delivered. */
  function SendCommand(m: Machine, args: seq<string>, env: Env): (r: Outcome)
    ensures r.m.console == m.console && r.m.node.store == m.node.store
    ensures r.ok <==> |Next(args).GetOr("")| >= 3
    ensures !r.ok ==> r == Outcome(m, false, NoEffect)
    ensures r.ok ==>
              var s := ProcessSend(m.node.radio, m.node.store.config, Next(args).value, env.link);
              r.m.node.radio == s.radio && r.effect == RadioSent(s.sent)
  {
    var p := Next(args).GetOr("");
    if |p| >= 3 then
      var s := ProcessSend(m.node.radio, m.node.store.config, p, env.link);
      Outcome(m.(node := m.node.(radio := s.radio)), true, RadioSent(s.sent))
    else Outcome(m, false, NoEffect)
  }

  /** `doTest`: `ping` pings, `send` sends, `asr` passes a number to the ASR module. */
  function TestCommand(m: Machine, args: seq<string>, env: Env): (r: Outcome)
    ensures r.m.console == m.console && r.m.node.store == m.node.store
    ensures TopicOf(Next(args), TestTopics(), TestOther) == TestOther ==> r == Outcome(m, false, NoEffect)
    ensures TopicOf(Next(args), TestTopics(), TestOther) == TestAsr ==>
              r.m == m && (r.ok <==> |Next(Rest(args)).GetOr("")| > 0)
              && (r.ok ==> r.effect == AsrCommand(AtoI(Next(Rest(args)).value)))
  {
    var rest := Rest(args);
    match TopicOf(Next(args), TestTopics(), TestOther)
    case TestPing => PingCommand(m, rest)
    case TestSend => SendCommand(m, rest, env)
    case TestAsr =>
      var p := Next(rest).GetOr("");
      if |p| > 0 then Outcome(m, true, AsrCommand(AtoI(p))) else Outcome(m, false, NoEffect)
    case TestOther => Outcome(m, false, NoEffect)
  }

  /** `send` is `test send` without the word `send`. */
  lemma TestSendIsSend(m: Machine, p: string, env: Env)
    ensures TestCommand(m, ["send", p], env) == SendCommand(m, [p], env)
  {
    SendIsTestTopic();
  }

  /** `test ping` is `ping`. */
  lemma TestPingIsPing(m: Machine, rest: seq<string>, env: Env)
    ensures TestCommand(m, ["ping"] + rest, env) == PingCommand(m, rest)
  {
    PingIsTestTopic();
    assert Rest(["ping"] + rest) == rest;
  }

  lemma SendIsTestTopic()
    ensures TopicOf(Some("send"), TestTopics(), TestOther) == TestSend
  {
    assert !StartsWithIgnoreCase("send", "ping") by {
      assert Lower("send")[0] == 's' && Lower("ping")[0] == 'p';
    }
    assert StartsWithIgnoreCase("send", "send");
  }

  lemma PingIsTestTopic()
    ensures TopicOf(Some("ping"), TestTopics(), TestOther) == TestPing
  {
    assert StartsWithIgnoreCase("ping", "ping");
  }

  //--------------------------------------------------------------------------
  // set
  //--------------------------------------------------------------------------

  /** `doSet`. The value is the word after the topic. */
  function SetCommand(m: Machine, args: seq<string>, env: Env): (r: Outcome)
    ensures OutputOnly(m.console, r.m.console)
    ensures r.m.node.radio.counters == m.node.radio.counters
    ensures r.m.node.radio != m.node.radio ==> SetTopicOf(Next(args)) == SetNodeId
    ensures r.m.node.store != m.node.store ==> SetTopicOf(Next(args)) in {SetTz, SetDst, SetSpkr}
    ensures SetTopicOf(Next(args)) == SetOther ==> r == Outcome(m, false, NoEffect)
  {
    var p := Next(Rest(args));
    var n := m.node;
    match SetTopicOf(Next(args))
    case SetTz =>
      if p.None? then Outcome(m, false, NoEffect)
      else Outcome(m.(node := n.(store := Config.SetTimeZoneOffset(n.store, env.tzMinutes).store)), true, NoEffect)
    case SetDst =>
      var flag: byte := if AtoI(p.GetOr("")) == 0 then 0 else 1;
      var c := CloudOutput(m.console, ReplyText(if flag == 0 then DstOff else DstOn));
      Outcome(Machine(c, n.(store := Config.SetDaylightSaving(n.store, flag).store)), true, NoEffect)
    case SetTime =>
      var t := CloudTime.SetCurrentTime(p.GetOr(""), env.now);
      Outcome(m, t.Code() == 0, Clock(t))
    case SetDate =>
      var t := CloudTime.SetCurrentTime(p.GetOr(""), env.now);
      Outcome(m, t.Code() == 0, Clock(t))
    case SetNodeId =>
      if p.None? then Outcome(m, false, NoEffect)
      else
        var (radio, ok) := ChangeNodeID(n.radio, ToByte(CRem(AtoI(p.value), 256)));
        Outcome(m.(node := n.(radio := radio)), ok, NoEffect)
    case SetBase =>
      if p.None? then Outcome(m, false, NoEffect)
      else Outcome(m, true, BaseNetwork(AtoI(p.value) > 0))
    case SetSpkr =>
      if p.None? then Outcome(m, true, NoEffect)
      else
        var on := AtoI(p.value) > 0;
        var c := CloudOutput(m.console, ReplyText(if on then SpeakerOn else SpeakerOff));
        Outcome(Machine(c, n.(store := Config.SetSpeakerEnabled(n.store, on))), true, NoEffect)
    case SetOther => Outcome(m, false, NoEffect)
  }

  /** `set dst v` always succeeds and stores 0 when `v` reads as 0, 1 for any other
      value; a valid configuration stays valid. Without a value the firmware calls
      `atoi(NULL)`, which C leaves undefined; reading the missing word as the empty
      string, the model stores 0 then. */
  lemma SetDstStoresFlag(m: Machine, args: seq<string>, env: Env)
    requires SetTopicOf(Next(args)) == SetDst
    ensures var r := SetCommand(m, args, env);
            && r.ok
            && (|args| > 1 ==> r.m.node.store.config.timeZone.dst == (if AtoI(args[1]) == 0 then 0 else 1))
            && (|args| <= 1 ==> r.m.node.store.config.timeZone.dst == 0)
            && (Config.ConfigValid(m.node.store.config) ==> Config.ConfigValid(r.m.node.store.config))
  {
  }

  /** `set tz` needs a value; an offset within [-780, 780] minutes is stored, any
      other leaves the store as it was, and the command succeeds either way. */
  lemma SetTzNeedsValue(m: Machine, args: seq<string>, env: Env)
    requires SetTopicOf(Next(args)) == SetTz
    ensures var r := SetCommand(m, args, env);
            && (r.ok <==> |args| > 1)
            && (r.ok && -780 <= env.tzMinutes <= 780 ==> r.m.node.store.config.timeZone.offset == env.tzMinutes)
            && (!(-780 <= env.tzMinutes <= 780) ==> r.m.node.store == m.node.store)
  {
  }

  /** `set spkr v` turns the speaker on exactly when `v` reads as a positive number;
      without a value nothing changes, yet the command succeeds. */
  lemma SetSpeakerFollowsValue(m: Machine, args: seq<string>, env: Env)
    requires SetTopicOf(Next(args)) == SetSpkr
    ensures var r := SetCommand(m, args, env);
            && r.ok
            && (|args| > 1 ==> r.m.node.store.config.enableSpeaker == (AtoI(args[1]) > 0))
            && (|args| <= 1 ==> r == Outcome(m, true, NoEffect))
  {
  }

  /** `set nodeid` with a printed byte other than 0 makes it the own address. */
  lemma SetNodeIdTakesByte(m: Machine, args: seq<string>, env: Env, v: byte)
    requires SetTopicOf(Next(args)) == SetNodeId
    requires |args| > 1 && args[1] == FormatDecimal(v) && v != 0
    ensures var r := SetCommand(m, args, env);
            r.ok && r.m.node.radio.address.node == v
  {
    FormatDecimalRoundTrip(v);
    ByteFits(v);
  }

  /** The value is cut to a byte first, so `256` is refused like `0` (unless the own
      address already is 0), and nothing changes. */
  lemma SetNodeIdMultipleOf256(m: Machine, args: seq<string>, env: Env)
    requires SetTopicOf(Next(args)) == SetNodeId
    requires |args| > 1 && AtoI(args[1]) >= 0 && AtoI(args[1]) % 256 == 0
    requires m.node.radio.address.node != 0
    ensures SetCommand(m, args, env) == Outcome(m, false, NoEffect)
  {
    assert Next(Rest(args)) == Some(args[1]);
    assert CRem(AtoI(args[1]), 256) == 0;
    assert ToByte(0) == 0;
  }

  /** `set time` and `set date` succeed exactly when the clock text is accepted; no
      text, or `sync`, asks for a cloud sync. */
  lemma SetTimeResult(m: Machine, args: seq<string>, env: Env)
    requires SetTopicOf(Next(args)) in {SetTime, SetDate}
    ensures var r := SetCommand(m, args, env);
            && r.m == m && r.effect.Clock?
            && (r.ok <==> !r.effect.time.TimeError?)
            && (|args| <= 1 ==> r.effect.time == CloudTime.CloudSync)
  {
    if |args| <= 1 {
      CloudTime.EmptySyncs(env.now);
    }
  }

  //--------------------------------------------------------------------------
  // sys
  //--------------------------------------------------------------------------

  /** `doSysSub`, run by a row of the system menu, whose word is `topic`. A topic it
      does not know succeeds doing nothing. */
  function SysSubCommand(m: Machine, topic: string, args: seq<string>): (r: Outcome)
    ensures OutputOnly(m.console, r.m.console) && r.m.node == m.node
    ensures !r.ok ==> r.effect == NoEffect
  {
    var p := Next(args);
    var c := m.console;
    match TopicOf(Some(topic), SysTopics(), SysOther)
    case SysReset => Outcome(m.(console := CloudOutput(c, ReplyText(ResetNotice))), true, System(Restart))
    case SysSafe => Outcome(m.(console := CloudOutput(c, ReplyText(SafeNotice))), true, System(SafeMode))
    case SysDfu => Outcome(m.(console := CloudOutput(c, ReplyText(DfuNotice))), true, System(FirmwareUpdateMode))
    case SysUpdate => Outcome(m, true, NoEffect)
    case SysSerial =>
      if p.None? then Outcome(m, true, NoEffect)
      else if EqualsIgnoreCase(p.value, "reset") then Outcome(m, true, System(ResetSerialPort))
      else Outcome(m, false, NoEffect)
    case SysSync =>
      if p.None? then Outcome(m, false, NoEffect)
      else if EqualsIgnoreCase(p.value, "time") then Outcome(m, true, Clock(CloudTime.CloudSync))
      else Outcome(m, true, NoEffect)
    case SysClear => Outcome(m, p.Some?, NoEffect)
    case SysBase => Outcome(m.(console := CloudOutput(c, ReplyText(ToBase))), true, System(SwitchToBase))
    case SysPrivate => Outcome(m.(console := CloudOutput(c, ReplyText(ToPrivate))), true, System(SwitchToPrivate))
    case SysOther => Outcome(m, true, NoEffect)
  }

  //--------------------------------------------------------------------------
  // The Wi-Fi handlers
  //--------------------------------------------------------------------------

  /** `SetupWiFi` as a table handler: it only works on the console. */
  function SetupCommand(m: Machine, word: string): (r: Outcome)
    ensures r.ok && r.effect == NoEffect && r.m.node == m.node
    ensures r.m.console == SerialConsole.SetupWiFi(m.console, word).0
  {
    Outcome(m.(console := SerialConsole.SetupWiFi(m.console, word).0), true, NoEffect)
  }

  /** `SetWiFiCredential`, as written, as a table handler: a WPA2/AES credential
      for the recorded SSID and password goes to the platform whatever method was
      selected, the selection becomes 1, and the handler always succeeds. */
  function CredentialCommand(m: Machine): (r: Outcome)
    ensures r.ok && r.m.node == m.node
    ensures r.effect == NewCredential(Some(Secured(m.console.wifi.ssid, m.console.wifi.password, Wpa2Aes)))
    ensures r.m.console == CloudOutput(m.console.(wifi := m.console.wifi.(auth := 1)), Text(CredentialSaved))
  {
    var (c, cr) := SerialConsole.SetWiFiCredentialAsWritten(m.console);
    Outcome(m.(console := c), true, NewCredential(cr))
  }

  //--------------------------------------------------------------------------
  // One scan
  //--------------------------------------------------------------------------

  /** Runs a handler other than `doSys` on a machine already moved to the row's next
      state. `rowWord` is the row's own word, `word` the one typed. */
  function RunHandler(h: Handler, m: Machine, rowWord: string, word: string, args: seq<string>, env: Env): (r: Outcome)
    requires h != DoSys
    ensures r.m.console.state == m.console.state && r.m.console.inCloud == m.console.inCloud
    ensures r.m.console.lastMsg == m.console.lastMsg || (m.console.inCloud && |r.m.console.lastMsg| <= CLOUD_MSG_MAX)
  {
    match h
    case Nop => Outcome(m, true, NoEffect)
    case DoHelp => HelpCommand(m, word, args)
    case DoCheck => CheckCommand(m, args)
    case DoShow => ShowCommand(m, args)
    case DoPing => PingCommand(m, args)
    case DoAction => ActionCommand(m, args)
    case DoTest => TestCommand(m, args, env)
    case DoSend => SendCommand(m, args, env)
    case DoSet => SetCommand(m, args, env)
    case DoSysSub => SysSubCommand(m, rowWord, args)
    case SysSetupWiFi => SetupCommand(m, word)
    case SysSetWiFiCredential => CredentialCommand(m)
  }

  /** `scanStateMachine` on one word and the words after it: the state moves to the
      row's next state, then the row's handler runs; `doSys` scans the next word at
      once (an empty word when there is none). A scan leaves the console in a
      resting state and leaves the cloud flag alone; outside a cloud command it does
      not touch the last cloud message. */
  function Step(m: Machine, word: string, args: seq<string>, env: Env): (r: Outcome)
    ensures Resting(r.m.console.state)
    ensures r.m.console.inCloud == m.console.inCloud
    ensures r.m.console.lastMsg == m.console.lastMsg || (m.console.inCloud && |r.m.console.lastMsg| <= CLOUD_MSG_MAX)
    decreases |args|, if m.console.state == Root then 1 else 0
  {
    var row := Lookup(m.console.state, word);
    var m1 := m.(console := m.console.(state := row.next));
    ScanRests(m.console.state, word);
    if row.handler == DoSys then
      ScanSysOnlyFromRoot(m.console.state, word);
      Step(m1, Next(args).GetOr(""), Rest(args), env)
    else RunHandler(row.handler, m1, row.word, word, args, env)
  }

  /** `ExecuteCloudCommand`: the cloud flag is raised for one scan and lowered after. */
  function ExecuteCloudCommand(m: Machine, word: string, args: seq<string>, env: Env): (r: Outcome)
    ensures !r.m.console.inCloud
    ensures Resting(r.m.console.state)
    ensures r.m.console.lastMsg == m.console.lastMsg || |r.m.console.lastMsg| <= CLOUD_MSG_MAX
  {
    var o := Step(m.(console := m.console.(inCloud := true)), word, args, env);
    o.(m := o.m.(console := o.m.console.(inCloud := false)))
  }

  //--------------------------------------------------------------------------
  // Invariants of a scan
  //--------------------------------------------------------------------------

  /** Only the send commands touch the radio counters, and they keep the count of
      successes within the count of attempts. */
  lemma {:induction false} StepKeepsCountersSound(m: Machine, word: string, args: seq<string>, env: Env)
    requires CountersSound(m.node.radio.counters)
    ensures CountersSound(Step(m, word, args, env).m.node.radio.counters)
    decreases |args|, if m.console.state == Root then 1 else 0
  {
    var row := Lookup(m.console.state, word);
    var m1 := m.(console := m.console.(state := row.next));
    if row.handler == DoSys {
      ScanSysOnlyFromRoot(m.console.state, word);
      StepKeepsCountersSound(m1, Next(args).GetOr(""), Rest(args), env);
    } else {
      HandlerKeepsCountersSound(row.handler, m1, row.word, word, args, env);
    }
  }

  lemma HandlerKeepsCountersSound(h: Handler, m: Machine, rowWord: string, word: string, args: seq<string>, env: Env)
    requires h != DoSys && CountersSound(m.node.radio.counters)
    ensures CountersSound(RunHandler(h, m, rowWord, word, args, env).m.node.radio.counters)
  {
    var radio, config := m.node.radio, m.node.store.config;
    match h
    case DoSend => ProcessSendKeepsCountersSound(radio, config, Next(args).GetOr(""), env.link);
    case DoTest => ProcessSendKeepsCountersSound(radio, config, Next(Rest(args)).GetOr(""), env.link);
    case Nop =>
    case DoHelp =>
    case DoCheck =>
    case DoShow =>
    case DoPing =>
    case DoAction =>
    case DoSet =>
    case DoSysSub =>
    case SysSetupWiFi =>
    case SysSetWiFiCredential =>
  }

  /** A configuration that `LoadConfig` would accept stays so through any command. */
  lemma {:induction false} StepKeepsConfigValid(m: Machine, word: string, args: seq<string>, env: Env)
    requires Config.ConfigValid(m.node.store.config)
    ensures Config.ConfigValid(Step(m, word, args, env).m.node.store.config)
    decreases |args|, if m.console.state == Root then 1 else 0
  {
    var row := Lookup(m.console.state, word);
    var m1 := m.(console := m.console.(state := row.next));
    if row.handler == DoSys {
      ScanSysOnlyFromRoot(m.console.state, word);
      StepKeepsConfigValid(m1, Next(args).GetOr(""), Rest(args), env);
    } else {
      HandlerKeepsConfigValid(row.handler, m1, row.word, word, args, env);
    }
  }

  lemma HandlerKeepsConfigValid(h: Handler, m: Machine, rowWord: string, word: string, args: seq<string>, env: Env)
    requires h != DoSys && Config.ConfigValid(m.node.store.config)
    ensures Config.ConfigValid(RunHandler(h, m, rowWord, word, args, env).m.node.store.config)
  {
    match h
    case DoSet => SetKeepsConfigValid(m, args, env);
    case Nop =>
    case DoHelp =>
    case DoCheck =>
    case DoShow =>
    case DoPing =>
    case DoAction =>
    case DoTest =>
    case DoSend =>
    case DoSysSub =>
    case SysSetupWiFi =>
    case SysSetWiFiCredential =>
  }

  lemma SetKeepsConfigValid(m: Machine, args: seq<string>, env: Env)
    requires Config.ConfigValid(m.node.store.config)
    ensures Config.ConfigValid(SetCommand(m, args, env).m.node.store.config)
  {
    match SetTopicOf(Next(args))
    case SetTz => Config.TimeZoneSettersKeepValid(m.node.store, 1, 0, env.tzMinutes);
    case SetDst =>
      Config.TimeZoneSettersKeepValid(m.node.store, 1, 0, env.tzMinutes);
      Config.TimeZoneSettersKeepValid(m.node.store, 1, 1, env.tzMinutes);
    case SetTime =>
    case SetDate =>
    case SetNodeId =>
    case SetBase =>
    case SetSpkr =>
    case SetOther =>
  }

  /** The selected authentication method, when it is one of the menu's, stays one:
      `strAuthMethods[gintWiFi_Auth]` is always within the array. */
  predicate AuthInMenu(c: Console)
  {
    0 <= c.wifi.auth < |AuthMethods|
  }

  lemma {:induction false} StepKeepsAuthInMenu(m: Machine, word: string, args: seq<string>, env: Env)
    requires AuthInMenu(m.console)
    ensures AuthInMenu(Step(m, word, args, env).m.console)
    decreases |args|, if m.console.state == Root then 1 else 0
  {
    var row := Lookup(m.console.state, word);
    var m1 := m.(console := m.console.(state := row.next));
    if row.handler == DoSys {
      ScanSysOnlyFromRoot(m.console.state, word);
      StepKeepsAuthInMenu(m1, Next(args).GetOr(""), Rest(args), env);
    } else {
      StepRuns(m, word, args, env, row.next, row.handler);
      if row.handler == SysSetupWiFi && row.next == WfConfirm {
        ScanConfirmOnlyByMethod(m.console.state, word);
        MethodWordValue(word);
        ConfirmKeepsAuthInMenu(m1, row.word, word, args, env);
      } else {
        OtherKeepsAuthInMenu(row.handler, m1, row.word, word, args, env);
      }
    }
  }

  /** At the confirmation step, a method number keeps the selection in the menu. */
  lemma ConfirmKeepsAuthInMenu(m: Machine, rowWord: string, word: string, args: seq<string>, env: Env)
    requires m.console.state == WfConfirm && |word| > 0 && 0 <= AtoI(word) < 4
    ensures AuthInMenu(RunHandler(SysSetupWiFi, m, rowWord, word, args, env).m.console)
  {
    RunsHandler(SysSetupWiFi, m, rowWord, word, args, env);
    ConfirmRecordsMethod(m.console, word);
  }

  /** Elsewhere a handler keeps the selection in the menu. */
  lemma OtherKeepsAuthInMenu(h: Handler, m: Machine, rowWord: string, word: string, args: seq<string>, env: Env)
    requires h != DoSys && AuthInMenu(m.console)
    requires !(h == SysSetupWiFi && m.console.state == WfConfirm)
    ensures AuthInMenu(RunHandler(h, m, rowWord, word, args, env).m.console)
  {
    HandlerKeepsAuth(h, m, rowWord, word, args, env);
  }

  /** The confirmation step records the method typed at the menu. */
  lemma ConfirmRecordsMethod(c: Console, word: string)
    requires c.state == WfConfirm && |word| > 0 && 0 <= AtoI(word) < 4
    ensures SerialConsole.SetupWiFi(c, word).0.wifi.auth == AtoI(word)
  {
    MethodRemainder(AtoI(word));
  }

  /** Outside the confirmation step only the credential handler changes the
      selected method, and it sets it to 1. */
  lemma HandlerKeepsAuth(h: Handler, m: Machine, rowWord: string, word: string, args: seq<string>, env: Env)
    requires h != DoSys && (h == SysSetupWiFi ==> m.console.state != WfConfirm)
    ensures var auth := RunHandler(h, m, rowWord, word, args, env).m.console.wifi.auth;
            if h == SysSetWiFiCredential then auth == 1 else auth == m.console.wifi.auth
  {
    match h
    case Nop =>
    case DoHelp =>
    case DoCheck =>
    case DoShow =>
    case DoPing =>
    case DoAction =>
    case DoTest =>
    case DoSend =>
    case DoSet =>
    case DoSysSub =>
    case SysSetupWiFi =>
    case SysSetWiFiCredential =>
  }

  /** A word that lower-cases to one of `0`..`3` is that digit. */
  lemma MethodWordValue(word: string)
    requires Lower(word) in AuthWords
    ensures |word| > 0 && 0 <= AtoI(word) < 4
  {
    assert |word| == 1;
    assert word[0] == Lower(word)[0];
    assert word == [word[0]];
    AtoIDecimal(word);
  }

  //--------------------------------------------------------------------------
  // Commands from the cloud
  //--------------------------------------------------------------------------

  /** The console with what only a cloud command affects blanked out. */
  function Erase(c: Console): Console
  {
    c.(inCloud := false, lastMsg := "")
  }

  /** An outcome with the cloud flag and the cloud message blanked out. */
  function Silent(o: Outcome): Outcome
  {
    o.(m := o.m.(console := Erase(o.m.console)))
  }

  lemma EraseCloudOutput(c: Console, d: Console, msg: string)
    requires Erase(c) == Erase(d)
    ensures Erase(CloudOutput(c, msg)) == Erase(CloudOutput(d, msg))
  {
  }

  /** A handler does the same whether a cloud command runs it or a console line. */
  lemma HandlerIgnoresCloud(h: Handler, m: Machine, n: Machine, rowWord: string, word: string, args: seq<string>, env: Env)
    requires h != DoSys && Erase(m.console) == Erase(n.console) && m.node == n.node
    ensures Silent(RunHandler(h, m, rowWord, word, args, env)) == Silent(RunHandler(h, n, rowWord, word, args, env))
  {
    match h
    case Nop =>
    case DoHelp => HelpIgnoresCloud(m, n, word, args);
    case DoCheck =>
    case DoShow =>
    case DoPing =>
    case DoAction =>
    case DoTest => TestIgnoresCloud(m, n, args, env);
    case DoSend => SendIgnoresCloud(m, n, args, env);
    case DoSet => SetIgnoresCloud(m, n, args, env);
    case DoSysSub => SysSubIgnoresCloud(m, n, rowWord, args);
    case SysSetupWiFi => SetupWiFiIgnoresCloud(m.console, n.console, word);
    case SysSetWiFiCredential =>
      var c, d := m.console.(wifi := m.console.wifi.(auth := 1)), n.console.(wifi := n.console.wifi.(auth := 1));
      EraseCloudOutput(c, d, Text(CredentialSaved));
  }

  lemma HelpIgnoresCloud(m: Machine, n: Machine, cmd: string, args: seq<string>)
    requires Erase(m.console) == Erase(n.console) && m.node == n.node
    ensures Silent(HelpCommand(m, cmd, args)) == Silent(HelpCommand(n, cmd, args))
  {
    var t := HelpSummary(Lower(Next(args).GetOr(cmd)), Next(Rest(args)));
    if t.Some? {
      EraseCloudOutput(m.console, n.console, ReplyText(t.value));
    }
  }

  lemma TestIgnoresCloud(m: Machine, n: Machine, args: seq<string>, env: Env)
    requires Erase(m.console) == Erase(n.console) && m.node == n.node
    ensures Silent(TestCommand(m, args, env)) == Silent(TestCommand(n, args, env))
  {
  }

  lemma SendIgnoresCloud(m: Machine, n: Machine, args: seq<string>, env: Env)
    requires Erase(m.console) == Erase(n.console) && m.node == n.node
    ensures Silent(SendCommand(m, args, env)) == Silent(SendCommand(n, args, env))
  {
  }

  lemma SetIgnoresCloud(m: Machine, n: Machine, args: seq<string>, env: Env)
    requires Erase(m.console) == Erase(n.console) && m.node == n.node
    ensures Silent(SetCommand(m, args, env)) == Silent(SetCommand(n, args, env))
  {
    var c, d := m.console, n.console;
    match SetTopicOf(Next(args))
    case SetDst =>
      EraseCloudOutput(c, d, ReplyText(DstOff));
      EraseCloudOutput(c, d, ReplyText(DstOn));
    case SetSpkr =>
      EraseCloudOutput(c, d, ReplyText(SpeakerOn));
      EraseCloudOutput(c, d, ReplyText(SpeakerOff));
    case SetTz =>
    case SetTime =>
    case SetDate =>
    case SetNodeId =>
    case SetBase =>
    case SetOther =>
  }

  lemma SysSubIgnoresCloud(m: Machine, n: Machine, topic: string, args: seq<string>)
    requires Erase(m.console) == Erase(n.console) && m.node == n.node
    ensures Silent(SysSubCommand(m, topic, args)) == Silent(SysSubCommand(n, topic, args))
  {
    var c, d := m.console, n.console;
    match TopicOf(Some(topic), SysTopics(), SysOther)
    case SysReset => EraseCloudOutput(c, d, ReplyText(ResetNotice));
    case SysSafe => EraseCloudOutput(c, d, ReplyText(SafeNotice));
    case SysDfu => EraseCloudOutput(c, d, ReplyText(DfuNotice));
    case SysBase => EraseCloudOutput(c, d, ReplyText(ToBase));
    case SysPrivate => EraseCloudOutput(c, d, ReplyText(ToPrivate));
    case SysUpdate =>
    case SysSerial =>
    case SysSync =>
    case SysClear =>
    case SysOther =>
  }

  lemma SetupWiFiIgnoresCloud(c: Console, d: Console, cmd: string)
    requires Erase(c) == Erase(d)
    ensures Erase(SerialConsole.SetupWiFi(c, cmd).0) == Erase(SerialConsole.SetupWiFi(d, cmd).0)
    ensures SerialConsole.SetupWiFi(c, cmd).1 == SerialConsole.SetupWiFi(d, cmd).1
  {
  }

  /** A scan does the same whether a cloud command runs it or a console line: the
      cloud flag only decides whether the cloud message is written. */
  lemma {:induction false} StepIgnoresCloud(m: Machine, n: Machine, word: string, args: seq<string>, env: Env)
    requires Erase(m.console) == Erase(n.console) && m.node == n.node
    ensures Silent(Step(m, word, args, env)) == Silent(Step(n, word, args, env))
    decreases |args|, if m.console.state == Root then 1 else 0
  {
    assert m.console.state == n.console.state;
    var row := Lookup(m.console.state, word);
    var m1 := m.(console := m.console.(state := row.next));
    var n1 := n.(console := n.console.(state := row.next));
    if row.handler == DoSys {
      ScanSysOnlyFromRoot(m.console.state, word);
      StepIgnoresCloud(m1, n1, Next(args).GetOr(""), Rest(args), env);
    } else {
      HandlerIgnoresCloud(row.handler, m1, n1, row.word, word, args, env);
    }
  }

  /** A command from the cloud changes the machine as the same command typed at the
      console would, and has the same result and effect. */
  lemma CloudCommandAsTyped(m: Machine, word: string, args: seq<string>, env: Env)
    ensures Silent(ExecuteCloudCommand(m, word, args, env)) == Silent(Step(m, word, args, env))
  {
    StepIgnoresCloud(m.(console := m.console.(inCloud := true)), m, word, args, env);
  }

  /** A scan whose row runs a handler other than `doSys`: the state moves, then the
      handler runs. */
  lemma StepRuns(m: Machine, word: string, args: seq<string>, env: Env, next: State, h: Handler)
    requires Scan(m.console.state, word) == (next, h) && h != DoSys
    ensures Step(m, word, args, env)
            == RunHandler(h, m.(console := m.console.(state := next)), Lookup(m.console.state, word).word, word, args, env)
  {
  }

  /** The handler functions the table rows name. */
  lemma RunsHandler(h: Handler, m: Machine, rowWord: string, word: string, args: seq<string>, env: Env)
    requires h in {DoHelp, SysSetupWiFi, SysSetWiFiCredential}
    ensures h == DoHelp ==> RunHandler(h, m, rowWord, word, args, env) == HelpCommand(m, word, args)
    ensures h == SysSetupWiFi ==> RunHandler(h, m, rowWord, word, args, env) == SetupCommand(m, word)
    ensures h == SysSetWiFiCredential ==> RunHandler(h, m, rowWord, word, args, env) == CredentialCommand(m)
  {
  }

  /** `help`, with no topic after it, from the cloud leaves the list of commands as
      the cloud message. */
  lemma CloudHelpListsCommands(m: Machine, env: Env)
    requires m.console.state == Root
    ensures ExecuteCloudCommand(m, "help", [], env).m.console.lastMsg == ReplyText(HelpCommands)
  {
    var m1 := m.(console := m.console.(inCloud := true));
    ScanHelp();
    StepHelp(m1, "help", [], env, Root);
    HelpIsNoTopic();
    HelpListsCommands(m1, "help");
  }

  lemma HelpIsNoTopic()
    ensures Lower("help") !in HelpTopics
  {
    LowerKeepsLowerWord("help");
  }

  /** A scan whose row runs `doHelp`. */
  lemma StepHelp(m: Machine, word: string, args: seq<string>, env: Env, next: State)
    requires Scan(m.console.state, word) == (next, DoHelp)
    ensures Step(m, word, args, env) == HelpCommand(m.(console := m.console.(state := next)), word, args)
  {
    var m1 := m.(console := m.console.(state := next));
    StepRuns(m, word, args, env, next, DoHelp);
    RunsHandler(DoHelp, m1, Lookup(m.console.state, word).word, word, args, env);
  }

  /** A topic `help` does not know is answered with the list of commands. */
  lemma HelpListsCommands(m: Machine, cmd: string)
    requires m.console.inCloud && Lower(cmd) !in HelpTopics
    ensures HelpCommand(m, cmd, []).m.console.lastMsg == ReplyText(HelpCommands)
  {
    assert |ReplyText(HelpCommands)| <= CLOUD_MSG_MAX;
  }

  //--------------------------------------------------------------------------
  // The Wi-Fi setup session
  //--------------------------------------------------------------------------

  /** A scan whose row runs `doSys` moves to the system menu and scans the next word
      there at once. */
  lemma StepSys(m: Machine, word: string, args: seq<string>, env: Env)
    requires Lookup(m.console.state, word).handler == DoSys
    ensures Step(m, word, args, env) == Step(m.(console := m.console.(state := Sys)), Next(args).GetOr(""), Rest(args), env)
  {
    ScanSysOnlyFromRoot(m.console.state, word);
  }

  /** A scan whose row runs `SetupWiFi`: the state moves, then `SetupWiFi` runs
      with the word typed. */
  lemma StepSetsUp(m: Machine, word: string, args: seq<string>, env: Env, next: State)
    requires Scan(m.console.state, word) == (next, SysSetupWiFi)
    ensures Step(m, word, args, env) == SetupCommand(m.(console := m.console.(state := next)), word)
  {
    var m1 := m.(console := m.console.(state := next));
    StepRuns(m, word, args, env, next, SysSetupWiFi);
    RunsHandler(SysSetupWiFi, m1, Lookup(m.console.state, word).word, word, args, env);
  }

  /** A scan whose row runs `SetWiFiCredential`. */
  lemma StepApplies(m: Machine, word: string, args: seq<string>, env: Env, next: State)
    requires Scan(m.console.state, word) == (next, SysSetWiFiCredential)
    ensures Step(m, word, args, env) == CredentialCommand(m.(console := m.console.(state := next)))
  {
    var m1 := m.(console := m.console.(state := next));
    StepRuns(m, word, args, env, next, SysSetWiFiCredential);
    RunsHandler(SysSetWiFiCredential, m1, Lookup(m.console.state, word).word, word, args, env);
  }

  /** `sys setup` opens the workflow: the console moves to its first question and
      `SetupWiFi` asks it. */
  lemma SessionOpens(m: Machine, env: Env)
    requires m.console.state == Root
    ensures var r := Step(m, "sys", ["setup"], env);
            && r.ok && r.effect == NoEffect && r.m.node == m.node
            && r.m.console == SerialConsole.SetupWiFi(m.console.(state := WfYesNo), "setup").0
  {
    ScanSys();
    StepSys(m, "sys", ["setup"], env);
    ScanSetup();
    StepSetsUp(m.(console := m.console.(state := Sys)), "setup", [], env, WfYesNo);
  }

  /** `y` goes on to the SSID. */
  lemma SessionGoesOn(m: Machine, env: Env)
    requires m.console.state == WfYesNo
    ensures var r := Step(m, "y", [], env);
            && r.ok && r.effect == NoEffect && r.m.node == m.node
            && r.m.console == SerialConsole.SetupWiFi(m.console.(state := WfGetSsid), "y").0
  {
    ScanYes(WfYesNo);
    StepSetsUp(m, "y", [], env, WfGetSsid);
  }

  /** Any line is passed on as the SSID, then any line as the password. */
  lemma SessionTakesSsid(m: Machine, ssid: string, env: Env)
    requires m.console.state == WfGetSsid
    ensures var r := Step(m, ssid, [], env);
            && r.ok && r.effect == NoEffect && r.m.node == m.node
            && r.m.console == SerialConsole.SetupWiFi(m.console.(state := WfGetPassword), ssid).0
  {
    WiFiWorkflowTakesAnything(ssid, ssid);
    StepSetsUp(m, ssid, [], env, WfGetPassword);
  }

  lemma SessionTakesPassword(m: Machine, password: string, env: Env)
    requires m.console.state == WfGetPassword
    ensures var r := Step(m, password, [], env);
            && r.ok && r.effect == NoEffect && r.m.node == m.node
            && r.m.console == SerialConsole.SetupWiFi(m.console.(state := WfGetAuth), password).0
  {
    WiFiWorkflowTakesAnything(password, password);
    StepSetsUp(m, password, [], env, WfGetAuth);
  }

  /** A method number 0..3 is passed on and the confirmation asked. */
  lemma SessionTakesMethod(m: Machine, word: string, env: Env)
    requires m.console.state == WfGetAuth && Lower(word) in AuthWords
    ensures var r := Step(m, word, [], env);
            && r.ok && r.effect == NoEffect && r.m.node == m.node
            && r.m.console == SerialConsole.SetupWiFi(m.console.(state := WfConfirm), word).0
  {
    ScanMethod(word);
    StepSetsUp(m, word, [], env, WfConfirm);
  }

  /** `y` at the confirmation returns to the root menu and, as the firmware is
      written, applies a WPA2/AES credential for the recorded SSID and password and
      sets the selected method to 1, whatever method was chosen. */
  lemma SessionApplies(m: Machine, env: Env)
    requires m.console.state == WfConfirm
    ensures var r := Step(m, "y", [], env);
            var w := m.console.wifi;
            && r.ok && r.m.node == m.node
            && r.effect == NewCredential(Some(Secured(w.ssid, w.password, Wpa2Aes)))
            && r.m.console.state == Root && r.m.console.wifi == w.(auth := 1)
  {
    ScanYes(WfConfirm);
    StepApplies(m, "y", [], env, Root);
  }

  /** The credential applied at the confirmation is the one the menu shows for the
      selected method exactly when that method is WPA2. */
  lemma SessionAppliesMenuOnlyForWpa2(m: Machine, env: Env)
    requires m.console.state == WfConfirm && AuthInMenu(m.console)
    ensures Step(m, "y", [], env).effect == NewCredential(SetWiFiCredential(m.console.(state := Root)).1)
            <==> m.console.wifi.auth == 1
  {
    SessionApplies(m, env);
  }
}
