/** The state of the serial console and the helpers its handlers share: the cloud
    output that is kept only while a command sent by the cloud is being run, the
    Wi-Fi setup workflow, and the dotted-quad parser used by `ping`. */
module SerialConsole {
  import opened Arduino
  import opened Options
  import opened ConsoleTable

  //--------------------------------------------------------------------------
  // State
  //--------------------------------------------------------------------------

  /** `gstrWiFi_SSID`, `gstrWiFi_Password` and `gintWiFi_Auth`. */
  datatype WiFi = WiFi(ssid: string, password: string, auth: int)

  /** The console: its menu state, the Wi-Fi answers collected so far, whether a
      cloud command is running, and the system's last cloud message. */
  datatype Console = Console(state: State, wifi: WiFi, inCloud: bool, lastMsg: string)

  /** Wi-Fi security, as passed to `WiFi.setCredentials`. */
  datatype Security = Wpa2Aes | Wep | WpaTkip

  datatype Credential = Open(ssid: string) | Secured(ssid: string, password: string, security: Security)

  //--------------------------------------------------------------------------
  // Cloud output
  //--------------------------------------------------------------------------

  /** `buf[512]` less its terminating NUL. */
  const CLOUD_MSG_MAX: nat := 511

  /** `CloudOutput`: outside a cloud command nothing happens; inside one the message,
      cut to what fits in the buffer, becomes the last message. */
  function CloudOutput(c: Console, msg: string): (r: Console)
    ensures !c.inCloud ==> r == c
    ensures c.inCloud ==> r == c.(lastMsg := r.lastMsg)
    ensures c.inCloud ==> |r.lastMsg| == if |msg| <= CLOUD_MSG_MAX then |msg| else CLOUD_MSG_MAX
    ensures c.inCloud ==> r.lastMsg <= msg
  {
    if !c.inCloud then c
    else c.(lastMsg := if |msg| <= CLOUD_MSG_MAX then msg else msg[..CLOUD_MSG_MAX])
  }

  //--------------------------------------------------------------------------
  // Wi-Fi setup workflow
  //--------------------------------------------------------------------------

  /** The cloud messages of the workflow. */
  datatype Message = SetupSure | EnterSsid | EnterPassword | SelectAuth | ApplySure | CredentialSaved

  function Text(msg: Message): string
  {
    match msg
    case SetupSure => "Sure to setup Wi-Fi crediential? (y/N)"
    case EnterSsid => "Please enter SSID"
    case EnterPassword => "Please enter PASSWORD"
    case SelectAuth => "Select authentication method [0..3]"
    case ApplySure => "Sure to apply the Wi-Fi credential? (y/N)"
    case CredentialSaved => "Wi-Fi credential saved...reconnecting"
  }

  /** `SetupWiFi`, run with the state the table has already moved to: each answer is
      recorded by the step after the one that asked for it, and only when it is not
      empty. It always succeeds. */
  function SetupWiFi(c: Console, cmd: string): (r: (Console, bool))
    ensures r.1
    ensures r.0.state == c.state && r.0.inCloud == c.inCloud
    ensures !c.inCloud ==> r.0.lastMsg == c.lastMsg
    ensures r.0.wifi.ssid != c.wifi.ssid ==> c.state == WfGetPassword && r.0.wifi.ssid == cmd
    ensures r.0.wifi.password != c.wifi.password ==> c.state == WfGetAuth && r.0.wifi.password == cmd
    ensures r.0.wifi.auth != c.wifi.auth ==> c.state == WfConfirm && -4 < r.0.wifi.auth < 4
    ensures |cmd| > 0 && c.state == WfGetPassword ==> r.0.wifi.ssid == cmd
    ensures |cmd| > 0 && c.state == WfGetAuth ==> r.0.wifi.password == cmd
    ensures |cmd| > 0 && c.state == WfConfirm ==> r.0.wifi.auth == CRem(AtoI(cmd), 4)
  {
    var w := c.wifi;
    match c.state
    case WfYesNo => (CloudOutput(c, Text(SetupSure)), true)
    case WfGetSsid => (CloudOutput(c, Text(EnterSsid)), true)
    case WfGetPassword =>
      var c1 := if |cmd| > 0 then c.(wifi := w.(ssid := cmd)) else c;
      (CloudOutput(c1, Text(EnterPassword)), true)
    case WfGetAuth =>
      var c1 := if |cmd| > 0 then c.(wifi := w.(password := cmd)) else c;
      (CloudOutput(c1, Text(SelectAuth)), true)
    case WfConfirm =>
      var c1 := if |cmd| > 0 then c.(wifi := w.(auth := CRem(AtoI(cmd), 4))) else c;
      (CloudOutput(c1, Text(ApplySure)), true)
    case _ => (c, true)
  }

  /** `strAuthMethods`: the names the menu shows for methods 0..3. */
  const AuthMethods: seq<string> := ["None", "WPA2", "WEP", "TKIP"]

  /** The menu name of a credential's security. */
  function SecurityName(cr: Credential): string
  {
    match cr
    case Open(_) => "None"
    case Secured(_, _, Wpa2Aes) => "WPA2"
    case Secured(_, _, Wep) => "WEP"
    case Secured(_, _, WpaTkip) => "TKIP"
  }

  /** An `if (x = v)` test: the assignment stores `v` and its value is `v`. */
  predicate AssignmentHolds(v: int)
  {
    v != 0
  }

  /** `SetWiFiCredential` as written: each test assigns instead of comparing, so the
      first test stores 0 and fails, the second stores 1 and succeeds, and every
      selection is applied as WPA2 with AES. */
  function SetWiFiCredentialAsWritten(c: Console): (r: (Console, Option<Credential>))
  {
    var w := c.wifi;
    var cr :=
      if AssignmentHolds(0) then (0, Some(Open(w.ssid)))
      else if AssignmentHolds(1) then (1, Some(Secured(w.ssid, w.password, Wpa2Aes)))
      else if AssignmentHolds(2) then (2, Some(Secured(w.ssid, w.password, Wep)))
      else if AssignmentHolds(3) then (3, Some(Secured(w.ssid, w.password, WpaTkip)))
      else (3, None);
    (CloudOutput(c.(wifi := w.(auth := cr.0)), Text(CredentialSaved)), cr.1)
  }

  /** Whatever method was selected, the credential written is WPA2/AES and the
      selection is overwritten with 1. */
  lemma CredentialAlwaysWpa2(c: Console)
    ensures var (c2, cr) := SetWiFiCredentialAsWritten(c);
            cr == Some(Secured(c.wifi.ssid, c.wifi.password, Wpa2Aes)) && c2.wifi.auth == 1
  {
  }

  /** An open network (method 0) is set up as a secured one. */
  lemma OpenNetworkMisapplied(c: Console)
    requires c.wifi.auth == 0
    ensures SetWiFiCredentialAsWritten(c).1.value != SetWiFiCredential(c).1.value
  {
  }

  /** `SetWiFiCredential` with comparisons, as the menu describes: the credential
      follows the selected method, and the selection is kept. */
  function SetWiFiCredential(c: Console): (r: (Console, Option<Credential>))
    ensures r.0 == CloudOutput(c, Text(CredentialSaved))
    ensures r.1.Some? <==> 0 <= c.wifi.auth < 4
    ensures r.1.Some? ==> r.1.value.ssid == c.wifi.ssid
    ensures r.1.Some? && c.wifi.auth != 0 ==> r.1.value.Secured? && r.1.value.password == c.wifi.password
  {
    var w := c.wifi;
    var cr :=
      if w.auth == 0 then Some(Open(w.ssid))
      else if w.auth == 1 then Some(Secured(w.ssid, w.password, Wpa2Aes))
      else if w.auth == 2 then Some(Secured(w.ssid, w.password, Wep))
      else if w.auth == 3 then Some(Secured(w.ssid, w.password, WpaTkip))
      else None;
    (CloudOutput(c, Text(CredentialSaved)), cr)
  }

  /** The security applied is the one the menu shows for the selected number. */
  lemma CredentialFollowsMenu(c: Console)
    requires 0 <= c.wifi.auth < 4
    ensures SecurityName(SetWiFiCredential(c).1.value) == AuthMethods[c.wifi.auth]
  {
  }

  /** The workflow end to end, as the firmware runs it: the SSID, the password and
      a method number 0..3, each taken by the step after the one that asked for it,
      are recorded; the confirmation then writes a WPA2/AES credential for that
      SSID and password whatever the number, and overwrites it with 1. */
  lemma WorkflowRecordsAnswers(c: Console, ssid: string, password: string, k: nat)
    requires |ssid| > 0 && |password| > 0 && k < 4
    ensures var c1 := SetupWiFi(c.(state := WfGetPassword), ssid).0;
            var c2 := SetupWiFi(c1.(state := WfGetAuth), password).0;
            var c3 := SetupWiFi(c2.(state := WfConfirm), FormatDecimal(k)).0;
            var (c4, cr) := SetWiFiCredentialAsWritten(c3.(state := Root));
            && c3.wifi == WiFi(ssid, password, k)
            && cr == Some(Secured(ssid, password, Wpa2Aes))
            && c4.wifi == WiFi(ssid, password, 1)
  {
    var c3 := WorkflowAnswers(c, ssid, password, k);
    CredentialAlwaysWpa2(c3.(state := Root));
  }

  /** The same workflow with the corrected `SetWiFiCredential`: the credential has
      the security the menu shows for the number, and the password unless the
      network is open. */
  lemma WorkflowAsMenuShows(c: Console, ssid: string, password: string, k: nat)
    requires |ssid| > 0 && |password| > 0 && k < 4
    ensures var c1 := SetupWiFi(c.(state := WfGetPassword), ssid).0;
            var c2 := SetupWiFi(c1.(state := WfGetAuth), password).0;
            var c3 := SetupWiFi(c2.(state := WfConfirm), FormatDecimal(k)).0;
            var cr := SetWiFiCredential(c3.(state := Root)).1;
            && cr.Some? && cr.value.ssid == ssid
            && SecurityName(cr.value) == AuthMethods[k]
            && (k != 0 ==> cr.value == Secured(ssid, password, cr.value.security))
  {
    var c3 := WorkflowAnswers(c, ssid, password, k);
    CredentialFollowsMenu(c3.(state := Root));
  }

  /** The three answers of the workflow, as `SetupWiFi` records them. */
  lemma WorkflowAnswers(c: Console, ssid: string, password: string, k: nat) returns (c3: Console)
    requires |ssid| > 0 && |password| > 0 && k < 4
    ensures var c1 := SetupWiFi(c.(state := WfGetPassword), ssid).0;
            var c2 := SetupWiFi(c1.(state := WfGetAuth), password).0;
            c3 == SetupWiFi(c2.(state := WfConfirm), FormatDecimal(k)).0
    ensures c3.wifi == WiFi(ssid, password, k)
  {
    var c1 := SetupWiFi(c.(state := WfGetPassword), ssid).0;
    var c2 := SetupWiFi(c1.(state := WfGetAuth), password).0;
    c3 := SetupWiFi(c2.(state := WfConfirm), FormatDecimal(k)).0;
    FormatDecimalRoundTrip(k);
    MethodRemainder(k);
  }

  /** A method number 0..3 is its own remainder by 4. */
  lemma MethodRemainder(v: int)
    requires 0 <= v < 4
    ensures CRem(v, 4) == v
  {
    if v == 0 {
    } else if v == 1 {
    } else if v == 2 {
    } else {
      assert v == 3;
    }
  }

  //--------------------------------------------------------------------------
  // String2IP
  //--------------------------------------------------------------------------

  /** What `String2IP` makes of its text: an address, a host name to resolve, or a
      failure. */
  datatype IpResult = Ip(a: byte, b: byte, c: byte, d: byte) | HostName(host: string) | NotAnAddress
  {
    /** The value `String2IP` returns. */
    predicate Ok()
    {
      !NotAnAddress?
    }
  }

  /** Only digits and dots: the text is read as a dotted quad. */
  predicate AddressChars(s: string)
  {
    forall i :: 0 <= i < |s| ==> IsDigit(s[i]) || s[i] == '.'
  }

  /** `(UC)toInt()` of a segment. */
  function Octet(s: string): byte
  {
    ToByte(AtoI(s))
  }

  /** One pass of the segment loop as written. Its test `lv_len > 0` always holds
      there, so a missing dot is not noticed: `indexOf` gives -1, which as the
      unsigned bound of `substring` reaches the end of the text, and the next
      segment starts again at 0. */
  function SegmentAsWritten(s: string, from: nat): (r: (byte, nat))
  {
    var dot := IndexOf(s, '.', from);
    (Octet(Substring(s, from, ToUInt32(dot))), dot + 1)
  }

  /** `String2IP` as written. */
  function String2IPAsWritten(s: string): (r: IpResult)
    ensures |s| == 0 ==> r == Ip(8, 8, 8, 8)
    ensures |s| > 0 && !AddressChars(s) ==> r == HostName(s)
    ensures 0 < |s| <= 6 && AddressChars(s) ==> r == NotAnAddress
  {
    if |s| == 0 then Ip(8, 8, 8, 8)
    else if !AddressChars(s) then HostName(s)
    else if |s| <= 6 then NotAnAddress
    else
      var (a, p1) := SegmentAsWritten(s, 0);
      var (b, p2) := SegmentAsWritten(s, p1);
      var (c, p3) := SegmentAsWritten(s, p2);
      if 0 < p3 < |s| then Ip(a, b, c, Octet(SubstringFrom(s, p3))) else NotAnAddress
  }

  /** One pass of the segment loop with the test on the dot that was evidently
      meant: a missing dot ends the loop. */
  function Segment(s: string, from: nat): (r: Option<(byte, nat)>)
    ensures r.Some? ==> from < r.value.1 <= |s| && s[r.value.1 - 1] == '.'
    ensures r.Some? ==> '.' !in s[from..r.value.1 - 1] && r.value.0 == Octet(s[from..r.value.1 - 1])
    ensures r.None? ==> forall k :: from <= k < |s| ==> s[k] != '.'
  {
    var dot := IndexOf(s, '.', from);
    if dot < 0 then None else Some((Octet(s[from..dot]), dot + 1))
  }

  /** `String2IP` with the loop test on the dot: a dotted quad needs three dots and
      text after the third. */
  function String2IP(s: string): (r: IpResult)
    ensures |s| == 0 ==> r == Ip(8, 8, 8, 8)
    ensures |s| > 0 && !AddressChars(s) ==> r == HostName(s)
    ensures 0 < |s| <= 6 && AddressChars(s) ==> r == NotAnAddress
  {
    if |s| == 0 then Ip(8, 8, 8, 8)
    else if !AddressChars(s) then HostName(s)
    else if |s| <= 6 then NotAnAddress
    else
      match Segment(s, 0)
      case None => NotAnAddress
      case Some((a, p1)) =>
        match Segment(s, p1)
        case None => NotAnAddress
        case Some((b, p2)) =>
          match Segment(s, p2)
          case None => NotAnAddress
          case Some((c, p3)) =>
            if p3 < |s| then Ip(a, b, c, Octet(s[p3..])) else NotAnAddress
  }

  /** Text read as an address, other than the empty text's default, has three dots
      and text after the third. */
  lemma AcceptedHasThreeDots(s: string)
    requires |s| > 0 && String2IP(s).Ip?
    ensures exists i, j, k :: 0 <= i < j < k < |s| - 1 && s[i] == '.' && s[j] == '.' && s[k] == '.'
  {
    var p1, p2, p3 := AcceptedSegments(s);
    assert s[p1 - 1] == '.' && s[p2 - 1] == '.' && s[p3 - 1] == '.';
  }

  /** The ends of the three segments of text read as an address. */
  lemma AcceptedSegments(s: string) returns (p1: nat, p2: nat, p3: nat)
    requires |s| > 0 && String2IP(s).Ip?
    ensures 0 < p1 < p2 < p3 < |s|
    ensures s[p1 - 1] == '.' && s[p2 - 1] == '.' && s[p3 - 1] == '.'
  {
    p1 := Segment(s, 0).value.1;
    p2 := Segment(s, p1).value.1;
    p3 := Segment(s, p2).value.1;
  }

  /** `String` lengths are `unsigned int`. */
  const STRING_MAX: nat := 0xFFFF_FFFF

  /** Where the dot is found, one pass of the loop reads the same segment in both
      versions. */
  lemma SegmentAgrees(s: string, from: nat)
    requires |s| <= STRING_MAX && Segment(s, from).Some?
    ensures SegmentAsWritten(s, from) == Segment(s, from).value
  {
    var dot := IndexOf(s, '.', from);
    assert ToUInt32(dot) == dot;
  }

  /** When the first three dots are there, the two versions agree. */
  lemma AsWrittenAgreesWithThreeDots(s: string)
    requires AddressChars(s) && 6 < |s| <= STRING_MAX
    requires Segment(s, 0).Some? && Segment(s, Segment(s, 0).value.1).Some?
    requires Segment(s, Segment(s, Segment(s, 0).value.1).value.1).Some?
    ensures String2IPAsWritten(s) == String2IP(s)
  {
    var p1 := Segment(s, 0).value.1;
    var p2 := Segment(s, p1).value.1;
    SegmentAgrees(s, 0);
    SegmentAgrees(s, p1);
    SegmentAgrees(s, p2);
  }

  /** The text `%d.%d.%d.%d` would print. */
  function Quad(a: string, b: string, c: string, d: string): string
  {
    a + "." + b + "." + c + "." + d
  }

  /** Digits only, so no dot. */
  lemma DigitsAddressChars(d: string)
    requires AllDigits(d)
    ensures AddressChars(d) && '.' !in d
  {
    DigitsHaveNo(d, '.');
  }

  lemma AddressCharsJoin(x: string, y: string)
    requires AddressChars(x) && AddressChars(y)
    ensures AddressChars(x + "." + y)
  {
  }

  /** A segment `m` that starts at `from` and is followed by a dot. */
  lemma SegmentAt(s: string, from: nat, m: string)
    requires from + |m| < |s| && s[from..from + |m|] == m && '.' !in m && s[from + |m|] == '.'
    ensures Segment(s, from) == Some((Octet(m), from + |m| + 1))
  {
    IndexOfAfter(s, '.', from, m);
  }

  /** Four runs of digits joined by dots are read back segment by segment. */
  lemma QuadOfDigits(a: string, b: string, c: string, d: string)
    requires AllDigits(a) && AllDigits(b) && AllDigits(c) && AllDigits(d)
    requires |a| > 0 && |b| > 0 && |c| > 0 && |d| > 0
    ensures String2IP(Quad(a, b, c, d)) == Ip(Octet(a), Octet(b), Octet(c), Octet(d))
  {
    var s := Quad(a, b, c, d);
    var p1 := |a| + 1;
    var p2 := p1 + |b| + 1;
    var p3 := p2 + |c| + 1;
    QuadChars(a, b, c, d);
    DigitsAddressChars(a);
    DigitsAddressChars(b);
    DigitsAddressChars(c);
    QuadParts(a, b, c, d);
    ParsedQuad(s, p1, p2, p3, a, b, c, d);
  }

  /** Three segments found and text after the third dot: an address. */
  lemma ThreeSegments(s: string, p1: nat, p2: nat, p3: nat)
    requires AddressChars(s) && 6 < |s| && p3 < |s|
    requires Segment(s, 0).Some? && Segment(s, 0).value.1 == p1
    requires Segment(s, p1).Some? && Segment(s, p1).value.1 == p2
    requires Segment(s, p2).Some? && Segment(s, p2).value.1 == p3
    ensures String2IP(s) == Ip(Segment(s, 0).value.0, Segment(s, p1).value.0, Segment(s, p2).value.0, Octet(s[p3..]))
  {
  }

  lemma QuadChars(a: string, b: string, c: string, d: string)
    requires AllDigits(a) && AllDigits(b) && AllDigits(c) && AllDigits(d)
    ensures AddressChars(Quad(a, b, c, d))
  {
    DigitsAddressChars(a);
    DigitsAddressChars(b);
    DigitsAddressChars(c);
    DigitsAddressChars(d);
    AddressCharsJoin(a, b);
    AddressCharsJoin(a + "." + b, c);
    AddressCharsJoin(a + "." + b + "." + c, d);
  }

  /** Text made of runs `a`, `b`, `c` and `d` with a dot after each of the first
      three: the address of the four runs. */
  lemma ParsedQuad(s: string, p1: nat, p2: nat, p3: nat, a: string, b: string, c: string, d: string)
    requires AddressChars(s) && 6 < |s| && 0 < p1 < p2 < p3 < |s|
    requires s[p1 - 1] == '.' && s[p2 - 1] == '.' && s[p3 - 1] == '.'
    requires s[..p1 - 1] == a && s[p1..p2 - 1] == b && s[p2..p3 - 1] == c && s[p3..] == d
    requires '.' !in a && '.' !in b && '.' !in c
    ensures String2IP(s) == Ip(Octet(a), Octet(b), Octet(c), Octet(d))
  {
    DotAt(s, 0, p1);
    assert s[0..p1 - 1] == a;
    DotAt(s, p1, p2);
    DotAt(s, p2, p3);
    ThreeSegments(s, p1, p2, p3);
  }

  /** Where the parts of `Quad(a, b, c, d)` and its dots are. */
  lemma QuadParts(a: string, b: string, c: string, d: string)
    ensures var s := Quad(a, b, c, d);
            var p1 := |a| + 1;
            var p2 := p1 + |b| + 1;
            var p3 := p2 + |c| + 1;
            && |s| == p3 + |d|
            && s[..p1 - 1] == a && s[p1 - 1] == '.'
            && s[p1..p2 - 1] == b && s[p2 - 1] == '.'
            && s[p2..p3 - 1] == c && s[p3 - 1] == '.'
            && s[p3..] == d
  {
    var ab := a + "." + b;
    var abc := ab + "." + c;
    var s := abc + "." + d;
    assert s == Quad(a, b, c, d);
    assert s[..|abc|] == abc;
    assert abc[..|ab|] == ab;
    assert s[..|a|] == ab[..|a|] == a;
    assert s[|a| + 1..|ab|] == ab[|a| + 1..] == b;
    assert s[|ab| + 1..|abc|] == abc[|ab| + 1..] == c;
    assert s[|abc| + 1..] == d;
  }

  /** A segment from `from` that ends at a dot just before `to`. */
  lemma DotAt(s: string, from: nat, to: nat)
    requires from < to <= |s| && s[to - 1] == '.' && '.' !in s[from..to - 1]
    ensures Segment(s, from) == Some((Octet(s[from..to - 1]), to))
  {
    SegmentAt(s, from, s[from..to - 1]);
  }

  /** A dotted quad printed with `%d.%d.%d.%d` parses back to its four octets. */
  lemma DottedQuadRoundTrip(a: byte, b: byte, c: byte, d: byte)
    ensures String2IP(Quad(FormatDecimal(a), FormatDecimal(b), FormatDecimal(c), FormatDecimal(d)))
            == Ip(a, b, c, d)
  {
    QuadOfDigits(FormatDecimal(a), FormatDecimal(b), FormatDecimal(c), FormatDecimal(d));
    OctetOfFormat(a);
    OctetOfFormat(b);
    OctetOfFormat(c);
    OctetOfFormat(d);
  }

  lemma OctetOfFormat(v: byte)
    ensures Octet(FormatDecimal(v)) == v
  {
    FormatDecimalRoundTrip(v);
    ByteFits(v);
  }

  /** Text that stops at its third dot is refused, by both versions. */
  lemma EndsAtThirdDot(a: string, b: string, c: string)
    requires AllDigits(a) && AllDigits(b) && AllDigits(c)
    requires |a| + |b| + |c| + 3 <= STRING_MAX
    ensures var s := a + "." + b + "." + c + ".";
            String2IP(s) == NotAnAddress && String2IPAsWritten(s) == NotAnAddress
  {
    var s := a + "." + b + "." + c + ".";
    DigitsAddressChars(a);
    DigitsAddressChars(b);
    DigitsAddressChars(c);
    AddressCharsJoin(a, b);
    AddressCharsJoin(a + "." + b, c);
    AddressCharsJoin(a + "." + b + "." + c, "");
    if |s| > 6 {
      var p1 := |a| + 1;
      var p2 := p1 + |b| + 1;
      assert s[..p1 - 1] == a;
      SegmentAt(s, 0, a);
      assert s[p1..p2 - 1] == b;
      SegmentAt(s, p1, b);
      assert s[p2..|s| - 1] == c;
      SegmentAt(s, p2, c);
      AsWrittenAgreesWithThreeDots(s);
    }
  }

  /** As written, digits with a single dot in between pass once there are more than
      six characters: the missing dots are not noticed and the result repeats the
      two segments. */
  lemma OneDotAccepted(x: string, d: string)
    requires AllDigits(x) && AllDigits(d) && |x| > 0 && |d| > 0
    requires 6 < |x| + 1 + |d| <= STRING_MAX
    ensures String2IPAsWritten(x + "." + d) == Ip(Octet(x), Octet(d), Octet(x), Octet(d))
  {
    var s := x + "." + d;
    DigitsAddressChars(x);
    DigitsAddressChars(d);
    AddressCharsJoin(x, d);
    assert s[..|x|] == x;
    assert s[|x| + 1..] == d;
    OneDotAt(s, |x|, x, d);
  }

  /** The as-written reading of a text whose only dot is at `i`. */
  lemma OneDotAt(s: string, i: nat, x: string, d: string)
    requires AddressChars(s) && 6 < |s| <= STRING_MAX && i + 1 < |s| && s[i] == '.'
    requires s[..i] == x && s[i + 1..] == d && '.' !in x && '.' !in d
    ensures String2IPAsWritten(s) == Ip(Octet(x), Octet(d), Octet(x), Octet(d))
  {
    SegmentAsWrittenDot(s, x);
    SegmentAsWrittenLast(s, i + 1, d);
  }

  /** As written, a first segment `x` followed by a dot is read as `x`. */
  lemma SegmentAsWrittenDot(s: string, x: string)
    requires |x| < |s| <= STRING_MAX && s[..|x|] == x && '.' !in x && s[|x|] == '.'
    ensures SegmentAsWritten(s, 0) == (Octet(x), |x| + 1)
  {
    IndexOfAfter(s, '.', 0, x);
    assert ToUInt32(|x|) == |x|;
  }

  /** As written, a last segment without a dot is read to the end, and the next
      segment starts again at 0. */
  lemma SegmentAsWrittenLast(s: string, from: nat, d: string)
    requires from <= |s| <= STRING_MAX && s[from..] == d && '.' !in d
    ensures SegmentAsWritten(s, from) == (Octet(d), 0)
  {
    IndexOfAbsent(s, '.', from);
    assert ToUInt32(-1) >= |s|;
  }

  /** With the test on the dot, the same texts are refused. */
  lemma OneDotRefused(x: string, d: string)
    requires AllDigits(x) && AllDigits(d) && |x| > 0
    ensures String2IP(x + "." + d) == NotAnAddress
  {
    var s := x + "." + d;
    DigitsAddressChars(x);
    DigitsAddressChars(d);
    AddressCharsJoin(x, d);
    assert s[..|x|] == x;
    SegmentAt(s, 0, x);
    assert s[|x| + 1..] == d;
    IndexOfAbsent(s, '.', |x| + 1);
  }

  /** A byte, a dot and a number of five digits or more are taken as an address
      that repeats the byte and the number cut to a byte; the intended parser
      refuses the text. The number stays within a 32-bit `long`, where `toInt` is
      defined. */
  lemma OneDotNumber(a: byte, n: nat)
    requires 10000 <= n <= LONG_MAX
    ensures var s := FormatDecimal(a) + "." + FormatDecimal(n);
            && String2IPAsWritten(s) == Ip(a, ToByte(n), a, ToByte(n))
            && String2IP(s) == NotAnAddress
  {
    var x, d := FormatDecimal(a), FormatDecimal(n);
    FormatDecimalLength(n);
    FormatDecimalShort(n);
    FormatDecimalShort(a);
    OctetOfFormat(a);
    FormatDecimalRoundTrip(n);
    assert Octet(d) == ToByte(n);
    OneDotAccepted(x, d);
    OneDotRefused(x, d);
  }

  /** A number of five digits or more prints at least five characters. */
  lemma FormatDecimalLength(n: nat)
    requires n >= 10000
    ensures |FormatDecimal(n)| >= 5
  {
    assert |FormatDecimal(n / 10000)| >= 1;
    assert |FormatDecimal(n / 1000)| == |FormatDecimal(n / 1000 / 10)| + 1;
    assert |FormatDecimal(n / 100)| == |FormatDecimal(n / 100 / 10)| + 1;
    assert |FormatDecimal(n / 10)| == |FormatDecimal(n / 10 / 10)| + 1;
  }

  lemma {:induction false} FormatDecimalShort(n: nat)
    ensures |FormatDecimal(n)| <= n + 1
    decreases n
  {
    if n >= 10 {
      FormatDecimalShort(n / 10);
    }
  }
}
