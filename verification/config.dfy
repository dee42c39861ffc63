/** The configuration record and the device-status record of the remote, the flags
    that say whether each must be written back, and the emulated EEPROM they are
    loaded from and saved to.

    Every setter is a function from the store to the updated store (and the boolean
    the firmware returns, where it returns one). Bit-field widths of the C structs
    are kept: brightness is 7 bits, the indicator level 4 bits, the power level 2 bits,
    the daylight-saving flag 1 bit; storing a wider value keeps its low bits. */
module Config {
  import opened Arduino
  import opened Common
  import opened MySensors

  type uint1 = x: int | 0 <= x < 2
  type uint2 = x: int | 0 <= x < 4
  type uint4 = x: int | 0 <= x < 16
  type uint7 = x: int | 0 <= x < 128

  /** A fixed 24-character array, as the C struct stores names. */
  type Name = s: string | |s| == 24 witness seq(24, _ => '\0')

  const VERSION_CONFIG_DATA: byte := 1
  const XLA_ORGANIZATION: string := "xlight.ca"
  const XLA_PRODUCT_NAME: string := "XRemote"

  /** Whether each record fits its slot of the EEPROM memory map (the map is not
      part of this model). */
  const CONFIG_FITS: bool
  const DST_FITS: bool

  datatype Timezone = Timezone(id: uint16, offset: int16, dst: uint1)

  datatype Config = Config(
    version: byte,
    indBrightness: uint4,
    nodeId: byte,
    networkId: uint64,
    token: uint16,
    timeZone: Timezone,
    organization: Name,
    productName: Name,
    enableDailyTimeSync: bool,
    enableSpeaker: bool,
    rfPowerLevel: uint2,
    stWiFi: bool,
    useCloud: byte)

  /** The state of one lamp ring. */
  datatype Hue = Hue(state: bool, br: uint7, cct: uint16, r: byte, g: byte, b: byte)

  const WhiteHue := Hue(true, 50, 2700, 0, 0, 0)

  type Rings = s: seq<Hue> | |s| == 3 witness [WhiteHue, WhiteHue, WhiteHue]

  datatype DevStatus = DevStatus(uid: byte, nodeId: byte, present: bool, devType: byte, ring: Rings)

  /** What the EEPROM holds. */
  datatype Eeprom = Eeprom(config: Config, dev: DevStatus)

  datatype Store = Store(
    config: Config,
    dev: DevStatus,
    loaded: bool,
    changed: bool,
    dstChanged: bool,
    eeprom: Eeprom)

  /** A store together with the boolean an operation returns. */
  datatype Updated = Updated(store: Store, ok: bool)

  //--------------------------------------------------------------------------
  // Names
  //--------------------------------------------------------------------------

  predicate NoNul(s: string)
  {
    forall i :: 0 <= i < |s| ==> s[i] != '\0'
  }

  /** The C string held in a character array: everything before the first NUL. */
  function CString(a: string): (r: string)
    ensures r <= a && NoNul(r)
    ensures |r| < |a| ==> a[|r|] == '\0'
  {
    if |a| == 0 || a[0] == '\0' then "" else [a[0]] + CString(a[1..])
  }

  /** `strncpy(dest, src, 23)` into a 24-character array: at most 23 characters are
      copied, the rest of the first 23 is NUL-filled, the last character is kept. */
  function CopyName(dest: Name, src: string): (r: Name)
    ensures forall i :: 0 <= i < 23 && i < |src| ==> r[i] == src[i]
    ensures forall i :: |src| <= i < 23 ==> r[i] == '\0'
    ensures r[23] == dest[23]
  {
    seq(24, i requires 0 <= i < 24 => if i == 23 then dest[23] else if i < |src| then src[i] else '\0')
  }

  /** A name as `strcpy` leaves it in a zeroed array. */
  function NameOf(s: string): (r: Name)
    requires |s| < 24
    ensures r[..|s|] == s && forall i :: |s| <= i < 24 ==> r[i] == '\0'
  {
    s + seq(24 - |s|, _ => '\0')
  }

  /** Reading back a copied name gives its first 23 characters, provided the array
      was terminated at its last position. */
  lemma {:induction false} CopyNameRoundTrip(dest: Name, src: string)
    requires NoNul(src)
    ensures dest[23] == '\0' ==> CString(CopyName(dest, src)) == if |src| < 23 then src else src[..23]
  {
    if dest[23] == '\0' {
      var a := CopyName(dest, src);
      var n := if |src| < 23 then |src| else 23;
      CStringPrefix(a, n);
      assert a[..n] == src[..n];
    }
  }

  lemma {:induction false} CStringPrefix(a: string, n: nat)
    requires n < |a| && a[n] == '\0' && NoNul(a[..n])
    ensures CString(a) == a[..n]
    decreases n
  {
    if n > 0 {
      assert a[0] == a[..n][0];
      assert a[1..][..n - 1] == a[..n][1..];
      CStringPrefix(a[1..], n - 1);
    }
  }

  //--------------------------------------------------------------------------
  // Defaults and validity
  //--------------------------------------------------------------------------

  /** `InitConfig`: a zeroed record with the factory settings filled in (time zone
      90, -300 minutes, daylight saving on; node id `AUTO`). */
  function InitConfig(): (c: Config)
    ensures c.version == VERSION_CONFIG_DATA && c.token == 0 && c.nodeId == AUTO
    ensures c.timeZone == Timezone(90, -300, 1)
    ensures c.networkId == RF24_BASE_RADIO_ID
    ensures CString(c.organization) == XLA_ORGANIZATION && CString(c.productName) == XLA_PRODUCT_NAME
    ensures c.organization[23] == '\0' && c.productName[23] == '\0'
    ensures c.indBrightness == 0 && !c.enableSpeaker && c.enableDailyTimeSync
    ensures c.rfPowerLevel == RF24_PA_LEVEL_NODE % 4
  {
    var org := NameOf(XLA_ORGANIZATION);
    var prod := NameOf(XLA_PRODUCT_NAME);
    CStringPrefix(org, |XLA_ORGANIZATION|);
    CStringPrefix(prod, |XLA_PRODUCT_NAME|);
    Config(VERSION_CONFIG_DATA, 0, AUTO, RF24_BASE_RADIO_ID, 0, Timezone(90, -300, 1),
           org, prod, true, false, RF24_PA_LEVEL_NODE % 4, false, 0)
  }

  /** `InitDevStatus`: three white rings, on, at brightness 50 and 2700 K. */
  function InitDevStatus(nodeId: byte): (d: DevStatus)
    ensures d.uid == 0 && d.nodeId == nodeId && !d.present && d.devType == DEVTYPE_W_RING3
    ensures forall k :: 0 <= k < 3 ==> d.ring[k] == Hue(true, 50, 2700, 0, 0, 0)
  {
    DevStatus(0, nodeId, false, DEVTYPE_W_RING3, [WhiteHue, WhiteHue, WhiteHue])
  }

  /** What `LoadConfig` accepts from the EEPROM. */
  predicate ConfigValid(c: Config)
  {
    c.version != 0xFF
    && 1 <= c.timeZone.id <= 500
    && c.timeZone.dst <= 1
    && -780 <= c.timeZone.offset <= 780
    && c.rfPowerLevel <= RF24_PA_MAX
  }

  /** What `LoadDeviceStatus` accepts from the EEPROM. */
  predicate DevStatusValid(d: DevStatus)
  {
    d.uid == 0 && d.ring[0].br <= 100 && CT_MIN_VALUE <= d.ring[0].cct <= CT_MAX_VALUE
  }

  lemma DefaultsValid(nodeId: byte)
    requires ProtocolAssumptions()
    ensures ConfigValid(InitConfig())
    ensures DevStatusValid(InitDevStatus(nodeId))
  {
  }

  //--------------------------------------------------------------------------
  // Loading and saving
  //--------------------------------------------------------------------------

  /** `SaveDeviceStatus`: writes the record when its flag is up, then clears it. */
  function SaveDeviceStatus(s: Store): (r: Updated)
    ensures r.ok && !r.store.dstChanged
    ensures s.dstChanged ==> r.store.eeprom.dev == s.dev
    ensures !s.dstChanged ==> r.store == s
    ensures r.store.eeprom.config == s.eeprom.config && r.store.config == s.config
    ensures r.store.dev == s.dev && r.store.changed == s.changed && r.store.loaded == s.loaded
  {
    if s.dstChanged then Updated(s.(eeprom := s.eeprom.(dev := s.dev), dstChanged := false), true)
    else Updated(s, true)
  }

  /** `SaveConfig`: writes the configuration when its flag is up, clears the flag, and
      always goes on to save the device status. */
  function SaveConfig(s: Store): (r: Updated)
    ensures r.ok && !r.store.changed && !r.store.dstChanged
    ensures r.store.eeprom.config == if s.changed then s.config else s.eeprom.config
    ensures r.store.eeprom.dev == if s.dstChanged then s.dev else s.eeprom.dev
    ensures r.store.config == s.config && r.store.dev == s.dev && r.store.loaded == s.loaded
  {
    var s1 := if s.changed then s.(eeprom := s.eeprom.(config := s.config), changed := false) else s;
    SaveDeviceStatus(s1)
  }

  /** `LoadDeviceStatus`: an invalid stored record is replaced by the defaults for
      the main device, which are written back. */
  function LoadDeviceStatus(s: Store): (r: Updated)
    ensures r.ok == DST_FITS
    ensures !DST_FITS ==> r.store == s
    ensures DST_FITS && DevStatusValid(s.eeprom.dev) ==> r.store == s.(dev := s.eeprom.dev, dstChanged := false)
    ensures DST_FITS && !DevStatusValid(s.eeprom.dev) ==>
              r.store == s.(dev := InitDevStatus(NODEID_MAINDEVICE), dstChanged := false,
                             eeprom := s.eeprom.(dev := InitDevStatus(NODEID_MAINDEVICE)))
  {
    if !DST_FITS then Updated(s, false)
    else if !DevStatusValid(s.eeprom.dev) then
      var s1 := SaveDeviceStatus(s.(dev := InitDevStatus(NODEID_MAINDEVICE), dstChanged := true)).store;
      Updated(s1.(dstChanged := false), true)
    else
      Updated(s.(dev := s.eeprom.dev, dstChanged := false), true)
  }

  /** The device status record `LoadConfig` finds in the EEPROM once the
      configuration step is done: saving the default configuration also writes a
      pending device status. */
  function StoredDevStatus(s: Store): (d: DevStatus)
    ensures !CONFIG_FITS || ConfigValid(s.eeprom.config) || !s.dstChanged ==> d == s.eeprom.dev
  {
    if CONFIG_FITS && !ConfigValid(s.eeprom.config) && s.dstChanged then s.dev else s.eeprom.dev
  }

  /** `LoadConfig`: an invalid stored configuration is replaced by the defaults,
      which are saved; a valid one is taken with its token cleared. Either way the
      store is marked loaded and unchanged, then the device status is loaded. */
  function LoadConfig(s: Store): (r: Updated)
    ensures r.ok == r.store.loaded
    ensures !CONFIG_FITS ==> r.store.config == s.config && r.store.loaded == s.loaded
    ensures CONFIG_FITS ==> r.store.loaded && !r.store.changed && r.store.config.token == 0
    ensures CONFIG_FITS && ConfigValid(s.eeprom.config) ==> r.store.config == s.eeprom.config.(token := 0)
    ensures CONFIG_FITS && !ConfigValid(s.eeprom.config) ==>
              r.store.config == InitConfig() && r.store.eeprom.config == InitConfig()
    ensures DST_FITS ==> !r.store.dstChanged
    ensures var stored := StoredDevStatus(s);
            var dev := if DevStatusValid(stored) then stored else InitDevStatus(NODEID_MAINDEVICE);
            && (DST_FITS ==> r.store.dev == dev && r.store.eeprom.dev == dev)
            && (!DST_FITS ==> r.store.dev == s.dev && r.store.eeprom.dev == stored)
  {
    var s2 :=
      if !CONFIG_FITS then s
      else
        var s1 :=
          if !ConfigValid(s.eeprom.config) then SaveConfig(s.(config := InitConfig(), changed := true)).store
          else s.(config := s.eeprom.config.(token := 0));
        s1.(loaded := true, changed := false);
    var s3 := LoadDeviceStatus(s2).store;
    Updated(s3, s3.loaded)
  }

  /** Saving a valid configuration and loading it back gives the same configuration
      with the token cleared. */
  lemma SaveLoadRoundTrip(s: Store)
    requires CONFIG_FITS && ConfigValid(s.config) && s.changed
    ensures LoadConfig(SaveConfig(s).store).store.config == s.config.(token := 0)
  {
  }

  //--------------------------------------------------------------------------
  // Configuration setters
  //--------------------------------------------------------------------------

  function SetVersion(s: Store, ver: byte): (r: Updated)
    ensures r.ok && r.store.config.version == ver
    ensures ver == s.config.version ==> r.store == s
    ensures ver != s.config.version ==> r.store == s.(config := s.config.(version := ver), changed := true)
  {
    if ver != s.config.version then Updated(s.(config := s.config.(version := ver), changed := true), true)
    else Updated(s, true)
  }

  /** Ids 0 and above 500 are rejected and change nothing. */
  function SetTimeZoneID(s: Store, tz: uint16): (r: Updated)
    ensures r.ok <==> 1 <= tz <= 500
    ensures !r.ok || tz == s.config.timeZone.id ==> r.store == s
    ensures r.ok && tz != s.config.timeZone.id ==>
              r.store == s.(config := s.config.(timeZone := s.config.timeZone.(id := tz)), changed := true)
  {
    if tz == 0 || tz > 500 then Updated(s, false)
    else if tz != s.config.timeZone.id then
      Updated(s.(config := s.config.(timeZone := s.config.timeZone.(id := tz)), changed := true), true)
    else Updated(s, true)
  }

  /** Flags above 1 are rejected and change nothing. */
  function SetDaylightSaving(s: Store, flag: byte): (r: Updated)
    ensures r.ok <==> flag <= 1
    ensures !r.ok || flag == s.config.timeZone.dst ==> r.store == s
    ensures r.ok && flag != s.config.timeZone.dst ==>
              r.store == s.(config := s.config.(timeZone := s.config.timeZone.(dst := flag)), changed := true)
  {
    if flag > 1 then Updated(s, false)
    else if flag != s.config.timeZone.dst then
      Updated(s.(config := s.config.(timeZone := s.config.timeZone.(dst := flag)), changed := true), true)
    else Updated(s, true)
  }

  /** Offsets outside [-780, 780] minutes are rejected and change nothing. */
  function SetTimeZoneOffset(s: Store, offset: int16): (r: Updated)
    ensures r.ok <==> -780 <= offset <= 780
    ensures !r.ok || offset == s.config.timeZone.offset ==> r.store == s
    ensures r.ok && offset != s.config.timeZone.offset ==>
              r.store == s.(config := s.config.(timeZone := s.config.timeZone.(offset := offset)), changed := true)
  {
    if -780 <= offset <= 780 then
      if offset != s.config.timeZone.offset then
        Updated(s.(config := s.config.(timeZone := s.config.timeZone.(offset := offset)), changed := true), true)
      else Updated(s, true)
    else Updated(s, false)
  }

  /** Offset in minutes including daylight saving, as a 16-bit value. */
  function GetTimeZoneDSTOffset(c: Config): (r: int16)
    ensures -780 <= c.timeZone.offset <= 780 ==> r == c.timeZone.offset + 60 * c.timeZone.dst
  {
    ToInt16(c.timeZone.offset + c.timeZone.dst * 60)
  }

  /** The name is always marked changed, even when it is the same. */
  function SetOrganization(s: Store, name: string): (r: Store)
    requires NoNul(name)
    ensures r.changed
    ensures s.config.organization[23] == '\0' ==>
              CString(r.config.organization) == if |name| < 23 then name else name[..23]
    ensures r == s.(config := s.config.(organization := r.config.organization), changed := true)
  {
    CopyNameRoundTrip(s.config.organization, name);
    s.(config := s.config.(organization := CopyName(s.config.organization, name)), changed := true)
  }

  function SetProductName(s: Store, name: string): (r: Store)
    requires NoNul(name)
    ensures r.changed
    ensures s.config.productName[23] == '\0' ==>
              CString(r.config.productName) == if |name| < 23 then name else name[..23]
    ensures r == s.(config := s.config.(productName := r.config.productName), changed := true)
  {
    CopyNameRoundTrip(s.config.productName, name);
    s.(config := s.config.(productName := CopyName(s.config.productName, name)), changed := true)
  }

  function SetNodeID(s: Store, nodeId: byte): (r: Store)
    ensures r.config.nodeId == nodeId
    ensures nodeId == s.config.nodeId ==> r == s
    ensures nodeId != s.config.nodeId ==> r == s.(config := s.config.(nodeId := nodeId), changed := true)
  {
    if nodeId != s.config.nodeId then s.(config := s.config.(nodeId := nodeId), changed := true) else s
  }

  function SetNetworkID(s: Store, netId: uint64): (r: Store)
    ensures r.config.networkId == netId
    ensures netId == s.config.networkId ==> r == s
    ensures netId != s.config.networkId ==> r == s.(config := s.config.(networkId := netId), changed := true)
  {
    if netId != s.config.networkId then s.(config := s.config.(networkId := netId), changed := true) else s
  }

  function SetToken(s: Store, token: uint16): (r: Store)
    ensures r.config.token == token
    ensures token == s.config.token ==> r == s
    ensures token != s.config.token ==> r == s.(config := s.config.(token := token), changed := true)
  {
    if token != s.config.token then s.(config := s.config.(token := token), changed := true) else s
  }

  /** The remote counts as present exactly when it holds a token. */
  function GetPresent(c: Config): (r: bool)
    ensures r <==> c.token != 0
  {
    c.token > 0
  }

  function SetDailyTimeSyncEnabled(s: Store, sw: bool): (r: Store)
    ensures r.config.enableDailyTimeSync == sw
    ensures sw == s.config.enableDailyTimeSync ==> r == s
    ensures sw != s.config.enableDailyTimeSync ==>
              r == s.(config := s.config.(enableDailyTimeSync := sw), changed := true)
  {
    if sw != s.config.enableDailyTimeSync then s.(config := s.config.(enableDailyTimeSync := sw), changed := true)
    else s
  }

  function SetSpeakerEnabled(s: Store, sw: bool): (r: Store)
    ensures r.config.enableSpeaker == sw
    ensures sw == s.config.enableSpeaker ==> r == s
    ensures sw != s.config.enableSpeaker ==> r == s.(config := s.config.(enableSpeaker := sw), changed := true)
  {
    if sw != s.config.enableSpeaker then s.(config := s.config.(enableSpeaker := sw), changed := true) else s
  }

  /** The level is compared in full but stored in 4 bits, so a level of 16 or more
      reports a change and keeps only its low four bits. */
  function SetBrightIndicator(s: Store, level: byte): (r: Updated)
    ensures r.ok <==> level != s.config.indBrightness
    ensures r.ok ==> r.store == s.(config := s.config.(indBrightness := level % 16), changed := true)
    ensures !r.ok ==> r.store == s
  {
    if level != s.config.indBrightness then
      Updated(s.(config := s.config.(indBrightness := level % 16), changed := true), true)
    else Updated(s, false)
  }

  /** The level is clamped to `RF24_PA_MAX`; the result says whether it changed. */
  function SetRFPowerLevel(s: Store, level: byte): (r: Updated)
    requires ProtocolAssumptions()
    ensures r.store.config.rfPowerLevel == if level > RF24_PA_MAX then RF24_PA_MAX else level
    ensures r.ok <==> r.store.config.rfPowerLevel != s.config.rfPowerLevel
    ensures r.ok ==> r.store == s.(config := s.config.(rfPowerLevel := r.store.config.rfPowerLevel), changed := true)
    ensures !r.ok ==> r.store == s
  {
    var lv := if level > RF24_PA_MAX then RF24_PA_MAX else level;
    if lv != s.config.rfPowerLevel then
      Updated(s.(config := s.config.(rfPowerLevel := lv % 4), changed := true), true)
    else Updated(s, false)
  }

  /** The range-checked setters keep a valid configuration valid. */
  lemma TimeZoneSettersKeepValid(s: Store, tz: uint16, flag: byte, offset: int16)
    requires ConfigValid(s.config)
    ensures ConfigValid(SetTimeZoneID(s, tz).store.config)
    ensures ConfigValid(SetDaylightSaving(s, flag).store.config)
    ensures ConfigValid(SetTimeZoneOffset(s, offset).store.config)
  {
    ZoneIdKeepsValid(s, tz);
    DstKeepsValid(s, flag);
    OffsetKeepsValid(s, offset);
  }

  lemma ZoneIdKeepsValid(s: Store, tz: uint16)
    requires ConfigValid(s.config)
    ensures ConfigValid(SetTimeZoneID(s, tz).store.config)
  {
  }

  lemma DstKeepsValid(s: Store, flag: byte)
    requires ConfigValid(s.config)
    ensures ConfigValid(SetDaylightSaving(s, flag).store.config)
  {
  }

  lemma OffsetKeepsValid(s: Store, offset: int16)
    requires ConfigValid(s.config)
    ensures ConfigValid(SetTimeZoneOffset(s, offset).store.config)
  {
  }

  lemma PowerLevelKeepsValid(s: Store, level: byte)
    requires ProtocolAssumptions() && ConfigValid(s.config)
    ensures ConfigValid(SetRFPowerLevel(s, level).store.config)
  {
  }

  /** `SetVersion` keeps a valid configuration valid unless it writes the "empty"
      marker 0xFF. */
  lemma VersionValidity(s: Store, ver: byte)
    requires ConfigValid(s.config)
    ensures ConfigValid(SetVersion(s, ver).store.config) <==> ver != 0xFF
  {
  }

  /** Writing the same value twice is the same as writing it once. */
  lemma SettersIdempotent(s: Store, id: byte, net: uint64, token: uint16, tz: uint16, offset: int16, sw: bool)
    ensures SetNodeID(SetNodeID(s, id), id) == SetNodeID(s, id)
    ensures SetNetworkID(SetNetworkID(s, net), net) == SetNetworkID(s, net)
    ensures SetToken(SetToken(s, token), token) == SetToken(s, token)
    ensures SetTimeZoneID(SetTimeZoneID(s, tz).store, tz) == SetTimeZoneID(s, tz)
    ensures SetTimeZoneOffset(SetTimeZoneOffset(s, offset).store, offset) == SetTimeZoneOffset(s, offset)
    ensures SetSpeakerEnabled(SetSpeakerEnabled(s, sw), sw) == SetSpeakerEnabled(s, sw)
    ensures SetDailyTimeSyncEnabled(SetDailyTimeSyncEnabled(s, sw), sw) == SetDailyTimeSyncEnabled(s, sw)
  {
  }

  //--------------------------------------------------------------------------
  // Device-status setters
  //--------------------------------------------------------------------------

  function SetDevPresent(s: Store, present: bool): (r: Store)
    ensures r.dev.present == present
    ensures present == s.dev.present ==> r == s
    ensures present != s.dev.present ==> r == s.(dev := s.dev.(present := present), dstChanged := true)
  {
    if present != s.dev.present then s.(dev := s.dev.(present := present), dstChanged := true) else s
  }

  function SetDevType(s: Store, devType: byte): (r: Store)
    ensures r.dev.devType == devType
    ensures devType == s.dev.devType ==> r == s
    ensures devType != s.dev.devType ==> r == s.(dev := s.dev.(devType := devType), dstChanged := true)
  {
    if devType != s.dev.devType then s.(dev := s.dev.(devType := devType), dstChanged := true) else s
  }

  /** Compared against ring 0 only; when it differs, all three rings get the value. */
  function SetDevStatus(s: Store, status: bool): (r: Store)
    ensures status == s.dev.ring[0].state ==> r == s
    ensures status != s.dev.ring[0].state ==>
              r.dstChanged && r == s.(dev := r.dev, dstChanged := true) && r.dev == s.dev.(ring := r.dev.ring)
              && forall k :: 0 <= k < 3 ==> r.dev.ring[k] == s.dev.ring[k].(state := status)
  {
    if status != s.dev.ring[0].state then
      var g := s.dev.ring;
      s.(dev := s.dev.(ring := [g[0].(state := status), g[1].(state := status), g[2].(state := status)]),
         dstChanged := true)
    else s
  }

  /** Compared in full against ring 0; stored in 7 bits in all three rings. */
  function SetDevBrightness(s: Store, level: byte): (r: Store)
    ensures level == s.dev.ring[0].br ==> r == s
    ensures level != s.dev.ring[0].br ==>
              r == s.(dev := r.dev, dstChanged := true) && r.dev == s.dev.(ring := r.dev.ring)
              && forall k :: 0 <= k < 3 ==> r.dev.ring[k] == s.dev.ring[k].(br := level % 128)
  {
    if level != s.dev.ring[0].br then
      var g := s.dev.ring;
      var br := level % 128;
      s.(dev := s.dev.(ring := [g[0].(br := br), g[1].(br := br), g[2].(br := br)]), dstChanged := true)
    else s
  }

  function SetDevCCT(s: Store, cct: uint16): (r: Store)
    ensures cct == s.dev.ring[0].cct ==> r == s
    ensures cct != s.dev.ring[0].cct ==>
              r == s.(dev := r.dev, dstChanged := true) && r.dev == s.dev.(ring := r.dev.ring)
              && forall k :: 0 <= k < 3 ==> r.dev.ring[k] == s.dev.ring[k].(cct := cct)
  {
    if cct != s.dev.ring[0].cct then
      var g := s.dev.ring;
      s.(dev := s.dev.(ring := [g[0].(cct := cct), g[1].(cct := cct), g[2].(cct := cct)]), dstChanged := true)
    else s
  }

  /** Rings that agree stay in agreement, and the getters (which read ring 0) read
      back what was written. */
  lemma DevSettersReadBack(s: Store, status: bool, level: byte, cct: uint16)
    ensures SetDevStatus(s, status).dev.ring[0].state == status
    ensures SetDevBrightness(s, level).dev.ring[0].br == level % 128
    ensures SetDevCCT(s, cct).dev.ring[0].cct == cct
  {
  }
}
