# xlight smart remote: a Dafny model of the firmware core

This project models the core logic of the xlight smart remote firmware in Dafny 4.11, as pure functions over immutable records. The remote is a Particle board that drives xlight lamps over an RF24 radio running the MySensors protocol. The model covers these parts:

- **Command-string codec** (`RF24Client`). It splits `"<node>:<template>[:<payload>]"` and builds one of the message templates 1..13.
- **Dispatcher** (`RF24Client`). It covers next-hop choice, the `_times`/`_succ` counters, `ChangeNodeID`, and the packing of the MAC address into a network id.
- **Receive router** (`Router`). It covers the length guard and the case split on command, type and ack, including the deliberate fall-through from `C_REQ` into `C_SET`.
- **Configuration and device-status store** (`Config`):
  - range-checked setters with their change flags;
  - the validity checks applied at load time;
  - the three lamp rings;
  - the bit-field widths of the stored records.
- **Console interpreter**, in three modules:
  - `ConsoleTable`: the `fsmMain` table as data, and the table lookup.
  - `SerialConsole`: the Wi-Fi setup workflow, `String2IP` and `CloudOutput`.
  - `ConsoleCommands`: the command handlers (`doSet`, `doSend`, `doTest` and the others), one scan of the table, and `ExecuteCloudCommand`.
  - The scan runs the handlers as the firmware has them: `SetWiFiCredential` with its assignments and `String2IP` with its loop test. The corrected versions of both are stated beside them (see "## Findings"), with lemmas that say where the two differ.
- **System helpers** (`SmartRemote`, `CloudTime`, `Common`):
  - `SetStatus` and the `ResumeRFNetwork` decision;
  - the command-string builders (`DevSoftSwitch`, `SendChange*` and the others);
  - `CldSetCurrentTime`;
  - the node-id and device-type predicates, the status codes and the bit macros.

Shared library behaviour is in `Arduino`: `atoi`/`toInt`, `constrain`, C's `%`, `String::indexOf`, `substring`, `trim`, `toLowerCase` and `%d` formatting. `MySensors` holds the message record and the protocol constants.

The abstract state has four parts:

- **Radio** (`RF24Client.Radio`): the own address, the counters and the global message buffer.
- **Store** (`Config.Store`): the configuration record, the device-status record, the EEPROM image and the change flags.
- **Console** (`SerialConsole.Console`): the menu state, the Wi-Fi answers, the cloud flag and the last cloud message.
- **Status code** of the system.

Every operation returns the new state together with its result. Platform actions (a radio send, a ping, a reset, setting the clock, new Wi-Fi credentials) are returned as data rather than performed.

Assumptions about code that is not part of this model:

- **MySensors constants.** `AUTO`, `GATEWAY_ADDRESS`, `BASESERVICE_ADDRESS`, `C_*`, `V_*`, `S_*`, `I_*`, `HEADER_SIZE`, `MAX_MESSAGE_LENGTH`, `RF24_BASE_RADIO_ID`, `RF24_PA_MAX` and `RF24_PA_LEVEL_NODE` are constants without a value. The lemmas that need facts about them state those facts as preconditions: `AUTO` is not 0, the `C_*` are distinct, the `V_*` are distinct, and `RF24_PA_MAX` is at most 3.
- **`MyMessage`** is a plain record with a byte-sequence payload. Numbers are written and read little-endian. `build` keeps the previous payload, as MySensors' `build` does.
- **The table engine** (`scanStateMachine`) lives in a base class that is not part of this model. The lookup is modelled as stated below:
  - A word matching a row of the current state exactly, ignoring case, picks that row.
  - Otherwise the state's empty-word row is picked.
  - Otherwise the `consoleDummy` row is picked.
  - The state moves to the row's next state before the handler runs. `SetupWiFi` depends on this, because it records the SSID when the current state is already `consoleWF_GetPassword`.
  - A handler's `cmd` argument is the word as typed, not the row's word. `doHelp` and `SetupWiFi` read it.
  - `doSysSub` tests `CommandList[currentCommand].event` (lib/xlxSerialConsole.cpp:638), taken to be the word of the table row that ran it, not the typed word.
- **Console lines** arrive already split into words. A missing word (NULL from `next()`) is modelled as `None`, and as the empty string where the firmware passes it on to `strlen`, `atoi` or `String`.

## Model

| member | source | states |
|---|---|---|
| Arduino.CRem | lib/xlxSerialConsole.cpp:756 | C's `%` truncates toward zero: for a non-negative dividend the remainder is in [0, abs(divisor)), and for a negative dividend it is in (-abs(divisor), 0] |
| Arduino.Constrain | lib/xlxRF24Client.cpp:214 | `constrain(x, lo, hi)` lies in [lo, hi], returns x when x is inside, lo when below and hi when above |
| Arduino.AtoINoNumber | lib/xlxRF24Client.cpp:117-123 | `toInt`/`atoi` of a text with no digit after the leading blanks and sign is 0 |
| Arduino.AtoIDecimal | lib/xlxRF24Client.cpp:117-123 | `toInt`/`atoi` of a string of digits is its decimal value |
| Arduino.FormatDecimalRoundTrip | xlSmartRemote.cpp:245 | printing a number with `%d` and reading it back with `atoi` gives the number |
| Arduino.IndexOf | lib/xlxRF24Client.cpp:111 | `indexOf(c, from)` is the first index at or after `from` holding c, or -1 exactly when there is none |
| Arduino.Trim | xlSmartRemote.cpp:271 | `trim` leaves no white space at either end and keeps a string that has none |
| Arduino.TrimInner | xlSmartRemote.cpp:271 | what `trim` returns is a slice of the text with only white space before and after it |
| Arduino.TrimUnique | xlSmartRemote.cpp:271 | white space, then a text that starts and ends with something else, then white space trims to that text; with `TrimInner` this pins the result down |
| Arduino.Lower | xlSmartRemote.cpp:272 | `toLowerCase` keeps the length and lowers each character |
| Common.NodeIdRanges | inc/xliCommon.h:124-125 | a node id is a remote id iff it is in [64, 127], and a device id iff it is in [8, 63] or is 1; the two ranges are disjoint and both exclude 0 and 255 |
| Common.StatusCodesDense | inc/xliCommon.h:27-34 | the status codes are 0..7 in order, so `STATUS_ERR` = 7 is the largest |
| Common.DeviceFamilies | inc/xliCommon.h:119-122 | Rainbow is types 1..3, Sunny 4..6 and Mirage 8..10; the families are pairwise disjoint, type 7 is in none, and a valid remote type is 1..3 |
| Common.BitSet | inc/xliCommon.h:9-11 | after `BITSET(v, p)`, `BITTEST` at p reads 1 |
| Common.BitUnset | inc/xliCommon.h:9-12 | after `BITUNSET(v, p)`, `BITTEST` at p reads 0 |
| Common.BitSetOthers | inc/xliCommon.h:9-11 | `BITSET` at p leaves every other bit as it was |
| Common.BitUnsetOthers | inc/xliCommon.h:9-12 | `BITUNSET` at p leaves every other bit as it was |
| MySensors.LittleEndianFits | lib/xlxRF24Client.cpp:153 | a value written into n bytes reads back unchanged when it fits in n bytes |
| MySensors.ReadersInvertWriters | lib/xlxRF24Client.cpp:346 | the byte, 16-bit and 64-bit readers give back what the matching writer stored |
| Config.CopyNameRoundTrip | lib/xlxConfig.cpp:272-288 | reading back a name copied with `strncpy(.., 23)` gives its first 23 characters, provided the array's last character is NUL |
| Config.InitConfig | lib/xlxConfig.cpp:59-75 | the factory configuration: version 1, time zone 90 at -300 minutes with DST on, node id `AUTO`, base network id, token 0, the organisation and product names, speaker off, daily sync on, power level `RF24_PA_LEVEL_NODE` cut to 2 bits |
| Config.InitDevStatus | lib/xlxConfig.cpp:77-94 | the default device status: uid 0, not present, type `devtypWRing3`, and all three rings on at brightness 50 and 2700 K with no colour |
| Config.DefaultsValid | lib/xlxConfig.cpp:99-108 | the factory records pass the load-time checks |
| Config.LoadConfig | lib/xlxConfig.cpp:96-130 | when the record fits its slot, a stored record failing any load check is replaced by the defaults, in memory and in the EEPROM, and one passing them is kept with its token cleared; either way it then counts as loaded and unchanged. Then the device status is loaded: the stored one, or the one that saving the defaults just wrote, is kept if it passes the device-status checks and is replaced by `InitDevStatus(NODEID_MAINDEVICE)` otherwise, in memory and in the EEPROM; when its record does not fit, the in-memory status stays as it was |
| Config.LoadDeviceStatus | lib/xlxConfig.cpp:420-448 | a record too large for its slot gives false and changes nothing; otherwise a stored record with uid not 0, ring-0 brightness above 100, or ring-0 CCT outside [2700, 6500] is replaced by `InitDevStatus(NODEID_MAINDEVICE)`, in memory and in the EEPROM, a passing one is taken as it is, and the flag ends false |
| Config.SaveConfig | lib/xlxConfig.cpp:132-145 | always true; the EEPROM gets the configuration iff its flag was up and the device status iff its own flag was up, and both flags end false |
| Config.SaveDeviceStatus | lib/xlxConfig.cpp:451-460 | always true; the device status is written iff its flag was up, then the flag is cleared, and nothing else changes |
| Config.SaveLoadRoundTrip | lib/xlxConfig.cpp:96-145 | saving a changed, valid configuration and loading it back gives the same configuration with token 0 |
| Config.SetVersion | lib/xlxConfig.cpp:177-185 | the change flag rises only when the version differs; otherwise the store is untouched |
| Config.VersionValidity | lib/xlxConfig.cpp:102 | setting a version keeps a valid configuration valid iff the version is not 0xFF |
| Config.SetTimeZoneID | lib/xlxConfig.cpp:192-204 | succeeds iff the id is in [1, 500]; a rejection or an unchanged id leaves the store as it was |
| Config.SetDaylightSaving | lib/xlxConfig.cpp:217-230 | succeeds iff the flag is at most 1; a rejection or an unchanged flag leaves the store as it was |
| Config.SetTimeZoneOffset | lib/xlxConfig.cpp:242-257 | succeeds iff the offset is in [-780, 780]; a rejection or an unchanged offset leaves the store as it was |
| Config.TimeZoneSettersKeepValid | lib/xlxConfig.cpp:192-257 | the three time-zone setters keep a valid configuration valid |
| Config.GetTimeZoneDSTOffset | lib/xlxConfig.cpp:237-240 | offset + 60 · dst |
| Config.SetOrganization | lib/xlxConfig.cpp:272-276 | the flag rises even for the same name, and the name reads back cut to 23 characters |
| Config.SetProductName | lib/xlxConfig.cpp:284-288 | the same for the product name |
| Config.SetNodeID | lib/xlxConfig.cpp:295-302 | the node id is stored; the flag rises iff it changed, and otherwise the store is untouched |
| Config.SetNetworkID | lib/xlxConfig.cpp:309-316 | the same for the network id |
| Config.SetToken | lib/xlxConfig.cpp:328-335 | the same for the token |
| Config.GetPresent | lib/xlxConfig.cpp:323-326 | present iff the token is non-zero |
| Config.SetDailyTimeSyncEnabled | lib/xlxConfig.cpp:342-348 | stored; the flag rises iff the value changed |
| Config.SetSpeakerEnabled | lib/xlxConfig.cpp:355-361 | stored; the flag rises iff the value changed |
| Config.SettersIdempotent | lib/xlxConfig.cpp:192-361 | writing the same value twice is the same as writing it once |
| Config.SetBrightIndicator | lib/xlxConfig.cpp:390-400 | true iff the level differs from the stored one; the level is then kept in 4 bits (lib/xlxConfig.h:36) and the flag rises |
| Config.SetRFPowerLevel | lib/xlxConfig.cpp:407-417 | the level is clamped to `RF24_PA_MAX`; true iff the stored level changed, and only then does the flag rise |
| Config.PowerLevelKeepsValid | lib/xlxConfig.cpp:407-417 | setting the power level keeps a valid configuration valid |
| Config.SetDevPresent | lib/xlxConfig.cpp:467-475 | stored; the device-status flag rises iff the value changed |
| Config.SetDevType | lib/xlxConfig.cpp:482-489 | stored; the device-status flag rises iff the value changed |
| Config.SetDevStatus | lib/xlxConfig.cpp:496-506 | compared against ring 0 only; when it differs, all three rings get the value and the flag rises |
| Config.SetDevBrightness | lib/xlxConfig.cpp:513-523 | compared in full against ring 0; when it differs, all three rings get it in 7 bits (lib/xlxConfig.h:26) and the flag rises |
| Config.SetDevCCT | lib/xlxConfig.cpp:530-540 | compared against ring 0; when it differs, all three rings get it and the flag rises |
| Config.DevSettersReadBack | lib/xlxConfig.cpp:491-540 | the ring-0 getters read back the written state, the brightness mod 128 and the CCT |
| RF24Client.GetNetworkID | lib/xlxRF24Client.cpp:70-84 | the loop computes all six MAC bytes big-endian when `full`, else bytes 2..5 big-endian shifted left by 8 |
| RF24Client.ChangeNodeID | lib/xlxRF24Client.cpp:86-99 | the same id gives true and changes nothing; id 0 gives false and changes nothing; any other id sets the address to (id, `RF24_BASE_RADIO_ID`) and gives true |
| RF24Client.SplitCommand | lib/xlxRF24Client.cpp:111-130 | no `':'`, or a `':'` at index 0, gives template 0 |
| RF24Client.SplitThreeFields | lib/xlxRF24Client.cpp:115-121 | for `pre:mid:post`: node = `toInt(pre)` mod 256, template = `toInt(mid)` mod 256, payload = post |
| RF24Client.SplitTwoFields | lib/xlxRF24Client.cpp:115-125 | for `pre:mid`: the same node and template, and an empty payload |
| RF24Client.NonNumericTemplate | lib/xlxRF24Client.cpp:120-123 | a template field with no digits selects template 0 |
| RF24Client.Prepare | lib/xlxRF24Client.cpp:132-260 | no message is built iff the template is above 13, or is 1 while the own address is `GATEWAY_ADDRESS`, or is 0 while the free-form parser gives nothing; only template 1 changes the address |
| RF24Client.Template1RequestsId | lib/xlxRF24Client.cpp:145-157 | template 1 sets the own id to `AUTO` and sends an `I_ID_REQUEST` to `BASESERVICE_ADDRESS`, ignoring the parsed node |
| RF24Client.Template2Presentation | lib/xlxRF24Client.cpp:159-167 | template 2 presents the remote to the parsed node as a dimmer and asks for an ack |
| RF24Client.Template3TemperaturePresentation | lib/xlxRF24Client.cpp:169-174 | template 3 presents sensor 1 of the parsed node as `S_TEMP` with an empty string and no ack |
| RF24Client.Template4Temperature | lib/xlxRF24Client.cpp:176-182 | template 4 sets `V_TEMP` of sensor 1 to a float with two decimals whose IEEE-754 bytes read back as 23.5, with no ack |
| RF24Client.Template5Humidity | lib/xlxRF24Client.cpp:184-190 | template 5 sets `V_HUM` of sensor 1 to the 16-bit value 45, with no ack |
| RF24Client.TemplateRequests | lib/xlxRF24Client.cpp:192-224 | templates 6, 8 and 10 send a `C_REQ` for `V_STATUS`, `V_PERCENTAGE` and `V_LEVEL` with an ack, carrying the buffer's previous payload |
| RF24Client.Template7Switch | lib/xlxRF24Client.cpp:198-204 | the `V_STATUS` value is 1 iff the payload is exactly "1", else 0 |
| RF24Client.Template9Brightness | lib/xlxRF24Client.cpp:212-218 | the `V_PERCENTAGE` value is `atoi(payload)` clamped to [0, 100] |
| RF24Client.Template11ColourTemperature | lib/xlxRF24Client.cpp:226-232 | the `V_LEVEL` value is `atoi(payload)` clamped to [2700, 6500] |
| RF24Client.Template12RingRequest | lib/xlxRF24Client.cpp:234-239 | template 12 asks the parsed node for `V_RGBW` of all rings |
| RF24Client.Template13Fields | lib/xlxRF24Client.cpp:241-259 | for payload `br:cct` the payload is `[1, br mod 256, k mod 256, k / 256]`, with k = cct clamped to [2700, 6500] and br not clamped |
| RF24Client.Template13Payload | lib/xlxRF24Client.cpp:241-259 | the payload has four bytes, starts with 1, and bytes 2..3 hold a CCT in [2700, 6500] |
| RF24Client.Template13Defaults | lib/xlxRF24Client.cpp:243-251 | without a `':'` after the first character the payload is `[1, 65, 184, 11]`, i.e. brightness 65 and 3000 K |
| RF24Client.NextHop | lib/xlxRF24Client.cpp:284-291 | the gateway when the remote holds a token, else the message's destination |
| RF24Client.Dispatch | lib/xlxRF24Client.cpp:279-299 | `_times` goes up by exactly 1, `_succ` by 1 iff the link delivers, and the result is the link's answer |
| RF24Client.ProcessSend | lib/xlxRF24Client.cpp:262-269 | without a built message nothing is sent and the radio, counters included, is unchanged; otherwise the built message is dispatched |
| RF24Client.ProcessSendKeepsCountersSound | lib/xlxRF24Client.cpp:285-295 | a send keeps `_succ <= _times` |
| CloudTime.SetCurrentTime | xlSmartRemote.cpp:268-325 | the trimmed, lower-cased text empty or "sync" means a cloud sync; errors are codes 1..6 and otherwise the clock fields are set |
| CloudTime.DateOf | xlSmartRemote.cpp:287-303 | error 1 iff the year, cut to 16 bits, is outside [1970, 2100]; a missing second `'-'` gives at most 2; error 3 iff the day is outside [1, 31] after the year and month pass |
| CloudTime.ClockOf | xlSmartRemote.cpp:307-318 | error 4 iff the hour is above 24; a missing second `':'` is an error; error 6 iff the second is above 59 after the others pass; without a `':'` the current fields stay |
| CloudTime.NoSeparatorsKeepsClock | xlSmartRemote.cpp:285-324 | text with neither `'-'` nor `':'` (other than "" and "sync") returns 0 and keeps every field |
| CloudTime.DateRoundTrip | xlSmartRemote.cpp:287-302 | a well-formed `YYYY-MM-DD` sets the date and keeps the time of day |
| CloudTime.TimeRoundTrip | xlSmartRemote.cpp:307-318 | a well-formed `hh:mm:ss` sets the time of day and keeps the date |
| CloudTime.DateTimeRoundTrip | xlSmartRemote.cpp:287-318 | a well-formed `YYYY-MM-DD hh:mm:ss` sets all six fields |
| CloudTime.EmptySyncs | xlSmartRemote.cpp:271-276 | the empty text asks for a cloud sync |
| CloudTime.BadYear | xlSmartRemote.cpp:289-290 | a year outside [1970, 2100] after 16-bit truncation is error 1 |
| SmartRemote.SetStatus | xlSmartRemote.cpp:132-140 | a code above `STATUS_ERR` is refused and the status kept; otherwise the status is set and true returned |
| SmartRemote.SetStatusKeepsCode | xlSmartRemote.cpp:132-140 | the status stays one of the eight codes |
| SmartRemote.SwitchRoundTrip | xlSmartRemote.cpp:243-247 | splitting `"%d:7:%d"` gives back the device, template 7 and "1" or "0" |
| SmartRemote.LampStatusRoundTrip | xlSmartRemote.cpp:352-353 | splitting `"%d:12"` gives back the device and template 12 |
| SmartRemote.BrightnessRoundTrip | xlSmartRemote.cpp:358-359 | splitting `"%d:9:%d"` gives back the device, template 9 and the brightness |
| SmartRemote.CCTRoundTrip | xlSmartRemote.cpp:364-365 | splitting `"%d:11:%d"` gives back the device, template 11 and the CCT |
| SmartRemote.BrightnessCCTRoundTrip | xlSmartRemote.cpp:370-371 | splitting `"%d:13:%d:%d"` gives back the device, template 13 and `br:cct` |
| SmartRemote.FixedCommandsRoundTrip | xlSmartRemote.cpp:327-337 | "0:1" is template 1 and "0:2" is template 2, both addressed to node 0 |
| SmartRemote.DevSoftSwitch | xlSmartRemote.cpp:243-247 | sends a `V_STATUS` set to the device, carrying 1 iff the switch is on |
| SmartRemote.SendReqLampStatus | xlSmartRemote.cpp:339-354 | sends a `V_RGBW` request for all rings and counts one attempt |
| SmartRemote.SendChangeBrightness | xlSmartRemote.cpp:356-360 | the brightness arrives clamped to 100 |
| SmartRemote.SendChangeCCT | xlSmartRemote.cpp:362-366 | the CCT arrives clamped to [2700, 6500] |
| SmartRemote.SendChangeBrightnessCCT | xlSmartRemote.cpp:368-372 | the payload is `[1, br, cct low, cct high]`, with the CCT clamped |
| SmartRemote.SendDeviceRegister | xlSmartRemote.cpp:327-331 | nothing is sent iff the own address is the gateway's; otherwise the id request goes out |
| SmartRemote.SendDevicePresentation | xlSmartRemote.cpp:333-337 | presents the remote to node 0 and counts one attempt |
| SmartRemote.ResumeRFNetwork | xlSmartRemote.cpp:110-125 | a node id outside [64, 127] sends "0:1"; otherwise the address becomes (node id, network id) and "0:2" is sent |
| SmartRemote.ResumeRegistersOnlyWithoutId | xlSmartRemote.cpp:110-125 | a remote with an id in its range never asks for a new one, and one without such an id always does |
| Router.Route | lib/xlxRF24Client.cpp:337-418 | the counters count exactly the reply sent; only `C_INTERNAL` and `C_PRESENTATION` messages can be answered or change the radio, and a command outside the four handled changes nothing |
| Router.IdResponse | lib/xlxRF24Client.cpp:339-354 | an id response is committed only while the own id is `AUTO` or `BASESERVICE_ADDRESS` and the offered id is neither 0 nor 255; committing sets the address, node id and network id and sends the presentation |
| Router.PresentationAck | lib/xlxRF24Client.cpp:356-367 | an acked light or dimmer presentation stores the token and asks the main device for `V_RGBW` |
| Router.PresentAfterAck | lib/xlxRF24Client.cpp:359-363 | afterwards the remote is present iff the token received is non-zero |
| Router.RingReport | lib/xlxRF24Client.cpp:372-386 | type, present, on/off and brightness come from bytes 1, 2, 4 and 5; CCT = b7·256 + b6 is written only for Sunny types |
| Router.RingAck | lib/xlxRF24Client.cpp:369-391 | an acked `V_RGBW` request with success byte 0 clears present and status; with a non-zero byte it reports the ring; anything else changes nothing |
| Router.SetAck | lib/xlxRF24Client.cpp:392-414 | acked `V_STATUS`, `V_PERCENTAGE` and `V_LEVEL` each set present and write their own fields; anything else changes nothing |
| Router.RequestAckFallsThrough | lib/xlxRF24Client.cpp:369-392 | because of the missing `break`, a request ack other than `V_RGBW` updates the store exactly like the matching set ack |
| Router.StatusCommandsQuiet | lib/xlxRF24Client.cpp:369-417 | `C_REQ`, `C_SET` and unknown commands send nothing and touch neither the radio nor the configuration |
| Router.IdCommittedOnlyWhenAccepted | lib/xlxRF24Client.cpp:339-354 | an internal message changes anything iff the id response is accepted |
| Router.ProcessReceive | lib/xlxRF24Client.cpp:301-434 | an invalid radio or no frame gives false and no change; a frame shorter than `HEADER_SIZE` or longer than `MAX_MESSAGE_LENGTH` gives false, is left in the message buffer, and changes nothing else; otherwise `_received` goes up by 1, the result is true, and a send counts one attempt |
| Router.ReceiveKeepsCountersSound | lib/xlxRF24Client.cpp:301-434 | receiving keeps `_succ <= _times` |
| Router.DevBrightnessOnLamp | lib/xlxConfig.cpp:513-523 | a brightness write changes only the brightness, kept mod 128 |
| ConsoleTable.CodeInjective | lib/xlxSerialConsole.cpp:76-97 | distinct menu states have distinct `consoleState_t` codes |
| ConsoleTable.RowsOf | lib/xlxSerialConsole.cpp:100-148 | the rows of `fsmMain` grouped by their current state, in table order; every row listed for a state has it as its current state |
| ConsoleTable.Scan | lib/xlxSerialConsole.cpp:100-150 | a scan takes the next state and handler of the state's row whose word equals the input ignoring case; with no such row, those of the state's empty-word row; with neither, the `consoleDummy` row's: back to the root menu, running `doHelp` |
| ConsoleTable.LookupPrefersMatches | lib/xlxSerialConsole.cpp:100-150 | every row of the state whose word matches the input, ignoring case, is the row picked |
| ConsoleTable.LookupFallsToDefaults | lib/xlxSerialConsole.cpp:100-150 | unless some row matches, every empty-word row of the state is the row picked |
| ConsoleTable.LookupFallsToDummy | lib/xlxSerialConsole.cpp:100-150 | a row other than `consoleDummy` is picked only when the state has a matching or an empty-word row |
| ConsoleTable.Lookup | lib/xlxSerialConsole.cpp:100-150 | the picked row is one of the state's rows, matching the word ignoring case or having the empty word, or else it is the `consoleDummy` row |
| ConsoleTable.LookupPrefersMatch | lib/xlxSerialConsole.cpp:100-150 | a row of the state whose word matches the input, ignoring case, is the one picked |
| ConsoleTable.LookupFallsToDefault | lib/xlxSerialConsole.cpp:100-150 | when no row of the state matches the input, the state's empty-word row is picked |
| ConsoleTable.TableDeterministic | lib/xlxSerialConsole.cpp:100-150 | no word occurs twice among one state's rows |
| ConsoleTable.EmptyRowLast | lib/xlxSerialConsole.cpp:100-150 | in every state the empty-word row, where there is one, is the last row of the state |
| ConsoleTable.TableClosed | lib/xlxSerialConsole.cpp:100-150 | every state the table moves to has rows of its own |
| ConsoleTable.RootShape | lib/xlxSerialConsole.cpp:102-113 | from the root menu only `sys` leaves, to `consoleSys`, and it is the only row that runs `doSys` |
| ConsoleTable.SysShape | lib/xlxSerialConsole.cpp:116-128 | from `consoleSys` every row returns to the root menu except `setup`, which leads to `consoleWF_YesNo` |
| ConsoleTable.YesNoShape | lib/xlxSerialConsole.cpp:130-134 | from `consoleWF_YesNo` only `yes` and `y` go on, to the SSID question |
| ConsoleTable.AuthShape | lib/xlxSerialConsole.cpp:137-141 | `consoleWF_GetAUTH` has no empty-word row; 0..3 lead to the confirmation and `q` to the root menu |
| ConsoleTable.ConfirmShape | lib/xlxSerialConsole.cpp:142-146 | every confirmation row returns to the root menu, and only `yes` and `y` apply the credential |
| ConsoleTable.AuthMenuFallsToDummy | lib/xlxSerialConsole.cpp:137-149 | at the method menu any other answer falls to the `consoleDummy` row: root menu, with help |
| ConsoleTable.ScanSysOnlyFromRoot | lib/xlxSerialConsole.cpp:111 | only the root menu's `sys` row runs `doSys`, and it moves to `consoleSys` |
| ConsoleTable.ScanConfirmOnlyByMethod | lib/xlxSerialConsole.cpp:137-140 | the confirmation is reached only from the method menu, by a method number |
| ConsoleTable.ScanRests | lib/xlxSerialConsole.cpp:100-150 | every scan ends in a state that waits for input, except `sys`, which passes through the system menu |
| ConsoleTable.WiFiWorkflowStarts | lib/xlxSerialConsole.cpp:111-131 | `sys`, then `setup`, then `y` reach the SSID question |
| ConsoleTable.WiFiWorkflowTakesAnything | lib/xlxSerialConsole.cpp:135-136 | any line is taken as the SSID, then any line as the password |
| ConsoleTable.WiFiWorkflowEnds | lib/xlxSerialConsole.cpp:137-143 | a method number leads to the confirmation, and `y` there runs `SetWiFiCredential` |
| SerialConsole.CloudOutput | lib/xlxSerialConsole.cpp:883-898 | outside a cloud command nothing changes; inside one the last message becomes the text cut to 511 characters |
| SerialConsole.SetupWiFi | lib/xlxSerialConsole.cpp:714-766 | always true; a non-empty answer records the SSID in GetPassword, the password in GetAUTH, and `atoi(cmd) % 4` in Confirm; nothing else is recorded |
| SerialConsole.WorkflowRecordsAnswers | lib/xlxSerialConsole.cpp:731-779 | SSID, password and method k in 0..3, answered in turn, are recorded as given; the confirmation, as written, then makes a WPA2/AES credential with that SSID and password whatever k is, and leaves the selection at 1 |
| SerialConsole.WorkflowAsMenuShows | lib/xlxSerialConsole.cpp:731-786 | with the corrected `SetWiFiCredential`, the same answers give a credential with that SSID and the security the menu shows for k, and with that password unless k is 0 |
| SerialConsole.CredentialAlwaysWpa2 | lib/xlxSerialConsole.cpp:771-779 | as written, whatever method was chosen, the credential is WPA2/AES and the selection ends at 1 |
| SerialConsole.OpenNetworkMisapplied | lib/xlxSerialConsole.cpp:771-772 | as written, an open network (method 0) is not set up as open |
| SerialConsole.SetWiFiCredential | lib/xlxSerialConsole.cpp:768-786 | with comparisons, a credential is made iff the method is 0..3; it carries the SSID, and the password for methods 1..3 |
| SerialConsole.CredentialFollowsMenu | lib/xlxSerialConsole.cpp:152 | the security applied is the one `strAuthMethods` names for the selected number |
| SerialConsole.String2IPAsWritten | lib/xlxSerialConsole.cpp:814-869 | the empty text is 8.8.8.8; text with another character is a host name; digits and dots of length 1..6 are refused |
| SerialConsole.String2IP | lib/xlxSerialConsole.cpp:814-869 | the same three cases, with the segment loop stopping when a dot is missing |
| SerialConsole.AsWrittenAgreesWithThreeDots | lib/xlxSerialConsole.cpp:846-863 | when the first three dots are present, the code as written and the corrected parser agree |
| SerialConsole.DottedQuadRoundTrip | lib/xlxSerialConsole.cpp:841-860 | a dotted quad printed with `%d.%d.%d.%d` reads back as its four octets |
| SerialConsole.QuadOfDigits | lib/xlxSerialConsole.cpp:846-860 | four runs of digits joined by dots give octets that are each segment's `toInt` mod 256 |
| SerialConsole.EndsAtThirdDot | lib/xlxSerialConsole.cpp:856-863 | text that ends at its third dot is refused, by both versions |
| SerialConsole.OneDotNumber | lib/xlxSerialConsole.cpp:846-860 | as written, a byte, a dot and a number in [10000, `LONG_MAX`] are taken as an address repeating the two segments; the corrected parser refuses it |
| SerialConsole.OneDotRefused | lib/xlxSerialConsole.cpp:846-863 | the corrected parser refuses digits with a single dot |
| SerialConsole.AcceptedHasThreeDots | lib/xlxSerialConsole.cpp:841-866 | any non-empty text the corrected parser reads as an address has three dots, with text after the third |
| SerialConsole.AcceptedSegments | lib/xlxSerialConsole.cpp:846-856 | where the corrected parser accepts, its three segment ends are increasing, each just after a dot, and the last is inside the text |
| SerialConsole.OneDotAt | lib/xlxSerialConsole.cpp:846-860 | as written, a text of more than six digits and one dot is read as the two segments repeated |
| ConsoleCommands.HelpSummary | lib/xlxSerialConsole.cpp:193-327 | a topic `showThisHelp` does not know gives the command list; only `set` with a sub-topic it does not know gives no text |
| ConsoleCommands.HelpCommand | lib/xlxSerialConsole.cpp:329-348 | `doHelp` always succeeds and only writes the cloud message |
| ConsoleCommands.HelpListsCommands | lib/xlxSerialConsole.cpp:319-323 | an unknown topic from the cloud leaves the command list as the last message |
| ConsoleCommands.CloudHelpListsCommands | lib/xlxSerialConsole.cpp:103 | `help` alone from the cloud, at the root menu, leaves the command list as the last message |
| ConsoleCommands.TopicOf | lib/xlxSerialConsole.cpp:357-385 | a `strnicmp` chain takes the first branch whose word starts the argument, ignoring case, and the last branch when there is no argument or no word starts it |
| ConsoleCommands.TopicKnown | lib/xlxSerialConsole.cpp:357-385 | a named branch is taken iff there is an argument and some branch word starts it |
| ConsoleCommands.CheckCommand | lib/xlxSerialConsole.cpp:351-387 | `doCheck` is true iff there is an object and it starts, ignoring case, with one of the words of its topic table (rf, wifi, wlan, flash), and changes nothing |
| ConsoleCommands.ShowCommand | lib/xlxSerialConsole.cpp:390-462 | `doShow` is true iff there is an object and it starts, ignoring case, with one of the words of its topic table, and changes nothing |
| ConsoleCommands.PingCommand | lib/xlxSerialConsole.cpp:465-471 | `doPing` is always true, changes nothing and pings what `String2IP`, as written, makes of the argument |
| ConsoleCommands.PingDottedQuad | lib/xlxSerialConsole.cpp:465-471 | an argument with three dots is pinged as the corrected parser reads it |
| ConsoleCommands.PingOneDot | lib/xlxSerialConsole.cpp:465-471 | `ping a.n`, for a byte a and n in [10000, `LONG_MAX`], pings a.n.a.n with n cut to a byte, where the corrected parser gives no address |
| ConsoleCommands.ActionCommand | lib/xlxSerialConsole.cpp:474-498 | `doAction` is true iff there is an action and it starts, ignoring case, with on, off or color, and changes nothing |
| ConsoleCommands.SendCommand | lib/xlxSerialConsole.cpp:533-547 | `send` is true iff the argument has at least 3 characters, whatever the radio result; then it is handed to `ProcessSend` |
| ConsoleCommands.TestCommand | lib/xlxSerialConsole.cpp:501-530 | an unknown test is false and changes nothing; `asr` passes `atoi` of a non-empty argument |
| ConsoleCommands.TestSendIsSend | lib/xlxSerialConsole.cpp:513-519 | `test send p` is `send p` |
| ConsoleCommands.TestPingIsPing | lib/xlxSerialConsole.cpp:509-512 | `test ping` is `ping` |
| ConsoleCommands.SetCommand | lib/xlxSerialConsole.cpp:550-622 | only `set nodeid` touches the radio; only `tz`, `dst` and `spkr` touch the store; an unknown topic is false and changes nothing |
| ConsoleCommands.SetDstStoresFlag | lib/xlxSerialConsole.cpp:572-583 | `set dst v` is true and stores 0 when `atoi(v)` is 0, else 1; with no value the model stores 0 |
| ConsoleCommands.SetTzNeedsValue | lib/xlxSerialConsole.cpp:559-571 | `set tz` is true iff a value is given; an offset within [-780, 780] is stored and any other leaves the store |
| ConsoleCommands.SetSpeakerFollowsValue | lib/xlxSerialConsole.cpp:606-617 | `set spkr v` is true and turns the speaker on iff `atoi(v) > 0`; with no value nothing changes |
| ConsoleCommands.SetNodeIdTakesByte | lib/xlxSerialConsole.cpp:592-597 | `set nodeid v`, for a byte v other than 0, makes v the own address |
| ConsoleCommands.SetNodeIdMultipleOf256 | lib/xlxSerialConsole.cpp:592-597 | the value is taken mod 256, so 0 and 256 are refused and change nothing |
| ConsoleCommands.SetTimeResult | lib/xlxSerialConsole.cpp:584-591 | `set time`/`set date` are true iff `CldSetCurrentTime` returns 0; with no value they ask for a cloud sync |
| ConsoleCommands.SysSubCommand | lib/xlxSerialConsole.cpp:633-708 | `doSysSub` only writes the cloud message and returns a system action; when false, no action |
| ConsoleCommands.RunHandler | lib/xlxSerialConsole.cpp:59-71 | a handler keeps the menu state and the cloud flag, and changes the last message only inside a cloud command |
| ConsoleCommands.SetupCommand | lib/xlxSerialConsole.cpp:70 | `gc_doSysSetupWiFi` runs `SetupWiFi` on the typed word, succeeds, sends nothing and leaves the node alone |
| ConsoleCommands.CredentialCommand | lib/xlxSerialConsole.cpp:768-786 | `gc_doSysSetWiFiCredential`, as written, succeeds and hands the platform a WPA2/AES credential with the recorded SSID and password whatever method was selected, sets the selection to 1 and reports the save to the cloud |
| ConsoleCommands.Step | lib/xlxSerialConsole.cpp:625-631 | a scan, with `doSys` scanning the next word, ends in a waiting state and keeps the cloud flag |
| ConsoleCommands.StepSys | lib/xlxSerialConsole.cpp:625-631 | `doSys` moves to `consoleSys` and scans the next word at once |
| ConsoleCommands.ExecuteCloudCommand | lib/xlxSerialConsole.cpp:872-880 | the cloud flag is down after the call, and the last message changes only to a text of at most 511 characters |
| ConsoleCommands.CloudCommandAsTyped | lib/xlxSerialConsole.cpp:872-880 | apart from the cloud flag and message, a command from the cloud does exactly what the same typed command does |
| ConsoleCommands.StepIgnoresCloud | lib/xlxSerialConsole.cpp:883-898 | apart from the cloud message, a scan does not depend on the cloud flag |
| ConsoleCommands.StepKeepsCountersSound | lib/xlxRF24Client.cpp:285-295 | any console command keeps `_succ <= _times` |
| ConsoleCommands.StepKeepsConfigValid | lib/xlxConfig.cpp:99-108 | any console command keeps a configuration that `LoadConfig` accepts acceptable |
| ConsoleCommands.StepKeepsAuthInMenu | lib/xlxSerialConsole.cpp:753-760 | a selected method in 0..3 stays in 0..3 after any console command, so `strAuthMethods` is never indexed out of range |
| ConsoleCommands.ConfirmRecordsMethod | lib/xlxSerialConsole.cpp:753-756 | the confirmation step records the typed method number |
| ConsoleCommands.SessionOpens | lib/xlxSerialConsole.cpp:111-126 | `sys setup` at the root menu moves to the first workflow question and runs `SetupWiFi` there |
| ConsoleCommands.SessionGoesOn | lib/xlxSerialConsole.cpp:130-131 | `y` moves to the SSID question and runs `SetupWiFi` there |
| ConsoleCommands.SessionTakesSsid | lib/xlxSerialConsole.cpp:135 | any line at the SSID question moves to the password question, where `SetupWiFi` records it |
| ConsoleCommands.SessionTakesPassword | lib/xlxSerialConsole.cpp:136 | any line at the password question moves to the method menu, where `SetupWiFi` records it |
| ConsoleCommands.SessionTakesMethod | lib/xlxSerialConsole.cpp:137-140 | a method number moves to the confirmation, where `SetupWiFi` records it |
| ConsoleCommands.SessionApplies | lib/xlxSerialConsole.cpp:143 | `y` at the confirmation returns to the root menu, applies a WPA2/AES credential with the recorded SSID and password whatever method was selected, and sets the selection to 1 |
| ConsoleCommands.SessionAppliesMenuOnlyForWpa2 | lib/xlxSerialConsole.cpp:143 | the credential applied is the one the menu shows for the selected method iff that method is 1 (WPA2) |

## Left out

- The RF24 link layer (`send`, `receive`, `available`, `isValid`, `setAddress`, `switch2BaseNetwork`, `switch2MyNetwork`, `setPALevel`, `CheckConfig`) is not part of this model. A send's fate is the input `Link.delivered`. The MAC address is an input.
- Template 0's free-form parser (`MyParserSerial`) is not part of this model. Its result, a message or nothing, is the input `Link.parsed`. Template 3 sends an empty string. Template 4's value 23.5 is given as its IEEE-754 bytes.
- The MySensors payload readers and writers are assumed little-endian. `MyMessage::build` is assumed to keep the payload.
- The router reads payload bytes 0..7 without a length check. The model requires at least 8 payload bytes (`Router.FullPayload`).
- The dead reply block at the end of `ProcessReceive` (lib/xlxRF24Client.cpp:420-431) is not modelled, because `msgReady` is never set.
- Counters `_times`, `_succ` and `_received` are unbounded here. Their 32-bit wrap-around is not modelled.
- EEPROM `get`/`put` are modelled as copies into and out of an `Eeprom` record. The memory-map size checks are the abstract constants `CONFIG_FITS` and `DST_FITS`, because xliMemoryMap.h is not part of this model.
- Floating point is left out:
  - `set tz` computes its offset with `atof` × 60, which here is the input `Env.tzMinutes`.
  - `UpdateTimeZone` is not modelled.
  - The `set tz` cloud texts, which print a float, are not modelled.
- Time is left out: `tmConvert_t`, `Time.setTime` and the local-time conversion. `CldSetCurrentTime` returns the clock fields it would set. `CloudTimeSync`'s `millis()` arithmetic and the `SelfCheck` tick counters are also not modelled.
- Platform I/O is returned as an `Effect` and not performed: Wi-Fi, ping, DNS resolution (`String2IP`'s host-name path), system reset, safe mode, DFU, serial-port reset, and the ASR interface.
- The readings that `check` and `show` print come from the platform and are not modelled, so neither are their cloud texts. The `set base` and `sys serial` cloud texts are not modelled either. The `set base` effect is returned, but `isBaseNetworkEnabled` is not part of this model.
- Serial printing and the long help texts are not modelled. Only the short cloud texts of `showThisHelp`, `doSet`, `doSysSub` and the Wi-Fi workflow are.
- `CloudOutput` writes `buf[nSize]` even when `vsnprintf` reports 512 or more characters (lib/xlxSerialConsole.cpp:893-894). That write is out of range and is not modelled. The message is cut to 511 characters instead.
- JSON (`Array2Hue`, `GetTimeZoneJSON`) is not modelled.
- A console scan that runs the corrected `SetWiFiCredential` and `String2IP` is not modelled. The corrected handlers are compared with the firmware's one command at a time (`ConsoleCommands.SessionAppliesMenuOnlyForWpa2`, `ConsoleCommands.PingDottedQuad`, `ConsoleCommands.PingOneDot`).
- The whole Wi-Fi session is not stated as one composed lemma. It is stated as one lemma per console line (`ConsoleCommands.Session*`) plus `SerialConsole.WorkflowRecordsAnswers` for what the answers add up to.
- Arduino.AtoI: the value is an unbounded integer. C's `atoi` and `String::toInt` return a 32-bit `long` and are undefined past `LONG_MAX` (2^31 - 1), so for a digit run above `LONG_MAX` the model's value is not one the firmware promises. The lemmas that read a concrete number keep it at most `LONG_MAX` (`SerialConsole.OneDotNumber`). `SerialConsole.QuadOfDigits` states its octets for any digit run, and above `LONG_MAX` those octets are the model's, not the firmware's.
- ConsoleCommands.SetDstStoresFlag: with no value after `set dst` the firmware calls `atoi(NULL)`, which C leaves undefined. The model reads the missing word as the empty string and stores 0; the firmware promises nothing there.
- SerialConsole.String2IP: the lemmas comparing it with the code as written require the text to be at most `STRING_MAX` characters. `String` lengths are 32-bit, and the loop as written relies on `indexOf` returning -1.
- ConsoleCommands.HelpCommand: the `help set` sub-topics `flag`, `var` and `spkr` give their texts, and any other sub-topic gives no cloud text. The contract states only that the command succeeds and writes nothing but the cloud message.
- ConsoleCommands.Step: when `sys` is the last word, the firmware's base class scans again with no word. Here that scan is of the empty word, which picks the system menu's default row.

## Findings

| source | as written | input that shows it | evidently intended | confidence | as-written member | corrected member |
|---|---|---|---|---|---|---|
| lib/xlxSerialConsole.cpp:771-779 | each test assigns instead of comparing (`if( gintWiFi_Auth = 0 )` and so on), so the first test fails, the second always succeeds, and the selection is overwritten with 1 | authentication method 0 ("None") or 2 ("WEP") chosen at the menu | the credential follows the method the menu shows for the selected number | high; not executed | SerialConsole.CredentialAlwaysWpa2 | SerialConsole.CredentialFollowsMenu |
| lib/xlxSerialConsole.cpp:846-855 | the segment loop tests `lv_len > 0`, which always holds, instead of whether a dot was found, so a missing dot restarts the next segment at index 0 | "1.2345678" is read as 1.206.1.206 | text without three dots is refused | high; not executed | SerialConsole.OneDotNumber | SerialConsole.AcceptedHasThreeDots |
