# garland-esp32 — a Dafny model of the firmware's control logic

This project models the control logic of an ESP32 firmware that drives an RGB LED strip. The firmware is controlled three ways: a push button, a BLE provisioning service and a Wi-Fi command channel (UDP discovery and commands). The model covers:

- **Command parsers** (`Parser` for src/parser/DataParser.cpp, `LegacyParser` for src/DataParser.cpp). They scan a JSON-like line with Arduino `String` operations and pick out `set_mode`, `set_power`, `get_status` or `set_wifi`. They range-check the value, update the current mode or power flag through the firmware's pointers, and call the settings store.
- **Settings store** (`Settings` for src/settings/Settings.cpp, `LegacySettings` for src/Settings.cpp). It is a debounced write-back cache over the ESP32 `Preferences` key/value store (`Nvs`, one map per namespace). It also flushes on power-off and keeps the Wi-Fi credentials.
- **Wi-Fi manager** (`WifiManager`, src/wifi/WifiManager.cpp and src/WifiManager.cpp). It reconnects with an exponential backoff from 5 s to a 60 s ceiling, reset by `connect` and by recovery.
- **Button** (`Button`, src/button/Button.cpp). It debounces the input and classifies each press as short, medium or long.
- **BLE provisioning session** (`Bluetooth`, src/Bluetooth.cpp). It is the flag state machine over started and connected, with every BLE library call recorded as an event.
- **UDP responders** (`UdpManager` for src/udp/UdpManager.cpp, `LegacyUdp` for src/UdpManager.cpp). They classify payloads and build the discovery descriptor (`Discovery`).
- **PWM arithmetic** (`StringLed`, src/StringLED.cpp). It covers the 8-bit to 13-bit duty scaling, the bouncing FADE counter and the fixed colours.
- **Top level** (`Firmware`, src/main.cpp). It holds the globals, the callbacks that wire the modules together, the uptime timer and one pass of `loop`. Like the firmware, it is built against the older parser, settings store and UDP responder.

Supporting modules:
- `ArduinoString` covers `indexOf`, `substring`, `trim`, `startsWith`, `toInt` (`atol`), `String(char*)` and `String(n, 10)` over `seq<char>`.
- `Clock` models `millis()` as a 32-bit counter whose differences wrap around.
- `Wrappers` provides `Option`.

**How state is modelled.** Each stateful module is a pure state datatype with one specification function per operation. A class mirrors the module's statics, and its methods are proved to change those statics exactly as the function says.
- The properties are lemmas about the specification functions.
- `millis()`, the Wi-Fi link status, the result of binding the UDP port, the received datagram, the BLE connection count and peer map, and the chip id are parameters.
- Calls into the Wi-Fi driver, the BLE stack, the UDP socket, the TCP server and the PWM hardware are recorded as traces of events.
- Registered callbacks are flags, except the UDP message listener. That listener is an optional function value that gives the command parser's verdict.

The model follows the code where its headers or comments say otherwise:
- **Button's `_lastState`.** The button stores in `_lastState` the level *after* the active-low inversion (src/button/Button.cpp:24-26,68), not the raw pin level.
- **Button header.** src/button/Button.h does not declare `_shortPressSent`, `_isSystemOff` or `setSystemState`, all of which Button.cpp uses. The model follows Button.cpp.
- **Button pointer never set.** `main.cpp` never calls `setSystemState`. So in this firmware a medium press is reported only on release (`Firmware.MediumPressOnlyOnRelease`).

The two revisions of a module are modelled separately where they differ:
- The older parser accepts `set_wifi` with an empty ssid and stores it; the newer one refuses it (`LegacyParser.EmptySsidDiffers`).
- The newer `handleSettingsSync` clears `lastModeChange`; the older one keeps it.
- The older `getWiFiCredentials` needs both strings non-empty; the newer one needs only the ssid.
- The two Wi-Fi managers differ only in the name of the "credentials known" flag, so one model covers both.

## Model

| member | source | states |
|---|---|---|
| Parser.ValueEnd | src/parser/DataParser.cpp:25-28 | a numeric value ends at the first ',' after its start, else at the first '}', else at the end of the line; it never contains a ',' and stays within the line |
| Parser.NumberAfter | src/parser/DataParser.cpp:23-30 | a number is read exactly when the key occurs in the trimmed line |
| Parser.FieldKey | src/parser/DataParser.cpp:66-68 | the searched text is `"key":"`, four characters longer than the key, which is why the value starts at `keyIdx + key.length() + 4` |
| Parser.ExtractField | src/parser/DataParser.cpp:65-71 | the extracted value never contains a quote; it is "" when `"key":"` is missing or no quote follows it, and otherwise the text from just after the first `"key":"` up to the first quote after it |
| Parser.TrimmedFirst | src/parser/DataParser.cpp:15-16 | the line is trimmed before any matching, so leading and trailing white space never change the outcome |
| Parser.BranchOrder | src/parser/DataParser.cpp:22-81 | set_mode, set_power, get_status and set_wifi are tried in that order, each selected by its exact `"cmd":"<name>"` text anywhere in the line; a line holding none of them is rejected |
| Parser.SetModeRange | src/parser/DataParser.cpp:22-39 | set_mode succeeds exactly when the `"mode":` value reads as 0 to NUM_MODES-1 and the mode pointer is set, and then sets that mode |
| Parser.SetPowerAnyInteger | src/parser/DataParser.cpp:41-56 | set_power succeeds whenever `"state":` is present and the power pointer is set, with no range check; the system goes off exactly when the value reads as 0, a value without digits included |
| Parser.GetStatusNeedsPointers | src/parser/DataParser.cpp:58-62 | get_status changes nothing and succeeds exactly when both pointers are set |
| Parser.SetWifiNeedsSsid | src/parser/DataParser.cpp:64-80 | set_wifi succeeds exactly when the extracted ssid is non-empty, and then stores that ssid with the extracted password, which may be empty |
| Parser.ExtractFieldReads | src/parser/DataParser.cpp:65-71 | when the first `"key":"` is followed by a quote-free value and a quote, the lambda returns exactly that value |
| Parser.RejectPersistsNothing | src/parser/DataParser.cpp:34-84 | a rejected line and get_status call nothing in Settings; every other accepted line makes exactly one Settings call |
| Parser.BracedTrimmed | src/parser/DataParser.cpp:15-16 | trimming a braced line padded with white space gives back the line |
| Parser.DigitsThenBrace | src/parser/DataParser.cpp:25-30 | the digits of a non-negative number followed by '}' are read back as that number |
| Parser.SetModeLineRoundTrip | src/parser/DataParser.cpp:15-39 | the line `{"cmd":"set_mode","mode":n}`, padded with white space, gives set_mode n exactly when 0 <= n < NUM_MODES and the mode pointer is set |
| Parser.ModeLineKeys | src/parser/DataParser.cpp:22-25 | in a set_mode line the selector is found at 1 and the `"mode":` key at 18 |
| Parser.SetPowerLineRoundTrip | src/parser/DataParser.cpp:15-56 | the line `{"cmd":"set_power","state":n}` gives set_power with off == (n == 0) whenever the power pointer is set |
| Parser.PowerLineNoSetMode | src/parser/DataParser.cpp:22-41 | a set_power line does not select set_mode |
| Parser.PowerLineKeys | src/parser/DataParser.cpp:41-44 | in a set_power line the selector is found at 1 and the `"state":` key at 19 |
| Parser.GetStatusLineRoundTrip | src/parser/DataParser.cpp:15-62 | the line `{"cmd":"get_status"}` gives get_status exactly when both pointers are set |
| Parser.StatusLineNoOther | src/parser/DataParser.cpp:22-58 | a get_status line selects neither set_mode nor set_power |
| Parser.WifiLineOnlyWifi | src/parser/DataParser.cpp:22-64 | a set_wifi line with quote-free values selects none of the three earlier commands |
| Parser.WifiLineCommand | src/parser/DataParser.cpp:64 | a set_wifi line selects set_wifi at position 1 |
| Parser.WifiLineFields | src/parser/DataParser.cpp:65-74 | the ssid and the password of a set_wifi line are extracted back unchanged |
| Parser.WifiSsidField | src/parser/DataParser.cpp:65-73 | the ssid of a set_wifi line is extracted back unchanged |
| Parser.WifiPassField | src/parser/DataParser.cpp:65-74 | the password of a set_wifi line is extracted back unchanged |
| Parser.SetWifiLineRoundTrip | src/parser/DataParser.cpp:15-80 | a set_wifi line with quote-free values gives back its credentials, and is rejected exactly when the ssid is empty |
| Parser.Parse | src/parser/DataParser.cpp:14-85 | returns true exactly for an accepted line; writes the new mode or power flag through the matching pointer and nothing else, and makes the matching Settings call on the newer store (none when the line is rejected) |
| Parser.Decide | src/parser/DataParser.cpp:14-81 | whatever the line, an accepted set_mode carries a mode in 0..4 and needs the mode pointer, set_power needs the power pointer, get_status needs both, and set_wifi carries a non-empty ssid and a password, neither holding a quote |
| LegacyParser.EndArg | src/DataParser.cpp:54-59 | an `int` end index passed to `substring` is kept when found, and -1 becomes 4294967295, which `substring` clamps to the end of the line |
| LegacyParser.AfterColon | src/DataParser.cpp:33-137 | `indexOf(":", from) + 1` is 0 if and only if no ':' occurs at or after `from`, and otherwise the position just after the first such ':' |
| LegacyParser.Command | src/DataParser.cpp:26-42 | a line without `"cmd"` has no command, and a command read is quote-free and shorter than the line |
| LegacyParser.Number | src/DataParser.cpp:47-61 | a number is read if and only if its key occurs, and it lies in the 32-bit `long` range |
| LegacyParser.Quoted | src/DataParser.cpp:131-140 | the value read for a key is no longer than the line, and holds no quote for any line shorter than 2^32 characters |
| LegacyParser.CommandSelects | src/DataParser.cpp:26-150 | a line without `"cmd"` or without both quotes of the command is refused; each accepted action comes from its exact command name; any other name is refused |
| LegacyParser.LegacySetModeRange | src/DataParser.cpp:46-76 | set_mode is accepted exactly when `"mode"` occurs, its trimmed value reads as 0 to NUM_MODES-1 and the mode pointer is set, and then sets that mode |
| LegacyParser.LegacySetPowerAnyInteger | src/DataParser.cpp:80-105 | set_power is accepted exactly when `"state"` occurs and the power pointer is set, with no range check; the system goes off exactly when the value reads as 0 |
| LegacyParser.LegacyGetStatusNeedsPointers | src/DataParser.cpp:109-118 | get_status succeeds exactly when both pointers are set, and changes and persists nothing |
| LegacyParser.LegacyWifiNeedsBothKeys | src/DataParser.cpp:121-144 | set_wifi is accepted exactly when both `"ssid"` and `"pass"` occur, with whatever values are extracted, an empty ssid included |
| LegacyParser.CommandOfLine | src/DataParser.cpp:26-42 | the command of a line `{"cmd":"<name>"…` is `<name>` |
| LegacyParser.NumberOfLine | src/DataParser.cpp:53-61 | a key followed by ':', the digits of n and '}' reads as n |
| LegacyParser.ColonAfterKey | src/DataParser.cpp:53 | the value starts just after the ':' that directly follows the key |
| LegacyParser.DigitsTrimmed | src/DataParser.cpp:59-60 | trimming leaves the digits of a number unchanged |
| LegacyParser.ModeKeyAt | src/DataParser.cpp:47 | in a set_mode line the first `"mode"` is the key at 18 |
| LegacyParser.StateKeyAt | src/DataParser.cpp:81 | in a set_power line the first `"state"` is the key at 19 |
| LegacyParser.LegacySetModeLineRoundTrip | src/DataParser.cpp:26-76 | the line `{"cmd":"set_mode","mode":n}` gives set_mode n exactly when n < NUM_MODES and the mode pointer is set, as in the newer parser |
| LegacyParser.ModeLineRead | src/DataParser.cpp:26-61 | a set_mode line has command set_mode and mode value n |
| LegacyParser.ModeLineCommand | src/DataParser.cpp:26-42 | a set_mode line has command set_mode |
| LegacyParser.ModeLineNumber | src/DataParser.cpp:47-61 | a set_mode line has mode value n |
| LegacyParser.LegacySetPowerLineRoundTrip | src/DataParser.cpp:26-105 | the line `{"cmd":"set_power","state":n}` gives set_power with off == (n == 0) whenever the power pointer is set |
| LegacyParser.PowerLineRead | src/DataParser.cpp:26-95 | a set_power line has command set_power and state value n |
| LegacyParser.PowerLineCommand | src/DataParser.cpp:26-42 | a set_power line has command set_power |
| LegacyParser.PowerLineNumber | src/DataParser.cpp:81-95 | a set_power line has state value n |
| LegacyParser.LegacyGetStatusLineRoundTrip | src/DataParser.cpp:26-118 | a get_status line, followed by anything, gives get_status exactly when both pointers are set |
| LegacyParser.QuotedAt | src/DataParser.cpp:131-134 | a quote-free value between the quotes that follow the key's ':' is read back |
| LegacyParser.LegacyWifiLineRoundTrip | src/DataParser.cpp:121-144 | a set_wifi line with quote-free values always gives back exactly its credentials, an empty ssid and the ssid "pass" included |
| LegacyParser.WifiLineLegacyCommand | src/DataParser.cpp:26-42 | a set_wifi line has command set_wifi |
| LegacyParser.WifiLineLegacySsid | src/DataParser.cpp:122-134 | the `"ssid"` key of a set_wifi line is found at 18 and its value read back |
| LegacyParser.WifiLineLegacyPass | src/DataParser.cpp:123-140 | the `"pass"` key of a set_wifi line is found and the password read back from it |
| LegacyParser.PassValueFromKey | src/DataParser.cpp:137-140 | read from the password's own key in a set_wifi line, the value is the password |
| LegacyParser.PassValueFromSsidQuote | src/DataParser.cpp:137-140 | when the ssid is "pass" the first `"pass"` is the ssid's quote, and the value read from there is still the password |
| LegacyParser.PassKeyFound | src/DataParser.cpp:123 | `"pass"` is found at the password's key, or at the ssid's opening quote exactly when the ssid is "pass" |
| LegacyParser.PassKeyNotInSsid | src/DataParser.cpp:123 | an ssid other than "pass" does not make `"pass"` occur at its opening quote |
| LegacyParser.EmptySsidDiffers | src/DataParser.cpp:121-144 | with an empty ssid the older parser stores empty credentials, while the newer one (src/parser/DataParser.cpp:76) refuses the line |
| LegacyParser.LegacyParse | src/DataParser.cpp:14-153 | returns true exactly for an accepted line; writes the new mode or power flag through the matching pointer and nothing else, and makes the matching call on the older store (none when the line is refused) |
| LegacyParser.LegacyDecide | src/DataParser.cpp:26-150 | whatever the line, an accepted command has a readable command name; set_mode carries a mode in 0..4 and needs the mode pointer, set_power needs the power pointer, get_status needs both, and set_wifi needs both the ssid and the pass key in the line |
| Settings.SaveLightModeDefers | src/settings/Settings.cpp:73-78 | `saveLightMode` writes nothing to flash: it caches the mode, marks it dirty and stamps the time |
| Settings.SyncWritesWhenDue | src/settings/Settings.cpp:32-119 | the sync writes mode and brightness exactly when a change is pending and `now - lastModeChange >= 5000`; afterwards nothing is pending and the stamp is 0; otherwise nothing changes |
| Settings.Flush | src/settings/Settings.cpp:32-44 | writing mode and brightness now stores both cached values, clears the pending flag and the stamp, and leaves every other key and the Wi-Fi namespace as they were |
| Settings.Apply | src/settings/Settings.cpp:32-119 | no call changes the cached brightness; only saveLightMode changes the cached mode; only setWiFiCredentials touches the Wi-Fi namespace, and it leaves the lighting state alone; a change becomes pending only through saveLightMode or saveBrightness; the stored mode and brightness are only ever overwritten with the cached ones |
| Settings.SyncLeavesNothingDue | src/settings/Settings.cpp:114-119 | straight after a sync nothing is due any more |
| Settings.SavesWithEarlySyncs | src/settings/Settings.cpp:73-119 | a run of saves each followed by a sync makes two calls per save (the shape the debounce law is stated over) |
| Settings.RunAppend | src/settings/Settings.cpp:22-120 | running two call sequences one after the other is running their concatenation |
| Settings.EarlySyncsWriteNothing | src/settings/Settings.cpp:73-119 | saves each followed by a sync inside the debounce window write nothing, and leave the last mode cached and pending |
| Settings.DebounceCoalesces | src/settings/Settings.cpp:73-119 | saves within the window of each other give one write, of the last mode, at the first sync after the window |
| Settings.RunPreservesCachedBrightness | src/settings/Settings.cpp:27-97 | no call ever changes `cachedBrightness` |
| Settings.StoredBrightnessIsDefault | src/settings/Settings.cpp:27-97 | whatever the calls, the brightness in flash is what boot found there or 51 |
| Settings.SavedBrightnessIsLost | src/settings/Settings.cpp:41-119 | as written, `saveBrightness(200)` followed by a sync after the window writes 51, not 200 |
| Settings.SaveBrightnessIntended | src/settings/Settings.cpp:92-97 | the corrected `saveBrightness`, which caches the value that the flush writes |
| Settings.IntendedBrightnessPersists | src/settings/Settings.cpp:41-119 | with the corrected `saveBrightness`, the sync after the window writes the brightness last saved, with the cached mode |
| Settings.SaveSystemStateFlushes | src/settings/Settings.cpp:80-90 | `saveSystemState` always writes the flag; when turning off with a change pending it also writes mode and brightness, leaving nothing pending; turning on never flushes |
| Settings.CredentialsRoundTrip | src/settings/Settings.cpp:50-71 | credentials read back as written, and count as found exactly when the ssid is non-empty |
| Settings.LightSettingsDefaults | src/settings/Settings.cpp:12-112 | with nothing stored `loadLightSettings` gives mode 0, on, brightness 51 and 60 LEDs; `saveNumLeds` writes at once and reads back |
| Settings.Store.constructor | src/settings/Settings.cpp:25-30 | the statics start at mode 0, brightness 51, nothing pending, stamps 0 |
| Settings.Store.SaveLightModeNow | src/settings/Settings.cpp:32-39 | writes the cached mode, clears the dirty flag and the stamp |
| Settings.Store.SaveBrightnessNow | src/settings/Settings.cpp:41-48 | writes the cached brightness, clears the dirty flag and the stamp |
| Settings.Store.GetWiFiCredentials | src/settings/Settings.cpp:50-60 | returns the stored strings ("" when absent), found exactly when the ssid is non-empty |
| Settings.Store.SetWiFiCredentials | src/settings/Settings.cpp:62-71 | stores both strings in the Wi-Fi namespace and changes nothing else |
| Settings.Store.SaveLightMode | src/settings/Settings.cpp:73-78 | new state as `Apply(SaveLightMode)`: cache, mark dirty, stamp |
| Settings.Store.SaveSystemState | src/settings/Settings.cpp:80-90 | new state as `Apply(SaveSystemState)` |
| Settings.Store.SaveBrightness | src/settings/Settings.cpp:92-97 | new state as `Apply(SaveBrightness)`: the argument goes to `brightnessChange` |
| Settings.Store.SaveNumLeds | src/settings/Settings.cpp:98-103 | writes the LED count at once |
| Settings.Store.LoadLightSettings | src/settings/Settings.cpp:104-112 | returns the four stored values, each defaulted when absent |
| Settings.Store.HandleSettingsSync | src/settings/Settings.cpp:114-119 | new state as `Apply(HandleSettingsSync)` |
| LegacySettings.SaveLightModeDefers | src/Settings.cpp:58-63 | `saveLightMode` writes nothing to flash: it caches the mode, marks it dirty and stamps the time |
| LegacySettings.SyncWritesWhenDue | src/Settings.cpp:27-84 | the sync writes the mode exactly when it is dirty and `now - lastModeChange >= 5000`, then clears the dirty flag but keeps the stamp; otherwise nothing changes |
| LegacySettings.Apply | src/Settings.cpp:27-84 | only saveLightMode changes the cached mode and its time stamp; only setWiFiCredentials touches the Wi-Fi namespace, and it leaves the lighting state alone; a change becomes pending only through saveLightMode; the stored mode is only ever overwritten with the cached one |
| LegacySettings.SaveSystemStateFlushes | src/Settings.cpp:65-72 | `saveSystemState` always writes the flag; turning off writes a pending mode and leaves nothing pending; turning on leaves a pending mode pending |
| LegacySettings.CredentialsRoundTrip | src/Settings.cpp:35-56 | credentials read back as written, and count as found exactly when neither string is empty |
| LegacySettings.LightSettingsDefaults | src/Settings.cpp:12-84 | with nothing stored the device loads mode 0, switched on; a mode written by a sync reads back |
| LegacySettings.Store.constructor | src/Settings.cpp:22-25 | the statics start at mode 0, nothing pending, stamp 0 |
| LegacySettings.Store.SaveLightModeNow | src/Settings.cpp:27-33 | writes the cached mode and clears the dirty flag only |
| LegacySettings.Store.GetWiFiCredentials | src/Settings.cpp:35-45 | returns the stored strings ("" when absent), found exactly when both are non-empty |
| LegacySettings.Store.SetWiFiCredentials | src/Settings.cpp:47-56 | stores both strings in the Wi-Fi namespace and changes nothing else |
| LegacySettings.Store.SaveLightMode | src/Settings.cpp:58-63 | new state as `Apply(SaveLightMode)`: cache, mark dirty, stamp |
| LegacySettings.Store.SaveSystemState | src/Settings.cpp:65-72 | new state as `Apply(SaveSystemState)` |
| LegacySettings.Store.LoadLightSettings | src/Settings.cpp:74-80 | returns the stored mode and power flag, defaulted to 0 and on |
| LegacySettings.Store.HandleSettingsSync | src/Settings.cpp:82-84 | new state as `Apply(HandleSettingsSync)` |
| WifiManager.OnGotIp | src/wifi/WifiManager.cpp:16-19 | the got-IP handler reports (true, ip) exactly when a status callback is registered, and reports nothing otherwise |
| WifiManager.OnDisconnected | src/wifi/WifiManager.cpp:21-24 | the disconnect handler reports (false, "Disconnected") exactly when a status callback is registered |
| WifiManager.IntervalStaysInRange | src/wifi/WifiManager.cpp:12-72 | init, connect and handleReconnect all keep the retry interval between 5000 and 60000 ms |
| WifiManager.DoubledFromBase | src/wifi/WifiManager.cpp:63-66 | k doublings of the 5000 ms base interval give min(5000·2^k, 60000) |
| WifiManager.RetriesDouble | src/wifi/WifiManager.cpp:54-67 | each due retry while the link is down issues one `WiFi.begin`, adds one to the failure count and doubles the interval, so k due retries add k failures, k association attempts and k doublings |
| WifiManager.DoubledTimesShift | src/wifi/WifiManager.cpp:63-66 | doubling once and then k more times is the same as doubling k+1 times |
| WifiManager.BackoffLaw | src/wifi/WifiManager.cpp:40-67 | after `connect`, k consecutive failed retries leave the failure count at k and the interval at min(5000·2^k, 60000) |
| WifiManager.RetryOnlyWhenDue | src/wifi/WifiManager.cpp:54-67 | a retry (`WiFi.begin` with the stored credentials, stamp the time, count a failure, double the interval) happens if and only if credentials are known, the link is down and the wrap-around elapsed time has reached the interval; otherwise no driver call is made and the stamp is unchanged |
| WifiManager.NoRetryWithoutCredentials | src/WifiManager.cpp:34-55 | while the "connected once" flag is clear, no number of handleReconnect calls ever starts an association or sets the flag |
| WifiManager.InitConnectsOnlyWithCredentials | src/wifi/WifiManager.cpp:26-38 | at boot, `init` sets the credentials flag exactly when the store returned credentials, and begins an association with them exactly then |
| WifiManager.RecoveryResets | src/wifi/WifiManager.cpp:68-74 | with the link up, a non-zero failure count resets the count to 0 and the interval to 5000 ms without any driver call; a zero count changes nothing |
| WifiManager.ConnectResets | src/wifi/WifiManager.cpp:40-51 | `connect` sets the credentials flag, resets the failure count and interval, keeps the last-attempt time and ends with `WiFi.begin` on the new credentials |
| WifiManager.InitStep | src/wifi/WifiManager.cpp:26-38 | `init` appends a disconnect, then a begin with the stored credentials exactly when the store found them, marks credentials known if found, and leaves the backoff alone |
| WifiManager.ConnectStep | src/wifi/WifiManager.cpp:40-51 | `connect` keeps the new credentials, appends a disconnect and a begin with them, marks credentials known, resets the failures and the interval, and keeps the time of the last attempt |
| WifiManager.ReconnectStep | src/wifi/WifiManager.cpp:53-75 | a begin with the stored credentials is appended exactly when a retry is due; the credentials are kept; with the link up the failures are cleared, and the interval is reset after failures; the interval stays within 5000..60000 |
| WifiManager.Manager.constructor | src/wifi/WifiManager.cpp:8-14 | the statics start empty: no credentials, interval 5000, no failures, no callback |
| WifiManager.Manager.Init | src/wifi/WifiManager.cpp:26-38 | `init` registers the callback, disconnects, and begins with the stored credentials when the store found them |
| WifiManager.Manager.Connect | src/wifi/WifiManager.cpp:40-51 | `connect` stores the credentials, disconnects, begins and resets the backoff, leaving the callback alone |
| WifiManager.Manager.HandleReconnect | src/wifi/WifiManager.cpp:53-75 | `handleReconnect` performs exactly the retry-or-recover step of the specification function |
| WifiManager.Manager.IsConnected | src/wifi/WifiManager.cpp:77-79 | connected means the driver reports the link up |
| Button.DebounceGate | src/button/Button.cpp:23-68 | the level is inverted for an active-low button and remembered; a level change restarts the debounce timer and yields no action; the pressed state changes only to the current level, and only after it has been stable for more than 50 ms |
| Button.Step | src/button/Button.cpp:21-70 | a poll keeps the polarity and the pointer; SHORT_PRESS is reported only on a release; MEDIUM_PRESS only on a release or while held with the pointer set and the system on; LONG_PRESS only while held with none sent yet; any action only once the level has been stable for more than 50 ms |
| Button.PressStartClears | src/button/Button.cpp:37-40 | accepting a press stamps its start time, clears both sent-flags and reports nothing |
| Button.ReleaseClassifies | src/button/Button.cpp:41-49 | a release reports SHORT_PRESS under 1000 ms, MEDIUM_PRESS from 1000 up to 5000 ms, nothing from 5000 ms on, and nothing at all if a medium press was already sent while held |
| Button.MediumWhileHeldNeedsSystemOn | src/button/Button.cpp:53-58 | a medium press reported while the button is still held needs the system-state pointer set and the system on, at least 1000 ms of holding, and is marked sent so that it is reported once |
| Button.LongPressOverrides | src/button/Button.cpp:60-65 | once a debounced press has been held for 5000 ms with no long press sent, the call reports LONG_PRESS, overriding anything else it would have reported |
| Button.LongPressMarksSent | src/button/Button.cpp:37-65 | a long press is reported only when none was sent in this press, and the sent flag is cleared only by accepting a new press |
| Button.LongPressOncePerPress | src/button/Button.cpp:60-65 | over any run of calls that accepts no new press, LONG_PRESS is reported at most once, and never if it had already been sent |
| Button.Run | src/button/Button.cpp:21-70 | running a sequence of polls yields one action per poll |
| Button.Button.constructor | src/button/Button.cpp:4-15 | a new button is active low, with last level HIGH, not pressed, both flags clear, both timers 0 and no system-state pointer |
| Button.Button.SetSystemState | src/button/Button.cpp:17-19 | setting the system-state pointer changes nothing else |
| Button.Button.Handle | src/button/Button.cpp:21-70 | one poll performs exactly the debounce and classification step of the specification function and returns its action |
| Bluetooth.DisconnectAll | src/Bluetooth.cpp:152-156 | every peer in the server's peer map gets exactly one `disconnect`, in map order |
| Bluetooth.EnableStep | src/Bluetooth.cpp:79-131 | `enable` leaves the session started and only appends events; on a stopped session it initialises the stack, creates the server and sets all three handles; it keeps the connected flag and the callbacks |
| Bluetooth.DisableStep | src/Bluetooth.cpp:133-179 | `disable` leaves the session stopped and only appends events; on a started session it clears the connected flag and the three handles; the stack and server stay created; on a stopped session nothing changes |
| Bluetooth.ConnectStep | src/Bluetooth.cpp:37-42 | a connection sets the connected flag, keeps the started flag, only appends events and ends by stopping advertising |
| Bluetooth.DisconnectStep | src/Bluetooth.cpp:44-54 | a disconnection keeps the started flag and only appends events; while started it clears the connected flag and ends by restarting advertising; while stopped nothing changes |
| Bluetooth.SendWiFiConnectInfoStep | src/Bluetooth.cpp:181-187 | reporting the Wi-Fi result only appends events; a success leaves the session stopped; a failure keeps the started, connected and response-handle flags |
| Bluetooth.SendWorkedTimeStep | src/Bluetooth.cpp:189-194 | reporting the uptime appends at most one event and changes nothing else |
| Bluetooth.Forwarded | src/Bluetooth.cpp:58-64 | a written registration value is forwarded if and only if its raw bytes are non-empty and a credentials callback is registered; what is forwarded is the value cut at its first NUL, so a NUL-free value arrives unchanged |
| Bluetooth.EnableOnce | src/Bluetooth.cpp:79-131 | `enable` always leaves the session started; when already started it does nothing; when stopped it reports BT_ENABLED exactly once if a state callback is registered; calling it twice is calling it once |
| Bluetooth.DisableOnce | src/Bluetooth.cpp:133-179 | `disable` always leaves the session stopped; when started it clears the connected flag and the three characteristic handles, stops advertising, disconnects every peer when the server exists and has connections, and reports BT_DISABLED; when stopped it does nothing; calling it twice is calling it once |
| Bluetooth.DisconnectAfterDisableIsInert | src/Bluetooth.cpp:44-142 | because `disable` clears the started flag first, a disconnection after it neither reports nor restarts advertising |
| Bluetooth.ConnectionEvents | src/Bluetooth.cpp:37-54 | a connection sets the connected flag and ends by stopping advertising; a disconnection while started clears the flag, reports BT_DISCONNECTED and restarts advertising; while stopped it changes nothing |
| Bluetooth.WiFiInfoNotifiesOnlyWhenConnected | src/Bluetooth.cpp:181-187 | on any session, started or not, the Wi-Fi result is notified first, on the response characteristic, if and only if a client is connected and the characteristic exists; a failure changes nothing else |
| Bluetooth.SuccessDisables | src/Bluetooth.cpp:181-187 | a successful Wi-Fi result always ends the session (stopped, handles cleared, disconnected when it was started); a failure leaves the started and connected flags as they were |
| Bluetooth.WorkedTimeNotifiesOnlyWhenConnected | src/Bluetooth.cpp:189-194 | the uptime is notified if and only if a client is connected and the work-time characteristic exists; otherwise nothing changes |
| Bluetooth.EnableKeepsWf | src/Bluetooth.cpp:86-126 | `enable` keeps the invariant: the stack is initialised and the server created once each at most, and handles exist only while started |
| Bluetooth.DisableKeepsWf | src/Bluetooth.cpp:133-179 | `disable` keeps the invariant |
| Bluetooth.ApplyKeepsWf | src/Bluetooth.cpp:37-198 | every operation of the module keeps the invariant |
| Bluetooth.SetupAtMostOnce | src/Bluetooth.cpp:86-94 | over any sequence of operations, including repeated enable/disable cycles, `BLEDevice::init` and `createServer` are each called at most once |
| Bluetooth.Ble.constructor | src/Bluetooth.cpp:23-33 | the module starts stopped, disconnected, uninitialised, with no server, handles or callbacks |
| Bluetooth.Ble.Init | src/Bluetooth.cpp:71-77 | `init` records which callbacks are registered and changes nothing else |
| Bluetooth.Ble.Enable | src/Bluetooth.cpp:79-131 | the method performs exactly the `enable` step |
| Bluetooth.Ble.Disable | src/Bluetooth.cpp:133-179 | the method performs exactly the `disable` step, with the connection count and peer map as arguments |
| Bluetooth.Ble.OnConnect | src/Bluetooth.cpp:37-42 | the connect handler performs exactly the connect step |
| Bluetooth.Ble.OnDisconnect | src/Bluetooth.cpp:44-54 | the disconnect handler performs exactly the disconnect step |
| Bluetooth.Ble.OnWrite | src/Bluetooth.cpp:58-64 | the write handler returns the value forwarded to the credentials callback, if any, converted through a C string as `Forwarded` says |
| Bluetooth.Ble.SendWiFiConnectInfo | src/Bluetooth.cpp:181-187 | the method notifies as the specification function says and disables on success |
| Bluetooth.Ble.SendWorkedTime | src/Bluetooth.cpp:189-194 | the method notifies the uptime as the specification function says |
| Bluetooth.Ble.IsConnected | src/Bluetooth.cpp:196-198 | the result is the connected flag |
| Discovery.HexBytes | src/udp/UdpManager.cpp:19-26 | n bytes printed as `%02X` and joined by ':' take 3n-1 characters |
| Discovery.DeviceId | src/udp/UdpManager.cpp:19-26 | the `device_id` is 17 characters long, the size `macStr[18]` holds with its terminator |
| Discovery.HexBytesRoundTrip | src/udp/UdpManager.cpp:19-26 | reading the printed bytes back as hexadecimal gives the value modulo 256^n: the format loses nothing of the bytes it prints |
| Discovery.SeparatorsAt | src/udp/UdpManager.cpp:20 | every third character of the printed bytes, starting at index 2, is ':' |
| Discovery.DeviceIdRoundTrip | src/udp/UdpManager.cpp:16-26 | the `device_id` reads back to the low 48 bits of the chip id (`chipId >> 0` up to `>> 40`, each cut to a byte) and has ':' at indices 2, 5, 8, 11 and 14 |
| Discovery.DeviceNameRoundTrip | src/udp/UdpManager.cpp:17-31 | the device name is "Device-" followed by a number that reads back (with `toInt`) as the low 32 bits of the chip id modulo 10000 |
| Discovery.DeviceName | src/udp/UdpManager.cpp:31 | the device name is "Device-" followed by at least one decimal digit and nothing else |
| Discovery.Descriptor | src/udp/UdpManager.cpp:33-40 | the descriptor is a JSON object: it starts with '{' and ends with '}' |
| Discovery.DescriptorTrimmed | src/UdpManager.cpp:73-74 | trimming the descriptor, as the older responder does before sending it, changes nothing |
| UdpManager.ReplyIsOnePacket | src/udp/UdpManager.cpp:58-92 | nothing is sent unless the socket is bound and a datagram arrived, and any reply is exactly one begun, written and ended packet |
| UdpManager.Received | src/udp/UdpManager.cpp:62-68 | the message read is a prefix of the datagram of at most 255 bytes with no NUL, and a short NUL-free datagram is read whole |
| UdpManager.Reply | src/udp/UdpManager.cpp:58-92 | nothing is sent unless the responder runs and a datagram arrived; a reply is one whole packet, and only for the trimmed handshake or a "Cmd" payload with a listener |
| UdpManager.PaddedHandshakeAnswered | src/udp/UdpManager.cpp:68-78 | the payload is trimmed, so "LUMIX_DISCOVERY" surrounded by any white space is answered with the discovery descriptor |
| UdpManager.CommandAnswered | src/udp/UdpManager.cpp:79-90 | a payload starting with "Cmd" is answered "SUCCESS" or "FAILURE" by the listener's verdict, and not at all without a listener; any other payload gets no reply |
| UdpManager.CStringNoNul | src/udp/UdpManager.cpp:68 | a buffer without NUL characters converts to a string unchanged |
| UdpManager.ReadPacket | src/udp/UdpManager.cpp:62-68 | reading at most 255 bytes into the 256-byte buffer and terminating at the length read always stays inside the buffer and yields the received message (the first 255 bytes, up to any NUL) |
| UdpManager.CStringOf | src/udp/UdpManager.cpp:68 | `String(packetBuffer)` scans to the terminator and yields the buffer's C string |
| UdpManager.CStringPrefix | src/udp/UdpManager.cpp:68 | a C string ends at the first NUL |
| UdpManager.Manager.constructor | src/udp/UdpManager.cpp:11-13 | the responder starts not running, with no listener and nothing sent |
| UdpManager.Manager.Init | src/udp/UdpManager.cpp:43-50 | the responder runs only if binding the port succeeds |
| UdpManager.Manager.Stop | src/udp/UdpManager.cpp:52-56 | `stop` clears the running flag and changes nothing else |
| UdpManager.Manager.SetMessageListener | src/udp/UdpManager.cpp:94-97 | registering (or clearing) the listener changes nothing else |
| UdpManager.Manager.Handle | src/udp/UdpManager.cpp:58-92 | `handle` sends exactly the reply of the specification function and leaves the responder's state alone |
| LegacyUdp.PacketBegunBeforeClassifying | src/UdpManager.cpp:72-89 | every received datagram begins a reply packet before it is classified; that packet is ended if and only if the payload is the handshake or a command with a listener, and otherwise is left open with nothing written |
| LegacyUdp.LegacyReply | src/UdpManager.cpp:58-91 | nothing is sent unless the responder runs and a datagram arrived; otherwise a packet is begun first; at most three calls are made, and three means a write and then the end of the packet |
| LegacyUdp.HandshakeAnswered | src/UdpManager.cpp:72-78 | exactly "HELLO ESP" is answered with the same descriptor as the newer responder |
| LegacyUdp.SuffixedHandshakeIgnored | src/UdpManager.cpp:68-75 | the payload is not trimmed, so "HELLO ESP" followed by anything, a line ending say, gets no answer and leaves the begun packet open |
| LegacyUdp.CommandAnswered | src/UdpManager.cpp:79-88 | a command with a listener is answered "SUCCESS", or "FAILURE" followed by "\r\n" from `println`, by the listener's verdict |
| LegacyUdp.TerminatorOutOfBounds | src/UdpManager.cpp:63-67 | the arithmetic behind the first finding: for a datagram of 255 bytes or more the read length is 255, the buffer's size, so that is the index the terminator goes to |
| LegacyUdp.ReadIntoShortBuffer | src/UdpManager.cpp:63-68 | the buffer handling as written yields the received message, but only for datagrams shorter than 255 bytes, which is what it must require to stay inside the buffer |
| LegacyUdp.Manager.constructor | src/UdpManager.cpp:11-13 | the older responder starts not running, with no listener and nothing sent |
| LegacyUdp.Manager.Init | src/UdpManager.cpp:43-50 | the responder runs only if binding the port succeeds |
| LegacyUdp.Manager.Stop | src/UdpManager.cpp:52-56 | `stop` clears the running flag and changes nothing else |
| LegacyUdp.Manager.SetMessageListener | src/UdpManager.cpp:93-96 | registering (or clearing) the listener changes nothing else |
| LegacyUdp.Manager.Handle | src/UdpManager.cpp:58-91 | `handle` sends exactly the older reply and leaves the responder's state alone, for a datagram of any length: the receive buffer is the corrected one (see Findings) |
| StringLed.Duty | src/StringLED.cpp:20-25 | the 13-bit duty never exceeds 8191, is 0 for value 0 and 8191 for any value of 255 or more |
| StringLed.DutyMonotone | src/StringLED.cpp:20-25 | the duty grows with the value and is 8191·min(value, 255)/255, rounded down |
| StringLed.Colour | src/StringLED.cpp:40-54 | each colour is written as three writes, to the red, green and blue channels in that order |
| StringLed.HandleKeepsFadeInv | src/StringLED.cpp:12-51 | every call keeps the fade value within 0..255 and the direction a single step pointing away from the bound last reached |
| StringLed.Handle | src/StringLED.cpp:38-86 | `handleLEDs` writes either nothing or all three channels; the fade moves only in FADE mode while on, and then restamps its time; off writes 0 to all three channels |
| StringLed.OffIsDark | src/StringLED.cpp:39-42 | with the system off, all three channels are driven to 0 whatever the mode, and the fade does not move |
| StringLed.FixedColours | src/StringLED.cpp:58-83 | RED, GREEN, BLUE and WHITE drive their channels to full duty and the others to 0; a mode outside the enumeration writes nothing and changes nothing |
| StringLed.FadeStepsOnInterval | src/StringLED.cpp:45-55 | FADE steps only once 10 ms have passed (wrap-around) since the last step; a step stamps the time, moves the value by one and writes it to all three channels; otherwise nothing is written |
| StringLed.FadeIsTriangle | src/StringLED.cpp:12-51 | from boot, the fade value after k steps is a triangle wave of period 510: up from 0 to 255, then back down to 0 |
| StringLed.Strip.constructor | src/StringLED.cpp:12-14 | the fade starts at value 0, direction up, last update 0, with nothing written |
| StringLed.Strip.AnalogWrite | src/StringLED.cpp:20-25 | one `ledcWrite` of the scaled duty is appended and the fade is unchanged |
| StringLed.Strip.HandleLeds | src/StringLED.cpp:38-86 | `handleLEDs` updates the fade and writes exactly as the specification function says |
| Clock.Elapsed | src/main.cpp:103 | `millis() - since` on 32-bit unsigned values is the time that has passed modulo 2^32: it is the plain difference when there was no wrap-around, and adding it to the start gives the current time modulo 2^32 |
| Clock.ElapsedAdvance | src/settings/Settings.cpp:115 | a delay shorter than 2^32 ms is measured exactly across a wrap-around of the counter |
| ArduinoString.IndexOf | src/parser/DataParser.cpp:22-27 | `String::indexOf(pattern, from)` returns the first position at or after `from` where the pattern occurs, and -1 exactly when there is none |
| ArduinoString.IndexOfChar | src/parser/DataParser.cpp:26-27 | `String::indexOf(char, from)` returns the first position at or after `from` holding the character, and -1 exactly when there is none |
| ArduinoString.Substring | src/main.cpp:56-57 | `substring(left, right)` is the slice between them, swapped when right < left, clamped to the end of the string, and empty when both are past the end |
| ArduinoString.ContainsIndexOf | src/parser/DataParser.cpp:22 | `indexOf(pattern) != -1` holds exactly when the line contains the pattern |
| ArduinoString.SubstringFrom | src/main.cpp:57 | `substring(from)` is the rest of the string from `from`, or empty past its end |
| ArduinoString.TrimStart | src/parser/DataParser.cpp:16 | trimming the front removes exactly the leading white space |
| ArduinoString.TrimEnd | src/parser/DataParser.cpp:16 | trimming the back removes exactly the trailing white space |
| ArduinoString.TrimSlice | src/parser/DataParser.cpp:16 | `trim` yields a slice of the string that neither starts nor ends with white space, everything cut off being white space |
| ArduinoString.TrimIdempotent | src/DataParser.cpp:60 | trimming twice is trimming once |
| ArduinoString.TrimPadded | src/udp/UdpManager.cpp:69 | text without white space at its ends, padded with white space, trims back to itself |
| ArduinoString.CString | src/udp/UdpManager.cpp:68 | `String(char*)` stops at the first NUL: the result is the prefix before it and holds no NUL |
| ArduinoString.LeadingDigits | src/DataParser.cpp:61 | the digits `toInt` reads are the longest run of decimal digits at the front |
| ArduinoString.SaturateLong | src/DataParser.cpp:61 | `toInt` saturates to the 32-bit `long` range, keeps values inside it, and is 0 only for 0 |
| ArduinoString.ToInt | src/DataParser.cpp:61 | `toInt` lies in the 32-bit `long` range, is 0 for an empty string or one starting with anything but white space, a sign or a digit, and is not negative for one starting with a digit |
| ArduinoString.Decimal | src/udp/UdpManager.cpp:31 | `String(n, 10)` is a non-empty run of digits without a leading zero |
| ArduinoString.DecimalValue | src/udp/UdpManager.cpp:31 | the decimal digits of n read back as n |
| ArduinoString.ToIntDecimal | src/DataParser.cpp:61 | `toInt` of a printed number (followed by anything that is not a digit) gives the number back |
| ArduinoString.Hex2 | src/udp/UdpManager.cpp:20 | `%02X` prints a byte as two hexadecimal digits that read back to it, neither of them ':' |
| ArduinoString.HexDigitValue | src/udp/UdpManager.cpp:20 | each hexadecimal digit reads back to its value |
| Firmware.SplitCredentials | src/main.cpp:54-64 | BLE credentials are rejected exactly when the value holds no ':' |
| Firmware.SplitCredentialsRoundTrip | src/main.cpp:54-57 | "ssid:password" splits back into the ssid and the password whenever the ssid holds no ':', whatever the password holds |
| Firmware.SplitCredentialsRejoins | src/main.cpp:54-57 | an accepted value is the ssid, a ':' and the password, with the ssid holding no ':', so the split loses nothing |
| Firmware.CRem | src/main.cpp:118 | C's `%` truncates toward zero: the remainder lies strictly between -b and b and agrees with the mathematical one for a non-negative dividend |
| Firmware.ButtonStep | src/main.cpp:115-145 | the `switch` makes at most two calls and none for NO_ACTION; a mode change saves exactly the new mode; a power change saves the new state first; while off, no action touches BLE |
| Firmware.ModeChangesOnlyOnShortPress | src/main.cpp:114-145 | the light mode stays within 0..4 and changes exactly on a short press while the system is on |
| Firmware.ShortPressesCycle | src/main.cpp:116-122 | n short presses while on move the mode to (mode + n) mod 5, saving the mode reached after each press |
| Firmware.MediumPressToggles | src/main.cpp:123-132 | a medium press toggles the power, keeps the mode, saves the new power state first, and disables BLE exactly when the system goes off |
| Firmware.MediumPressTwiceRestores | src/main.cpp:123-132 | two medium presses restore the lights, and the last power state saved is the original one |
| Firmware.LongPressTurnsOn | src/main.cpp:133-141 | a long press always leaves the system on, keeping the mode: when on it enables BLE, when off it only switches on and saves that |
| Firmware.UptimeStep | src/main.cpp:102-107 | when the uptime is sent the timer restarts at now and the seconds sent are at most now / 1000; otherwise the timer is kept |
| Firmware.UptimeGate | src/main.cpp:102-107 | the uptime is sent only when more than 1000 ms (wrap-around) have passed since the last send; a send restarts the wait and carries the current whole seconds |
| Firmware.UptimeQuietForASecond | src/main.cpp:102-107 | after a send nothing is sent again for a full second, however the clock wraps |
| Firmware.IndicatorFor | src/main.cpp:67-82 | the on-board LED is dark exactly when BLE is disabled, blinks every 200 ms exactly while a client is connected, and every 1000 ms otherwise |
| Firmware.Perform | src/main.cpp:119-138 | each call the button `switch` makes touches only the settings store or the BLE session; saving a mode caches it without writing flash, and nothing else changes the cached mode |
| Firmware.PerformAll | src/main.cpp:115-145 | the calls of the button `switch` touch only the settings store and the BLE session |
| Firmware.PerformAllShort | src/main.cpp:115-145 | the `switch` makes at most two calls, in order |
| Firmware.PressWorld | src/main.cpp:114-145 | reading the button and acting on it never moves the LED fade |
| Firmware.SetupWorld | src/main.cpp:84-100 | `setup` changes only the lights, Wi-Fi and BLE: both BLE callbacks and the Wi-Fi callback are registered without any BLE event, and credentials are known afterwards exactly when they were before or the store found them |
| Firmware.BleDataWorld | src/main.cpp:51-65 | a value without ':' changes nothing; otherwise only Wi-Fi and the store change, the stored ssid is colon-free, the stored ssid and password joined with ':' give back the value, and Wi-Fi connects with exactly those |
| Firmware.CommandWorld | src/main.cpp:29-31 | a command changes only the lights and the store; a refused one changes nothing; a mode change is to a valid mode that is also cached for saving |
| Firmware.WifiStatusWorld | src/main.cpp:33-49 | a Wi-Fi status change touches only the TCP calls, the UDP responder and BLE, and only appends to their call records; the UDP listener is registered exactly when the link is up; down stops UDP; up ends the BLE session |
| Firmware.ServeWorld | src/main.cpp:155 | serving a datagram only appends to what was sent and can change only the lights and the store; a responder that does not run changes nothing |
| Firmware.LoopWorld | src/main.cpp:109-158 | one pass keeps the UDP responder, the indicator and the Wi-Fi callback; it only appends PWM writes, datagrams and TCP calls; with the link down nothing is sent and the TCP server is not called, and with it up the TCP server is polled once |
| Firmware.SetupIsWf | src/main.cpp:17-100 | at boot, and after `setup` restores the saved lights, the current, cached and stored modes are valid light modes, provided the flash holds a valid mode or none |
| Firmware.PerformKeepsWf | src/main.cpp:115-145 | each call of the button `switch` keeps every mode valid |
| Firmware.PerformAllKeepsWf | src/main.cpp:115-145 | any sequence of such calls keeps every mode valid |
| Firmware.ButtonKeepsWf | src/main.cpp:114-145 | acting on any button action keeps every mode valid |
| Firmware.CommandKeepsWf | src/main.cpp:29-31 | any command message the parser acts on keeps every mode valid |
| Firmware.LoopKeepsWf | src/main.cpp:109-158 | one pass of `loop` keeps the fade state in bounds and the current, cached and stored modes valid, whatever the button, clock, link and datagram do |
| Firmware.RunLoopKeepsWf | src/main.cpp:84-158 | over any run of `loop` passes, every mode stays a valid light mode |
| Firmware.LoopServesOnlyWhenLinkUp | src/main.cpp:154-157 | the UDP and TCP servers are serviced only while the link is up: with the link down nothing is sent and neither server changes |
| Firmware.MediumPressOnlyOnRelease | src/main.cpp:17-100 | the firmware never gives the button its system-state pointer, so it stays unset and a medium press is reported only on release |
| Firmware.WifiUpListens | src/main.cpp:33-40 | Wi-Fi up starts the TCP server with the command listener, runs UDP if its port binds, registers the command parser as UDP listener, and reports success over BLE, as the first new BLE event when a client is connected with the response characteristic, after which the BLE session ends |
| Firmware.WifiDownSilences | src/main.cpp:41-48 | Wi-Fi down reports the failure over BLE (to a connected client), keeps the BLE session, then unregisters and stops both servers |
| Firmware.DisconnectedIgnoresDatagrams | src/main.cpp:41-48 | after Wi-Fi goes down no datagram is answered or acted on |
| Firmware.ConnectedCommandAnswered | src/main.cpp:29-38 | once Wi-Fi is up on a bound port, a command datagram is acted on by the parser and answered "SUCCESS" exactly when the parser takes it |
| Firmware.Controller.constructor | src/main.cpp:17-21 | the globals start at FADE, on, timer 0, with every module freshly constructed over the flash |
| Firmware.Controller.Setup | src/main.cpp:84-100 | `setup` restores the lights, starts Wi-Fi with the stored credentials and starts BLE with both callbacks |
| Firmware.Controller.HandleTimer | src/main.cpp:102-107 | `handleTimer` performs the uptime step on the BLE session |
| Firmware.Controller.HandleButtonAction | src/main.cpp:115-145 | the `switch` on the button action performs exactly the lights update and calls of the specification |
| Firmware.Controller.OnBleData | src/main.cpp:51-65 | well-formed credentials are used to connect and then stored; a value without ':' changes nothing |
| Firmware.Controller.OnBleStateChanged | src/main.cpp:67-82 | only the indicator changes, as `IndicatorFor` says |
| Firmware.Controller.OnWifiStatusChanged | src/main.cpp:33-49 | the callback performs exactly the Wi-Fi status step |
| Firmware.Controller.OnCommandMessage | src/main.cpp:29-31 | the listener answers the parser's verdict and applies its effect |
| Firmware.Controller.ServeUdp | src/main.cpp:155 | one datagram is answered, and a command is handed to the parser |
| Firmware.Controller.HandlePress | src/main.cpp:114-145 | reading the button and acting on it performs exactly the press step |
| Firmware.Controller.Service | src/main.cpp:147-157 | the LEDs, the settings sync, the reconnect and the servers run as the specification says |
| Firmware.Controller.Loop | src/main.cpp:109-158 | one pass of `loop` performs exactly the loop step of the specification: timer, button, LEDs, settings sync, reconnect, then the servers while the link is up |

## Left out

- **TCP command server** (src/SocketManager.cpp). It is plumbing over the Wi-Fi library's server and client classes. The model records only the calls `main.cpp` makes into it (`Firmware.SocketCall`).
- **Hardware and display code.**
  - The FastLED effects (src/effects) and the core-0 switcher task (src/switcher) are foreign library math and concurrency.
  - The on-board LED and BLE indicator wrappers only drive GPIO. The model keeps what `main.cpp` asks of the indicator (`Firmware.Indicator`), not how it blinks.
  - The board pin tables, `StringLED::init` and `ledcAttach`, `Serial`, logging and `delay` are left out.
- **`DataParser::setContext`.** It is declared in src/parser/DataParser.h:14 but not defined; its definition is not part of this model.
- **NUM_MODES = 5.** This is taken from include/StringLED.h (FADE, RED, GREEN, BLUE, WHITE). The newer parser includes led_strip/StringLED.h, which is not part of this model, and is assumed to use the same enumeration.
- **Library inputs and calls.**
  - The Wi-Fi driver's link status and IP string, the UDP bind result, the datagram waiting, the BLE connection count and peer map (in map order), and the chip id are parameters.
  - The calls into those libraries are recorded as events.
  - NVS reads and writes are map lookups and updates that never fail.
- **One `millis()` per pass.** One pass of `loop` takes one `now`, where the firmware reads `millis()` several times (for example src/main.cpp:103-104 and src/StringLED.cpp:46-47). Each read is the same value in the model.
- **Callback delivery.** The Wi-Fi and BLE modules do not invoke the callbacks themselves. `Firmware.Controller.OnWifiStatusChanged`, `OnBleData` and `OnBleStateChanged` are the callbacks, and they are called directly.
- **UDP command listener.** It is modelled as the parser's verdict (`Firmware.CommandVerdict`). The parser's effect on the globals and the flash is applied after the reply is recorded. The relative order of the datagram and the flash write is not captured.
- Firmware.ButtonStep: the mode is an unbounded integer. The overflow of `currentMode + 1` and the `static_cast` of an out-of-range saved mode to the enum are not modelled, though C's truncating `%` is.
- WifiManager.ReconnectStep: the `int` failure counter is a natural number, so its overflow after 2^31 failed retries is not modelled.
- ArduinoString.ToInt: `toInt` assumes the `long` of the ESP32 (32 bits) and the "C" locale.

## Findings

| source | as written | input that shows it | evidently intended | confidence | as-written member | corrected member |
|---|---|---|---|---|---|---|
| src/UdpManager.cpp:63-67 | `char packetBuffer[255]` is filled by `udp.read(packetBuffer, 255)` and then terminated with `packetBuffer[len] = 0` | any datagram of 255 bytes or more: `len` is 255 and the terminator is written at index 255, one past the end of the buffer | read at most `sizeof(packetBuffer) - 1` bytes into a 256-byte buffer, as src/udp/UdpManager.cpp:63-64 does; the model's older `handle` uses this corrected read | not executed | LegacyUdp.ReadIntoShortBuffer | UdpManager.ReadPacket |
| src/settings/Settings.cpp:92-97 | `saveBrightness` stores its argument in `brightnessChange`, which nothing reads, while the flush writes `cachedBrightness` (src/settings/Settings.cpp:41-44) | `saveBrightness(200)` with the default cache, then `handleSettingsSync` 5000 ms later: flash gets brightness 51, not 200 | `saveBrightness` caches the value in `cachedBrightness`, so that the next flush writes it | not executed | Settings.SavedBrightnessIsLost | Settings.IntendedBrightnessPersists |
