/** The firmware's top level: the globals `currentMode`, `isSystemOff` and
    `timerMillis`, the callbacks that wire the modules to each other, and one
    pass of the main loop. The top level is built against the older revisions
    of the settings store, the command parser and the UDP responder.

    The state of every module is gathered into one `World` value; each
    callback and the loop are functions from the old world to the new one.
    The `Controller` class holds the same state in the modules' own objects,
    and each of its methods is proved to move them as the function says. */
module Firmware {
  import opened ArduinoString
  import opened Wrappers
  import opened Clock
  import Nvs
  import StringLed
  import Button
  import Bluetooth
  import LegacySettings
  import Parser
  import LegacyParser
  import UdpManager
  import LegacyUdp
  import WifiManager

  const ButtonPin: nat := 5
  /** The uptime goes out once more than this many milliseconds have passed. */
  const UptimePeriodMs: int := 1000
  /** Blink periods of the on-board LED while BLE is up. */
  const SlowBlinkMs: nat := 1000
  const FastBlinkMs: nat := 200

  // ---------------------------------------------------------------------------
  // Credentials written over BLE

  predicate NoColon(s: Str) {
    forall k :: 0 <= k < |s| ==> s[k] != ':'
  }

  /** `onBleDataReceived`: "ssid:password" split at the first ':'; the
      password is the whole remainder. `None` when there is no ':'. */
  function SplitCredentials(value: Str): (r: Option<(Str, Str)>)
    ensures r.None? <==> NoColon(value)
  {
    var i := IndexOfChar(value, ':', 0);
    if i == -1 then None
    else Some((Substring(value, 0, i), SubstringFrom(value, i + 1)))
  }

  /** A colon-free ssid and any password, colons included, come back out of
      the line they are joined into. */
  lemma SplitCredentialsRoundTrip(ssid: Str, password: Str)
    requires NoColon(ssid)
    ensures SplitCredentials(ssid + ":" + password) == Some((ssid, password))
  {
    var value := ssid + ":" + password;
    assert value[|ssid|] == ':';
    assert forall k :: 0 <= k < |ssid| ==> value[k] == ssid[k];
    var i := IndexOfChar(value, ':', 0);
    assert i == |ssid|;
    assert value[..i] == ssid;
    assert value[i + 1..] == password;
  }

  /** Conversely, a split yields a colon-free ssid, and joining the parts
      again with ':' gives back the line. */
  lemma SplitCredentialsRejoins(value: Str)
    requires SplitCredentials(value).Some?
    ensures var (ssid, password) := SplitCredentials(value).value;
      NoColon(ssid) && ssid + ":" + password == value
  {
    var i := IndexOfChar(value, ':', 0);
    assert value == value[..i] + [value[i]] + value[i + 1..];
  }

  // ---------------------------------------------------------------------------
  // Button actions

  datatype Lights = Lights(mode: int, isSystemOff: bool)

  /** The calls the button `switch` makes into the other modules. */
  datatype Effect = SaveLightMode(mode: int) | SaveSystemState(isOff: bool) | EnableBle | DisableBle

  /** C's `%` on `int`, which truncates toward zero. */
  function CRem(a: int, b: int): (r: int)
    requires b > 0
    ensures -b < r < b
    ensures a >= 0 ==> r == a % b
  {
    if a >= 0 then a % b else -((-a) % b)
  }

  /** `(currentMode + 1) % NUM_MODES`. */
  function NextMode(mode: int): int {
    CRem(mode + 1, StringLed.NumModes)
  }

  /** The `switch` on the button action in `loop`: the new globals and the
      calls made, in order. */
  function ButtonStep(l: Lights, action: Button.Action): (r: (Lights, seq<Effect>))
    ensures |r.1| <= 2
    ensures action == Button.NoAction ==> r == (l, [])
    ensures r.0.mode != l.mode ==> r.1 == [SaveLightMode(r.0.mode)]
    ensures r.0.isSystemOff != l.isSystemOff ==> |r.1| > 0 && r.1[0] == SaveSystemState(r.0.isSystemOff)
    ensures l.isSystemOff && action != Button.NoAction ==> EnableBle !in r.1 && DisableBle !in r.1
  {
    match action
    case ShortPress =>
      if l.isSystemOff then (l, [])
      else (l.(mode := NextMode(l.mode)), [SaveLightMode(NextMode(l.mode))])
    case MediumPress =>
      var off := !l.isSystemOff;
      (l.(isSystemOff := off), [SaveSystemState(off)] + if off then [DisableBle] else [])
    case LongPress =>
      if !l.isSystemOff then (l, [EnableBle])
      else (l.(isSystemOff := false), [SaveSystemState(false)])
    case NoAction => (l, [])
  }

  function RunButton(l: Lights, actions: seq<Button.Action>): (Lights, seq<Effect>)
    decreases |actions|
  {
    if actions == [] then (l, [])
    else
      var (l1, e1) := ButtonStep(l, actions[0]);
      var (l2, e2) := RunButton(l1, actions[1..]);
      (l2, e1 + e2)
  }

  /** The mode stays a valid light mode, and it changes exactly on a short
      press while the system is on. */
  lemma ModeChangesOnlyOnShortPress(l: Lights, action: Button.Action)
    requires 0 <= l.mode < StringLed.NumModes
    ensures var r := ButtonStep(l, action).0;
      && 0 <= r.mode < StringLed.NumModes
      && (r.mode != l.mode <==> action == Button.ShortPress && !l.isSystemOff)
  {
  }

  /** Short presses while on step through the modes in turn, wrapping after
      the last, and each one saves the mode it moves to. */
  lemma {:induction false} ShortPressesCycle(l: Lights, actions: seq<Button.Action>)
    requires 0 <= l.mode < StringLed.NumModes && !l.isSystemOff
    requires forall i :: 0 <= i < |actions| ==> actions[i] == Button.ShortPress
    ensures RunButton(l, actions).0 == Lights((l.mode + |actions|) % StringLed.NumModes, false)
    ensures |RunButton(l, actions).1| == |actions|
    ensures forall i :: 0 <= i < |actions| ==>
      RunButton(l, actions).1[i] == SaveLightMode((l.mode + i + 1) % StringLed.NumModes)
    decreases |actions|
  {
    if actions != [] {
      var l1 := Lights((l.mode + 1) % StringLed.NumModes, false);
      assert ButtonStep(l, actions[0]) == (l1, [SaveLightMode(l1.mode)]);
      ShortPressesCycle(l1, actions[1..]);
      var rest := RunButton(l1, actions[1..]);
      assert RunButton(l, actions) == (rest.0, [SaveLightMode(l1.mode)] + rest.1);
      ModeShift(l.mode, |actions| - 1);
      forall i | 1 <= i < |actions|
        ensures RunButton(l, actions).1[i] == SaveLightMode((l.mode + i + 1) % StringLed.NumModes)
      {
        assert RunButton(l, actions).1[i] == rest.1[i - 1];
        ModeShift(l.mode, i);
      }
    }
  }

  /** Moving one mode on and then `n` more is moving `n + 1` modes on. */
  lemma ModeShift(m: nat, n: nat)
    ensures ((m + 1) % StringLed.NumModes + n) % StringLed.NumModes == (m + 1 + n) % StringLed.NumModes
  {
    var q, r := (m + 1) / 5, (m + 1) % 5;
    var q2, r2 := (r + n) / 5, (r + n) % 5;
    assert m + 1 + n == 5 * (q + q2) + r2;
  }

  /** A medium press toggles the power and saves it, and turns BLE off exactly
      when the system goes off; the mode is kept. */
  lemma MediumPressToggles(l: Lights)
    ensures var (r, e) := ButtonStep(l, Button.MediumPress);
      && r == Lights(l.mode, !l.isSystemOff)
      && e[0] == SaveSystemState(r.isSystemOff)
      && (DisableBle in e <==> r.isSystemOff)
      && EnableBle !in e
  {
  }

  /** Two medium presses give back the lights they started from, and the
      last saved power state is the original one. */
  lemma MediumPressTwiceRestores(l: Lights)
    ensures var (r, e) := RunButton(l, [Button.MediumPress, Button.MediumPress]);
      r == l && SaveSystemState(l.isSystemOff) in e
      && e[|e| - 1] in {SaveSystemState(l.isSystemOff), DisableBle}
  {
    var first := ButtonStep(l, Button.MediumPress);
    var second := ButtonStep(first.0, Button.MediumPress);
    assert [Button.MediumPress, Button.MediumPress][1..] == [Button.MediumPress];
    assert RunButton(first.0, [Button.MediumPress]) == (second.0, second.1 + []);
  }

  /** A long press always leaves the system on: it starts BLE when the system
      was on, and otherwise only switches it on and saves that. */
  lemma LongPressTurnsOn(l: Lights)
    ensures var (r, e) := ButtonStep(l, Button.LongPress);
      && r == Lights(l.mode, false)
      && (EnableBle in e <==> !l.isSystemOff)
      && (SaveSystemState(false) in e <==> l.isSystemOff)
      && DisableBle !in e && |e| == 1
  {
  }

  // ---------------------------------------------------------------------------
  // Uptime timer

  /** `handleTimer`: the new `timerMillis` and the seconds reported, if any. */
  function UptimeStep(timerMillis: Millis, now: Millis): (r: (Millis, Option<int>))
    ensures r.1.Some? ==> r.0 == now && 0 <= r.1.value * 1000 <= now
    ensures r.1.None? ==> r.0 == timerMillis
  {
    if Elapsed(now, timerMillis) > UptimePeriodMs then (now, Some(now / 1000))
    else (timerMillis, None)
  }

  /** The uptime is reported only when more than a second has passed since
      the last report; a report carries the current whole seconds and
      restarts the wait. */
  lemma UptimeGate(timerMillis: Millis, now: Millis)
    ensures var (t, sent) := UptimeStep(timerMillis, now);
      && (sent.Some? <==> Elapsed(now, timerMillis) > UptimePeriodMs)
      && (sent.Some? ==> t == now && sent.value * 1000 <= now < sent.value * 1000 + 1000)
      && (sent.None? ==> t == timerMillis)
  {
  }

  /** After a report, nothing more is reported for a full second, however
      the clock wraps in between. */
  lemma UptimeQuietForASecond(timerMillis: Millis, now: Millis, d: nat)
    requires UptimeStep(timerMillis, now).1.Some? && d <= 1000
    ensures UptimeStep(UptimeStep(timerMillis, now).0, Advance(now, d)).1 == None
  {
    ElapsedAdvance(now, d);
  }

  // ---------------------------------------------------------------------------
  // BLE state indicator

  /** What the on-board LED is asked to do. */
  datatype Indicator = Blink(periodMs: nat) | Dark

  /** `onBleStateChanged`: a slow blink while advertising, a fast blink
      while a client is connected, dark once BLE is off. */
  function IndicatorFor(state: Bluetooth.BtState): (r: Indicator)
    ensures r.Dark? <==> state == Bluetooth.BtDisabled
    ensures r.Blink? ==> (r.periodMs == FastBlinkMs <==> state == Bluetooth.BtConnected)
    ensures r.Blink? ==> r.periodMs == FastBlinkMs || r.periodMs == SlowBlinkMs
  {
    match state
    case BtEnabled => Blink(SlowBlinkMs)
    case BtConnected => Blink(FastBlinkMs)
    case BtDisconnected => Blink(SlowBlinkMs)
    case BtDisabled => Dark
  }

  // ---------------------------------------------------------------------------
  // The whole device

  /** Calls into the TCP server, which is not part of this model. */
  datatype SocketCall = SocketInit | SocketListener(registered: bool) | SocketStop | SocketHandle

  datatype World = World(
    lights: Lights,
    timerMillis: Millis,
    indicator: Indicator,
    tcp: seq<SocketCall>,
    settings: LegacySettings.Cache,
    wifi: WifiManager.Backoff,
    wifiCallback: bool,
    ble: Bluetooth.Session,
    udp: UdpManager.Responder,
    sent: seq<UdpManager.Datagram>,
    button: Button.ButtonState,
    fade: StringLed.FadeState,
    pwm: seq<StringLed.PwmWrite>)

  /** The globals' initial values and every module freshly constructed, over
      what the flash already holds. */
  function Boot(wifi0: Nvs.Namespace, light0: Nvs.Namespace): World {
    World(Lights(StringLed.Fade, false), 0, Dark, [],
          LegacySettings.Boot(wifi0, light0), WifiManager.Reset, false,
          Bluetooth.Boot, UdpManager.Boot, [], Button.Fresh, StringLed.FadeBoot, [])
  }

  /** `setup`: restore the lights, start Wi-Fi with the stored credentials,
      start BLE with both callbacks. */
  function SetupWorld(w: World): (r: World)
    ensures r == w.(lights := r.lights, wifi := r.wifi, wifiCallback := r.wifiCallback, ble := r.ble)
    ensures r.wifiCallback && r.ble.credentialsCallback && r.ble.stateCallback && r.ble.events == w.ble.events
    ensures r.wifi.hasCredentials == (w.wifi.hasCredentials || LegacySettings.Credentials(w.settings).2)
  {
    var (mode, off) := LegacySettings.LightSettings(w.settings);
    var (ssid, password, found) := LegacySettings.Credentials(w.settings);
    w.(lights := Lights(mode, off),
       wifi := WifiManager.InitStep(w.wifi, ssid, password, found), wifiCallback := true,
       ble := Bluetooth.InitStep(w.ble, true, true))
  }

  /** One call of the `switch` made on the module it names; only the settings
      store and the BLE session can change. */
  function Perform(w: World, e: Effect, now: Millis, connCount: nat, peers: seq<nat>): (r: World)
    ensures r == w.(settings := r.settings, ble := r.ble)
    ensures e.SaveLightMode? ==> r.settings.cachedMode == e.mode && r.settings.light == w.settings.light
    ensures !e.SaveLightMode? ==> r.settings.cachedMode == w.settings.cachedMode
  {
    match e
    case SaveLightMode(m) =>
      w.(settings := LegacySettings.Apply(w.settings, LegacySettings.Call.SaveLightMode(m, now)))
    case SaveSystemState(off) =>
      w.(settings := LegacySettings.Apply(w.settings, LegacySettings.Call.SaveSystemState(off)))
    case EnableBle => w.(ble := Bluetooth.EnableStep(w.ble))
    case DisableBle => w.(ble := Bluetooth.DisableStep(w.ble, connCount, peers))
  }

  function PerformAll(w: World, effects: seq<Effect>, now: Millis, connCount: nat, peers: seq<nat>): (r: World)
    ensures r == w.(settings := r.settings, ble := r.ble)
    decreases |effects|
  {
    if effects == [] then w else PerformAll(Perform(w, effects[0], now, connCount, peers), effects[1..], now, connCount, peers)
  }

  /** The `switch` makes at most two calls, which `PerformAll` makes in order. */
  lemma PerformAllShort(w: World, effects: seq<Effect>, now: Millis, connCount: nat, peers: seq<nat>)
    requires |effects| <= 2
    ensures PerformAll(w, effects, now, connCount, peers) ==
      if effects == [] then w
      else if |effects| == 1 then Perform(w, effects[0], now, connCount, peers)
      else Perform(Perform(w, effects[0], now, connCount, peers), effects[1], now, connCount, peers)
  {
    if effects != [] {
      var w1 := Perform(w, effects[0], now, connCount, peers);
      if |effects| == 2 {
        assert effects[1..][1..] == [];
        assert PerformAll(w1, effects[1..], now, connCount, peers)
            == PerformAll(Perform(w1, effects[1], now, connCount, peers), [], now, connCount, peers);
      }
    }
  }

  function ButtonWorld(w: World, action: Button.Action, now: Millis, connCount: nat, peers: seq<nat>): World {
    var (l, effects) := ButtonStep(w.lights, action);
    PerformAll(w.(lights := l), effects, now, connCount, peers)
  }

  function TimerWorld(w: World, now: Millis): World {
    var (t, sent) := UptimeStep(w.timerMillis, now);
    w.(timerMillis := t,
       ble := if sent.Some? then Bluetooth.SendWorkedTimeStep(w.ble, sent.value) else w.ble)
  }

  /** `onBleDataReceived`: connect with, and store, the credentials. */
  function BleDataWorld(w: World, value: Str): (r: World)
    ensures NoColon(value) ==> r == w
    ensures r == w.(wifi := r.wifi, settings := r.settings)
    ensures !NoColon(value) ==>
      var (ssid, password, _) := LegacySettings.Credentials(r.settings);
      && ssid + ":" + password == value && NoColon(ssid)
      && r.wifi.ssid == ssid && r.wifi.password == password && r.wifi.hasCredentials
  {
    match SplitCredentials(value)
    case None => w
    case Some((ssid, password)) =>
      SplitCredentialsRejoins(value);
      LegacySettings.CredentialsRoundTrip(w.settings, ssid, password);
      w.(wifi := WifiManager.ConnectStep(w.wifi, ssid, password),
         settings := LegacySettings.Apply(w.settings, LegacySettings.Call.SetWiFiCredentials(ssid, password)))
  }

  /** What `onCommandMessageReceived` answers: whether the older parser takes
      the message (both state pointers are always set in this firmware). */
  function CommandVerdict(message: Str): bool {
    LegacyParser.LegacyDecide(message, true, true) != Parser.Reject
  }

  /** `onCommandMessageReceived`: the parser's effect on the globals and the
      settings store. */
  function CommandWorld(w: World, message: Str, now: Millis): (r: World)
    ensures r == w.(lights := r.lights, settings := r.settings)
    ensures !CommandVerdict(message) ==> r == w
    ensures r.lights.mode != w.lights.mode ==>
      0 <= r.lights.mode < StringLed.NumModes && r.settings.cachedMode == r.lights.mode
  {
    var a := LegacyParser.LegacyDecide(message, true, true);
    w.(lights := Lights(if a.SetMode? then a.mode else w.lights.mode,
                        if a.SetPower? then a.off else w.lights.isSystemOff),
       settings := match LegacyParser.LegacyCall(a, now)
                   case Some(call) => LegacySettings.Apply(w.settings, call)
                   case None => w.settings)
  }

  /** `onWifiStatusChanged`: up starts both servers with the command listener
      and reports success over BLE; down reports failure, then unregisters
      and stops both. `bound` is whether the UDP port could be bound. */
  function WifiStatusWorld(w: World, connected: bool, message: Str, bound: bool,
                           connCount: nat, peers: seq<nat>): (r: World)
    ensures r == w.(tcp := r.tcp, udp := r.udp, ble := r.ble)
    ensures w.tcp <= r.tcp && w.ble.events <= r.ble.events
    ensures connected <==> r.udp.listener.Some?
    ensures !connected ==> !r.udp.running
    ensures connected ==> !r.ble.started
  {
    if connected then
      w.(tcp := w.tcp + [SocketInit, SocketListener(true)],
         udp := UdpManager.InitStep(w.udp, bound).(listener := Some(CommandVerdict)),
         ble := Bluetooth.SendWiFiConnectInfoStep(w.ble, true, message, connCount, peers))
    else
      w.(ble := Bluetooth.SendWiFiConnectInfoStep(w.ble, false, message, connCount, peers),
         tcp := w.tcp + [SocketListener(false), SocketStop],
         udp := w.udp.(listener := None, running := false))
  }

  /** Whether the older UDP `handle` hands this datagram to the listener. */
  predicate ReachesListener(r: UdpManager.Responder, packet: Str) {
    && r.running && packet != [] && r.listener.Some?
    && UdpManager.Received(packet) != LegacyUdp.LegacyHandshake
    && StartsWith(UdpManager.Received(packet), UdpManager.CommandMark)
  }

  /** `UdpManager::handle` for one datagram, with the listener's effect. */
  function ServeWorld(w: World, packet: Str, d: UdpManager.Device, now: Millis): (r: World)
    requires UdpManager.ValidDevice(d)
    ensures r == w.(sent := r.sent, lights := r.lights, settings := r.settings)
    ensures w.sent <= r.sent
    ensures !w.udp.running ==> r == w
  {
    var w1 := w.(sent := w.sent + LegacyUdp.LegacyReply(w.udp, packet, d));
    if ReachesListener(w.udp, packet) then CommandWorld(w1, UdpManager.Received(packet), now) else w1
  }

  /** The inputs of one pass of `loop`: the button pin, the clock, the link
      status, the datagram waiting (empty for none), the device's identity,
      and the BLE peers a disable would drop. */
  datatype Tick = Tick(level: bool, now: Millis, linkUp: bool, packet: Str,
                       device: UdpManager.Device, connCount: nat, peers: seq<nat>)

  predicate ValidTick(t: Tick) {
    UdpManager.ValidDevice(t.device)
  }

  /** The button's reading and the `switch` on the action it yields. */
  function PressWorld(w: World, t: Tick): (r: World)
    ensures r.fade == w.fade
  {
    var o := Button.Step(w.button, Button.Input(t.level, w.lights.isSystemOff, t.now));
    ButtonWorld(w.(button := o.next), o.action, t.now, t.connCount, t.peers)
  }

  /** The rest of the pass: the LEDs, the settings sync, the reconnect, and
      the servers while the link is up. */
  function ServiceWorld(w: World, t: Tick): World
    requires StringLed.FadeInv(w.fade) && ValidTick(t)
  {
    var (fade, writes) := StringLed.Handle(w.fade, w.lights.mode, w.lights.isSystemOff, t.now);
    var w1 := w.(fade := fade, pwm := w.pwm + writes);
    var w2 := w1.(settings := LegacySettings.Apply(w1.settings, LegacySettings.Call.HandleSettingsSync(t.now)));
    var w3 := w2.(wifi := WifiManager.ReconnectStep(w2.wifi, t.linkUp, t.now));
    if t.linkUp then ServeWorld(w3, t.packet, t.device, t.now).(tcp := w3.tcp + [SocketHandle]) else w3
  }

  /** One pass of `loop`. */
  function LoopWorld(w: World, t: Tick): (r: World)
    requires StringLed.FadeInv(w.fade) && ValidTick(t)
    ensures r.udp == w.udp && r.indicator == w.indicator && r.wifiCallback == w.wifiCallback
    ensures w.pwm <= r.pwm && w.sent <= r.sent && w.tcp <= r.tcp
    ensures !t.linkUp ==> r.sent == w.sent && r.tcp == w.tcp
    ensures t.linkUp ==> r.tcp == w.tcp + [SocketHandle]
  {
    ServiceWorld(PressWorld(TimerWorld(w, t.now), t), t)
  }

  // ---------------------------------------------------------------------------
  // Properties of the whole device

  /** The mode stored in flash, when there is one, is a valid light mode. */
  predicate StoredModeInRange(light: Nvs.Namespace) {
    LegacySettings.KeyMode in light && light[LegacySettings.KeyMode].IntValue? ==>
      0 <= light[LegacySettings.KeyMode].i < StringLed.NumModes
  }

  /** The current, the cached and the stored mode are all valid light modes,
      and the fade counter is within its bounds. */
  predicate Wf(w: World) {
    && StringLed.FadeInv(w.fade)
    && 0 <= w.lights.mode < StringLed.NumModes
    && 0 <= w.settings.cachedMode < StringLed.NumModes
    && StoredModeInRange(w.settings.light)
  }

  /** The mode restored at boot is one the LEDs can show, provided the flash
      holds a valid mode or none. */
  lemma SetupIsWf(wifi0: Nvs.Namespace, light0: Nvs.Namespace)
    requires StoredModeInRange(light0)
    ensures Wf(Boot(wifi0, light0)) && Wf(SetupWorld(Boot(wifi0, light0)))
  {
  }

  lemma PerformKeepsWf(w: World, e: Effect, now: Millis, connCount: nat, peers: seq<nat>)
    requires Wf(w) && (e.SaveLightMode? ==> 0 <= e.mode < StringLed.NumModes)
    ensures Wf(Perform(w, e, now, connCount, peers))
  {
  }

  lemma {:induction false} PerformAllKeepsWf(w: World, effects: seq<Effect>, now: Millis, connCount: nat, peers: seq<nat>)
    requires Wf(w)
    requires forall i :: 0 <= i < |effects| && effects[i].SaveLightMode? ==>
      0 <= effects[i].mode < StringLed.NumModes
    ensures Wf(PerformAll(w, effects, now, connCount, peers))
    decreases |effects|
  {
    if effects != [] {
      PerformKeepsWf(w, effects[0], now, connCount, peers);
      PerformAllKeepsWf(Perform(w, effects[0], now, connCount, peers), effects[1..], now, connCount, peers);
    }
  }

  lemma ButtonKeepsWf(w: World, action: Button.Action, now: Millis, connCount: nat, peers: seq<nat>)
    requires Wf(w)
    ensures Wf(ButtonWorld(w, action, now, connCount, peers))
  {
    var (l, effects) := ButtonStep(w.lights, action);
    PerformAllKeepsWf(w.(lights := l), effects, now, connCount, peers);
  }

  /** A mode the parser sets is always a valid one. */
  lemma CommandKeepsWf(w: World, message: Str, now: Millis)
    requires Wf(w)
    ensures Wf(CommandWorld(w, message, now))
  {
    var a := LegacyParser.LegacyDecide(message, true, true);
    if a.SetMode? {
      LegacyParser.LegacySetModeRange(message, true, true);
    }
  }

  /** One pass of the loop keeps every mode valid, whatever the button, the
      clock, the network and the commands received do. */
  lemma LoopKeepsWf(w: World, t: Tick)
    requires Wf(w) && ValidTick(t)
    ensures Wf(LoopWorld(w, t))
  {
    var w1 := TimerWorld(w, t.now);
    var o := Button.Step(w1.button, Button.Input(t.level, w1.lights.isSystemOff, t.now));
    ButtonKeepsWf(w1.(button := o.next), o.action, t.now, t.connCount, t.peers);
    var w2 := PressWorld(w1, t);
    StringLed.HandleKeepsFadeInv(w2.fade, w2.lights.mode, w2.lights.isSystemOff, t.now);
    var (fade, writes) := StringLed.Handle(w2.fade, w2.lights.mode, w2.lights.isSystemOff, t.now);
    var w3 := w2.(fade := fade, pwm := w2.pwm + writes);
    var w4 := w3.(settings := LegacySettings.Apply(w3.settings, LegacySettings.Call.HandleSettingsSync(t.now)));
    var w5 := w4.(wifi := WifiManager.ReconnectStep(w4.wifi, t.linkUp, t.now));
    assert Wf(w5);
    if t.linkUp {
      var w6 := w5.(sent := w5.sent + LegacyUdp.LegacyReply(w5.udp, t.packet, t.device));
      CommandKeepsWf(w6, UdpManager.Received(t.packet), t.now);
    }
  }

  function RunLoop(w: World, ticks: seq<Tick>): World
    requires Wf(w) && forall i :: 0 <= i < |ticks| ==> ValidTick(ticks[i])
    decreases |ticks|
  {
    if ticks == [] then w
    else
      LoopKeepsWf(w, ticks[0]);
      RunLoop(LoopWorld(w, ticks[0]), ticks[1..])
  }

  /** From a well-formed boot, every mode stays valid for any run of the loop. */
  lemma {:induction false} RunLoopKeepsWf(w: World, ticks: seq<Tick>)
    requires Wf(w) && forall i :: 0 <= i < |ticks| ==> ValidTick(ticks[i])
    ensures Wf(RunLoop(w, ticks))
    decreases |ticks|
  {
    if ticks != [] {
      LoopKeepsWf(w, ticks[0]);
      RunLoopKeepsWf(LoopWorld(w, ticks[0]), ticks[1..]);
    }
  }

  /** UDP and TCP are serviced only while the link is up. */
  lemma LoopServesOnlyWhenLinkUp(w: World, t: Tick)
    requires StringLed.FadeInv(w.fade) && ValidTick(t)
    ensures var r := LoopWorld(w, t);
      && (!t.linkUp ==> r.sent == w.sent && r.tcp == w.tcp && r.udp == w.udp)
      && (t.linkUp ==> r.tcp == w.tcp + [SocketHandle])
  {
  }

  /** The firmware never hands the button its system-state pointer, so the
      pointer stays unset over every pass and a medium press is reported only
      on release, never while the button is still held. */
  lemma MediumPressOnlyOnRelease(w: World, t: Tick)
    requires !w.button.hasSystemState
    ensures var o := Button.Step(w.button, Button.Input(t.level, w.lights.isSystemOff, t.now));
      && !PressWorld(w, t).button.hasSystemState
      && (o.action == Button.MediumPress ==> !o.next.isPressed)
  {
  }

  /** Wi-Fi up: both servers listen with the command parser, UDP runs if its
      port was bound, and BLE reports success, which ends the BLE session. */
  lemma WifiUpListens(w: World, message: Str, bound: bool, connCount: nat, peers: seq<nat>)
    requires Bluetooth.Wf(w.ble)
    ensures var r := WifiStatusWorld(w, true, message, bound, connCount, peers);
      && r.tcp == w.tcp + [SocketInit, SocketListener(true)]
      && r.udp.running == (w.udp.running || bound)
      && r.udp.listener.Some? && (forall m :: r.udp.listener.value(m) == CommandVerdict(m))
      && !r.ble.started
      && (w.ble.connected && w.ble.responseHandle ==>
            && |r.ble.events| > |w.ble.events|
            && r.ble.events[..|w.ble.events| + 1] == w.ble.events + [Bluetooth.NotifyResponse(message)])
  {
    Bluetooth.SuccessDisables(w.ble, true, message, connCount, peers);
    Bluetooth.WiFiInfoNotifiesOnlyWhenConnected(w.ble, true, message, connCount, peers);
  }

  /** Wi-Fi down: BLE is told first, the BLE session itself is kept, and both
      servers are unregistered and stopped. */
  lemma WifiDownSilences(w: World, message: Str, connCount: nat, peers: seq<nat>)
    requires Bluetooth.Wf(w.ble)
    ensures var r := WifiStatusWorld(w, false, message, false, connCount, peers);
      && r.tcp == w.tcp + [SocketListener(false), SocketStop]
      && !r.udp.running && r.udp.listener.None?
      && r.ble.started == w.ble.started
      && (w.ble.connected && w.ble.responseHandle ==>
            r.ble.events == w.ble.events + [Bluetooth.NotifyResponse(message)])
  {
    Bluetooth.SuccessDisables(w.ble, false, message, connCount, peers);
  }

  /** While Wi-Fi is down no datagram is answered or acted on. */
  lemma DisconnectedIgnoresDatagrams(w: World, message: Str, connCount: nat, peers: seq<nat>,
                                     packet: Str, d: UdpManager.Device, now: Millis)
    requires UdpManager.ValidDevice(d)
    ensures var r := WifiStatusWorld(w, false, message, false, connCount, peers);
      ServeWorld(r, packet, d, now) == r
  {
  }

  /** Once Wi-Fi is up on a bound port, a command datagram is acted on by the
      parser and answered "SUCCESS" exactly when the parser takes it. */
  lemma ConnectedCommandAnswered(w: World, message: Str, connCount: nat, peers: seq<nat>,
                                 packet: Str, d: UdpManager.Device, now: Millis)
    requires UdpManager.ValidDevice(d) && packet != []
    requires UdpManager.Received(packet) != LegacyUdp.LegacyHandshake
    requires StartsWith(UdpManager.Received(packet), UdpManager.CommandMark)
    ensures var r := WifiStatusWorld(w, true, message, true, connCount, peers);
      var command := UdpManager.Received(packet);
      var s := ServeWorld(r, packet, d, now);
      && s.sent == w.sent + [UdpManager.BeginPacket,
                             UdpManager.Write(if CommandVerdict(command) then "SUCCESS" else LegacyUdp.FailureLine),
                             UdpManager.EndPacket]
      && s.lights == CommandWorld(r, command, now).lights
      && s.settings == CommandWorld(r, command, now).settings
  {
  }

  // ---------------------------------------------------------------------------

  class Controller {
    var currentMode: int
    var isSystemOff: bool
    var timerMillis: Millis
    var indicator: Indicator
    /** Calls made into the TCP server, oldest first. */
    var tcp: seq<SocketCall>
    const settings: LegacySettings.Store
    const wifi: WifiManager.Manager
    const ble: Bluetooth.Ble
    const udp: LegacyUdp.Manager
    const button: Button.Button
    const strip: StringLed.Strip

    function State(): World
      reads this, settings, wifi, ble, udp, button, strip
    {
      World(Lights(currentMode, isSystemOff), timerMillis, indicator, tcp,
            settings.State(), wifi.State(), wifi.callbackSet, ble.State(), udp.State(), udp.sent,
            button.State(), strip.FadeOf(), strip.writes)
    }

    constructor (wifi0: Nvs.Namespace, light0: Nvs.Namespace)
      ensures State() == Boot(wifi0, light0) && button.pin == ButtonPin
    {
      currentMode := StringLed.Fade;
      isSystemOff := false;
      timerMillis := 0;
      indicator := Dark;
      tcp := [];
      settings := new LegacySettings.Store(wifi0, light0);
      wifi := new WifiManager.Manager();
      ble := new Bluetooth.Ble();
      udp := new LegacyUdp.Manager();
      button := new Button.Button(ButtonPin);
      strip := new StringLed.Strip();
    }

    method Setup()
      modifies this, wifi, ble
      ensures State() == SetupWorld(old(State()))
    {
      var mode, off := settings.LoadLightSettings();
      currentMode, isSystemOff := mode, off;
      var ssid, password, found := settings.GetWiFiCredentials();
      wifi.Init(true, ssid, password, found);
      ble.Init(true, true);
    }

    method HandleTimer(now: Millis)
      modifies this, ble
      ensures State() == TimerWorld(old(State()), now)
    {
      if Elapsed(now, timerMillis) > UptimePeriodMs {
        timerMillis := now;
        ble.SendWorkedTime(timerMillis / 1000);
      }
    }

    method HandleButtonAction(action: Button.Action, now: Millis, connCount: nat, peers: seq<nat>)
      modifies this, settings, ble
      ensures State() == ButtonWorld(old(State()), action, now, connCount, peers)
    {
      ghost var w := State();
      PerformAllShort(w.(lights := ButtonStep(w.lights, action).0), ButtonStep(w.lights, action).1, now, connCount, peers);
      match action {
        case ShortPress =>
          if !isSystemOff {
            currentMode := NextMode(currentMode);
            settings.SaveLightMode(currentMode, now);
          }
        case MediumPress =>
          isSystemOff := !isSystemOff;
          settings.SaveSystemState(isSystemOff);
          if isSystemOff {
            ble.Disable(connCount, peers);
          }
        case LongPress =>
          if !isSystemOff {
            ble.Enable();
          } else {
            isSystemOff := false;
            settings.SaveSystemState(isSystemOff);
          }
        case NoAction =>
      }
    }

    method OnBleData(value: Str)
      modifies wifi, settings
      ensures State() == BleDataWorld(old(State()), value)
    {
      match SplitCredentials(value) {
        case None =>
        case Some((ssid, password)) =>
          wifi.Connect(ssid, password);
          settings.SetWiFiCredentials(ssid, password);
      }
    }

    method OnBleStateChanged(state: Bluetooth.BtState)
      modifies this
      ensures State() == old(State()).(indicator := IndicatorFor(state))
    {
      indicator := IndicatorFor(state);
    }

    method OnWifiStatusChanged(connected: bool, message: Str, bound: bool, connCount: nat, peers: seq<nat>)
      modifies this, udp, ble
      ensures State() == WifiStatusWorld(old(State()), connected, message, bound, connCount, peers)
    {
      if connected {
        tcp := tcp + [SocketInit, SocketListener(true)];
        udp.Init(bound);
        udp.SetMessageListener(Some(CommandVerdict));
        ble.SendWiFiConnectInfo(true, message, connCount, peers);
      } else {
        ble.SendWiFiConnectInfo(false, message, connCount, peers);
        tcp := tcp + [SocketListener(false), SocketStop];
        udp.SetMessageListener(None);
        udp.Stop();
      }
    }

    method OnCommandMessage(message: Str, now: Millis) returns (ok: bool)
      modifies this, settings
      ensures ok == CommandVerdict(message)
      ensures State() == CommandWorld(old(State()), message, now)
    {
      var mode, off;
      ok, mode, off := LegacyParser.LegacyParse(message, Some(currentMode), Some(isSystemOff), settings, now);
      currentMode, isSystemOff := mode.value, off.value;
    }

    method ServeUdp(packet: Str, d: UdpManager.Device, now: Millis)
      requires UdpManager.ValidDevice(d)
      modifies this, settings, udp
      ensures State() == ServeWorld(old(State()), packet, d, now)
    {
      var reaches := ReachesListener(udp.State(), packet);
      udp.Handle(packet, d);
      if reaches {
        var ok := OnCommandMessage(UdpManager.Received(packet), now);
      }
    }

    /** Read the button and act on what it reports. */
    method HandlePress(t: Tick)
      modifies this, settings, ble, button
      ensures State() == PressWorld(old(State()), t)
    {
      var action := button.Handle(t.level, isSystemOff, t.now);
      HandleButtonAction(action, t.now, t.connCount, t.peers);
    }

    method Service(t: Tick)
      requires ValidTick(t) && StringLed.FadeInv(strip.FadeOf())
      modifies this, settings, wifi, udp, strip
      ensures State() == ServiceWorld(old(State()), t)
    {
      strip.HandleLeds(currentMode, isSystemOff, t.now);
      settings.HandleSettingsSync(t.now);
      wifi.HandleReconnect(t.linkUp, t.now);
      var connected := wifi.IsConnected(t.linkUp);
      if connected {
        ServeUdp(t.packet, t.device, t.now);
        tcp := tcp + [SocketHandle];
      }
    }

    method Loop(t: Tick)
      requires ValidTick(t) && StringLed.FadeInv(strip.FadeOf())
      modifies this, settings, wifi, ble, udp, button, strip
      ensures State() == LoopWorld(old(State()), t)
    {
      HandleTimer(t.now);
      HandlePress(t);
      Service(t);
    }
  }
}
