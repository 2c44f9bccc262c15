/** The BLE provisioning session: `enable` brings up the stack, the GATT
    server and advertising; a phone connects and writes `ssid:password` to the
    credentials characteristic; the firmware notifies the outcome and, on
    success, `disable`s the session. The BLE library is not modelled: every
    call into it is recorded as an `Event`, in order. */
module Bluetooth {
  import opened Wrappers
  import ArduinoString

  const BleName: seq<char> := "I AM ESP32"

  /** The values the registered state callback is handed. */
  datatype BtState = BtEnabled | BtConnected | BtDisconnected | BtDisabled

  datatype Event =
    | StateChanged(state: BtState)       // the registered state callback ran
    | StackInit(name: seq<char>)         // BLEDevice::init
    | CreateServer                       // BLEDevice::createServer + setCallbacks
    | CreateServices                     // both services and their characteristics
    | StartAdvertising
    | StopAdvertising
    | DisconnectPeer(connId: nat)
    | NotifyResponse(value: seq<char>)   // registration-response characteristic
    | NotifyWorkTime(seconds: int)       // work-time characteristic

  /** The module-level statics. `credentialsHandle`, `responseHandle` and
      `workTimeHandle` say whether the three characteristic pointers are set. */
  datatype Session = Session(
    started: bool,
    connected: bool,
    initialized: bool,
    serverCreated: bool,
    credentialsHandle: bool,
    responseHandle: bool,
    workTimeHandle: bool,
    credentialsCallback: bool,
    stateCallback: bool,
    events: seq<Event>)

  const Boot: Session := Session(false, false, false, false, false, false, false, false, false, [])

  /** The state callback's event, when one is registered. */
  function Emit(s: Session, state: BtState): seq<Event> {
    if s.stateCallback then [StateChanged(state)] else []
  }

  function InitStep(s: Session, credentialsCallback: bool, stateCallback: bool): Session {
    s.(credentialsCallback := credentialsCallback, stateCallback := stateCallback)
  }

  function EnableStep(s: Session): (r: Session)
    ensures r.started
    ensures s.started ==> r == s
    ensures !s.started ==> r.initialized && r.serverCreated && r.credentialsHandle && r.responseHandle && r.workTimeHandle
    ensures r.connected == s.connected && s.events <= r.events
    ensures r.credentialsCallback == s.credentialsCallback && r.stateCallback == s.stateCallback
  {
    if s.started then s
    else
      var init := if s.initialized then [] else [StackInit(BleName)];
      var server := if s.serverCreated then [] else [CreateServer];
      s.(initialized := true, serverCreated := true,
         credentialsHandle := true, responseHandle := true, workTimeHandle := true,
         started := true,
         events := s.events + init + server + [CreateServices, StartAdvertising] + Emit(s, BtEnabled))
  }

  /** One `DisconnectPeer` per connection id, in the peer map's order. */
  function DisconnectAll(peers: seq<nat>): (r: seq<Event>)
    ensures |r| == |peers|
    ensures forall k :: 0 <= k < |peers| ==> r[k] == DisconnectPeer(peers[k])
  {
    seq(|peers|, k requires 0 <= k < |peers| => DisconnectPeer(peers[k]))
  }

  /** `disable`, where `connCount` is the server's connected count and `peers`
      the ids of its peer map, both as the library reports them. */
  function DisableStep(s: Session, connCount: nat, peers: seq<nat>): (r: Session)
    ensures !r.started
    ensures s.started ==> !r.connected && !r.credentialsHandle && !r.responseHandle && !r.workTimeHandle
    ensures !s.started ==> r == s
    ensures r.initialized == s.initialized && r.serverCreated == s.serverCreated && s.events <= r.events
  {
    if !s.started then s
    else
      var drops := if s.serverCreated && connCount > 0 then DisconnectAll(peers) else [];
      s.(started := false, connected := false,
         credentialsHandle := false, responseHandle := false, workTimeHandle := false,
         events := s.events + [StopAdvertising] + drops + Emit(s, BtDisabled))
  }

  /** The server's `onConnect`. */
  function ConnectStep(s: Session): (r: Session)
    ensures r.connected && r.started == s.started && s.events <= r.events
    ensures |r.events| > 0 && r.events[|r.events| - 1] == StopAdvertising
  {
    s.(connected := true, events := s.events + Emit(s, BtConnected) + [StopAdvertising])
  }

  /** The server's `onDisconnect`. */
  function DisconnectStep(s: Session): (r: Session)
    ensures r.started == s.started && s.events <= r.events
    ensures s.started ==> !r.connected && |r.events| > 0 && r.events[|r.events| - 1] == StartAdvertising
    ensures !s.started ==> r == s
  {
    if s.started then
      s.(connected := false, events := s.events + Emit(s, BtDisconnected) + [StartAdvertising])
    else s
  }

  /** The credentials characteristic's `onWrite`: the value handed to the
      credentials callback, if any. The emptiness test is on the raw bytes,
      but the callback gets them through a C string, so they end at the first
      NUL (and a value starting with NUL is forwarded as ""). */
  function Forwarded(s: Session, value: seq<char>): (r: Option<seq<char>>)
    ensures r.Some? <==> value != [] && s.credentialsCallback
    ensures r.Some? ==> r.value == ArduinoString.CString(value)
    ensures r.Some? ==> r.value <= value && '\0' !in r.value
    ensures r.Some? && '\0' !in value ==> r.value == value
  {
    if value != [] && s.credentialsCallback then Some(ArduinoString.CString(value)) else None
  }

  function SendWiFiConnectInfoStep(s: Session, success: bool, value: seq<char>, connCount: nat, peers: seq<nat>): (r: Session)
    ensures s.events <= r.events
    ensures success ==> !r.started && (s.started ==> !r.responseHandle)
    ensures !success ==> r.started == s.started && r.connected == s.connected && r.responseHandle == s.responseHandle
  {
    var s := if s.connected && s.responseHandle then s.(events := s.events + [NotifyResponse(value)]) else s;
    if success then DisableStep(s, connCount, peers) else s
  }

  function SendWorkedTimeStep(s: Session, seconds: int): (r: Session)
    ensures s.events <= r.events && |r.events| <= |s.events| + 1
    ensures r.(events := s.events) == s
  {
    if s.connected && s.workTimeHandle then s.(events := s.events + [NotifyWorkTime(seconds)]) else s
  }

  // ---------------------------------------------------------------------------
  // Properties

  /** `enable` when stopped starts the session and emits BT_ENABLED exactly
      once (when a state callback is registered); when started it does
      nothing; so it is idempotent. */
  lemma EnableOnce(s: Session)
    ensures EnableStep(s).started
    ensures s.started ==> EnableStep(s) == s
    ensures !s.started ==>
      Count(EnableStep(s).events, StateChanged(BtEnabled))
      == Count(s.events, StateChanged(BtEnabled)) + (if s.stateCallback then 1 else 0)
    ensures EnableStep(EnableStep(s)) == EnableStep(s)
  {
    if !s.started {
      var e := StateChanged(BtEnabled);
      var setup := (if s.initialized then [] else [StackInit(BleName)])
        + (if s.serverCreated then [] else [CreateServer]) + [CreateServices, StartAdvertising];
      assert EnableStep(s).events == s.events + setup + Emit(s, BtEnabled);
      CountAppend(s.events + setup, Emit(s, BtEnabled), e);
      CountAppend(s.events, setup, e);
      CountOfOthers(setup, e);
    }
  }

  /** `disable` when started clears both flags and all three handles, stops
      advertising, drops every peer, and emits one BT_DISABLED; when stopped it
      does nothing; so calling it twice is calling it once. */
  lemma DisableOnce(s: Session, connCount: nat, peers: seq<nat>, connCount': nat, peers': seq<nat>)
    ensures var r := DisableStep(s, connCount, peers);
      && !r.started
      && (!s.started ==> r == s)
      && (s.started ==>
            && !r.connected && !r.credentialsHandle && !r.responseHandle && !r.workTimeHandle
            && r.events == s.events + [StopAdvertising]
                 + (if s.serverCreated && connCount > 0 then DisconnectAll(peers) else []) + Emit(s, BtDisabled))
    ensures DisableStep(DisableStep(s, connCount, peers), connCount', peers') == DisableStep(s, connCount, peers)
  {
  }

  /** Because `disable` clears `started` first, a disconnection that the peer
      drops cause finds the session stopped and does not re-arm advertising. */
  lemma DisconnectAfterDisableIsInert(s: Session, connCount: nat, peers: seq<nat>)
    requires s.started
    ensures DisconnectStep(DisableStep(s, connCount, peers)) == DisableStep(s, connCount, peers)
  {
  }

  /** `onConnect` marks the link up, reports BT_CONNECTED and stops
      advertising; `onDisconnect` reverses it only while started. */
  lemma ConnectionEvents(s: Session)
    ensures ConnectStep(s).connected && ConnectStep(s).events[|ConnectStep(s).events| - 1] == StopAdvertising
    ensures s.started ==>
      !DisconnectStep(s).connected
      && DisconnectStep(s).events == s.events + Emit(s, BtDisconnected) + [StartAdvertising]
    ensures !s.started ==> DisconnectStep(s) == s
  {
  }

  /** The Wi-Fi result is notified first, exactly when a client is connected
      and the response characteristic exists; a failure changes nothing else.
      What a success does after the notification is `disable`'s step (see
      `SuccessDisables` and `DisableOnce`). */
  lemma WiFiInfoNotifiesOnlyWhenConnected(s: Session, success: bool, value: seq<char>, connCount: nat, peers: seq<nat>)
    ensures var r := SendWiFiConnectInfoStep(s, success, value, connCount, peers);
      var note := if s.connected && s.responseHandle then [NotifyResponse(value)] else [];
      && |r.events| >= |s.events| + |note|
      && r.events[..|s.events| + |note|] == s.events + note
      && (!success ==> r == s.(events := s.events + note))
  {
    var note := if s.connected && s.responseHandle then [NotifyResponse(value)] else [];
    var n := s.(events := s.events + note);
    if success {
      NotifiedThenDisabled(n, connCount, peers);
    }
  }

  /** `disable` only appends to the events. */
  lemma NotifiedThenDisabled(n: Session, connCount: nat, peers: seq<nat>)
    ensures |DisableStep(n, connCount, peers).events| >= |n.events|
    ensures DisableStep(n, connCount, peers).events[..|n.events|] == n.events
  {
    if n.started {
      var rest := [StopAdvertising] + (if n.serverCreated && connCount > 0 then DisconnectAll(peers) else []) + Emit(n, BtDisabled);
      assert DisableStep(n, connCount, peers).events == n.events + rest;
      PrefixOfAppend(n.events, rest);
    }
  }

  lemma PrefixOfAppend<T>(a: seq<T>, b: seq<T>)
    ensures (a + b)[..|a|] == a
  {
  }

  lemma SuccessDisables(s: Session, success: bool, value: seq<char>, connCount: nat, peers: seq<nat>)
    requires Wf(s)
    ensures var r := SendWiFiConnectInfoStep(s, success, value, connCount, peers);
      && (success ==> !r.started && !r.responseHandle && !r.workTimeHandle && (s.started ==> !r.connected))
      && (!success ==> r.started == s.started && r.connected == s.connected)
  {
  }

  /** The uptime is notified exactly when connected with the handle set. */
  lemma WorkedTimeNotifiesOnlyWhenConnected(s: Session, seconds: int)
    ensures var r := SendWorkedTimeStep(s, seconds);
      && (s.connected && s.workTimeHandle ==> r.events == s.events + [NotifyWorkTime(seconds)])
      && (!(s.connected && s.workTimeHandle) ==> r == s)
  {
  }

  // ---------------------------------------------------------------------------
  // Stack initialisation and server creation happen at most once

  datatype Op =
    | Init(credentialsCallback: bool, stateCallback: bool)
    | Enable
    | Disable(connCount: nat, peers: seq<nat>)
    | OnConnect
    | OnDisconnect
    | SendWiFiConnectInfo(success: bool, value: seq<char>, connCount: nat, peers: seq<nat>)
    | SendWorkedTime(seconds: int)

  function Apply(s: Session, op: Op): Session {
    match op
    case Init(c, st) => InitStep(s, c, st)
    case Enable => EnableStep(s)
    case Disable(n, p) => DisableStep(s, n, p)
    case OnConnect => ConnectStep(s)
    case OnDisconnect => DisconnectStep(s)
    case SendWiFiConnectInfo(ok, v, n, p) => SendWiFiConnectInfoStep(s, ok, v, n, p)
    case SendWorkedTime(sec) => SendWorkedTimeStep(s, sec)
  }

  function Run(s: Session, ops: seq<Op>): Session
    decreases |ops|
  {
    if ops == [] then s else Run(Apply(s, ops[0]), ops[1..])
  }

  function Count(events: seq<Event>, e: Event): nat {
    if events == [] then 0 else (if events[0] == e then 1 else 0) + Count(events[1..], e)
  }

  lemma {:induction false} CountAppend(xs: seq<Event>, ys: seq<Event>, e: Event)
    ensures Count(xs + ys, e) == Count(xs, e) + Count(ys, e)
  {
    if xs == [] {
      assert xs + ys == ys;
    } else {
      assert (xs + ys)[0] == xs[0];
      assert (xs + ys)[1..] == xs[1..] + ys;
      CountAppend(xs[1..], ys, e);
    }
  }

  /** The stack was initialised, and the server created, once each if the
      corresponding flag is set and never otherwise; a characteristic handle
      is set only while the session is started. */
  predicate Wf(s: Session) {
    && Count(s.events, StackInit(BleName)) == (if s.initialized then 1 else 0)
    && Count(s.events, CreateServer) == (if s.serverCreated then 1 else 0)
    && (s.credentialsHandle || s.responseHandle || s.workTimeHandle ==> s.started)
  }

  lemma {:induction false} CountOfOthers(xs: seq<Event>, e: Event)
    requires e !in xs
    ensures Count(xs, e) == 0
  {
    if xs != [] {
      CountOfOthers(xs[1..], e);
    }
  }

  /** Appending events that are neither a stack initialisation nor a server
      creation keeps the counts. */
  lemma AppendKeepsWf(s: Session, tail: seq<Event>, r: Session)
    requires Wf(s) && r.events == s.events + tail
    requires r.initialized == s.initialized && r.serverCreated == s.serverCreated
    requires StackInit(BleName) !in tail && CreateServer !in tail
    requires r.credentialsHandle || r.responseHandle || r.workTimeHandle ==> r.started
    ensures Wf(r)
  {
    CountAppend(s.events, tail, StackInit(BleName));
    CountAppend(s.events, tail, CreateServer);
    CountOfOthers(tail, StackInit(BleName));
    CountOfOthers(tail, CreateServer);
  }

  lemma EnableKeepsWf(s: Session)
    requires Wf(s)
    ensures Wf(EnableStep(s))
  {
    if !s.started {
      var a, c := StackInit(BleName), CreateServer;
      var init := if s.initialized then [] else [a];
      var server := if s.serverCreated then [] else [c];
      var rest := [CreateServices, StartAdvertising] + Emit(s, BtEnabled);
      assert EnableStep(s).events == (s.events + init) + (server + rest);
      CountOfOthers(rest, a);
      CountOfOthers(rest, c);
      CountAppend(server, rest, a);
      CountAppend(server, rest, c);
      assert Count(server + rest, a) == 0 by { CountOfOthers(server, a); }
      assert Count(server + rest, c) == if s.serverCreated then 0 else 1;
      CountAppend(s.events, init, a);
      CountAppend(s.events, init, c);
      assert Count(init, c) == 0 by { CountOfOthers(init, c); }
      assert Count(s.events + init, a) == 1;
      CountAppend(s.events + init, server + rest, a);
      CountAppend(s.events + init, server + rest, c);
    }
  }

  lemma DisableKeepsWf(s: Session, connCount: nat, peers: seq<nat>)
    requires Wf(s)
    ensures Wf(DisableStep(s, connCount, peers))
  {
    if s.started {
      var drops := if s.serverCreated && connCount > 0 then DisconnectAll(peers) else [];
      AppendKeepsWf(s, [StopAdvertising] + drops + Emit(s, BtDisabled), DisableStep(s, connCount, peers));
    }
  }

  lemma {:induction false} ApplyKeepsWf(s: Session, op: Op)
    requires Wf(s)
    ensures Wf(Apply(s, op))
  {
    match op
    case Init(c, st) =>
      AppendKeepsWf(s, [], Apply(s, op));
    case Enable =>
      EnableKeepsWf(s);
    case Disable(n, p) =>
      DisableKeepsWf(s, n, p);
    case OnConnect =>
      AppendKeepsWf(s, Emit(s, BtConnected) + [StopAdvertising], Apply(s, op));
    case OnDisconnect =>
      if s.started {
        AppendKeepsWf(s, Emit(s, BtDisconnected) + [StartAdvertising], Apply(s, op));
      }
    case SendWiFiConnectInfo(ok, v, n, p) =>
      var t := if s.connected && s.responseHandle then s.(events := s.events + [NotifyResponse(v)]) else s;
      if s.connected && s.responseHandle {
        AppendKeepsWf(s, [NotifyResponse(v)], t);
      }
      if ok {
        DisableKeepsWf(t, n, p);
      }
    case SendWorkedTime(sec) =>
      if s.connected && s.workTimeHandle {
        AppendKeepsWf(s, [NotifyWorkTime(sec)], Apply(s, op));
      }
  }

  /** From boot, across any sequence of operations (any number of
      enable/disable cycles), `BLEDevice::init` and `createServer` are each
      called at most once. */
  lemma {:induction false} SetupAtMostOnce(s: Session, ops: seq<Op>)
    requires Wf(s)
    ensures Wf(Run(s, ops))
    ensures Count(Run(s, ops).events, StackInit(BleName)) <= 1
    ensures Count(Run(s, ops).events, CreateServer) <= 1
    decreases |ops|
  {
    if ops != [] {
      ApplyKeepsWf(s, ops[0]);
      SetupAtMostOnce(Apply(s, ops[0]), ops[1..]);
    }
  }

  // ---------------------------------------------------------------------------

  class Ble {
    var started: bool
    var connected: bool
    var initialized: bool
    var serverCreated: bool
    var credentialsHandle: bool
    var responseHandle: bool
    var workTimeHandle: bool
    var credentialsCallback: bool
    var stateCallback: bool
    /** Calls made into the BLE library and the state callback, oldest first. */
    var events: seq<Event>

    function State(): Session
      reads this
    {
      Session(started, connected, initialized, serverCreated, credentialsHandle, responseHandle,
              workTimeHandle, credentialsCallback, stateCallback, events)
    }

    constructor ()
      ensures State() == Boot
    {
      started, connected, initialized, serverCreated := false, false, false, false;
      credentialsHandle, responseHandle, workTimeHandle := false, false, false;
      credentialsCallback, stateCallback := false, false;
      events := [];
    }

    method Init(credentialsCallback': bool, stateCallback': bool)
      modifies this
      ensures State() == InitStep(old(State()), credentialsCallback', stateCallback')
    {
      credentialsCallback := credentialsCallback';
      stateCallback := stateCallback';
    }

    method Notify(state: BtState)
      modifies this
      ensures State() == old(State()).(events := old(events) + Emit(old(State()), state))
    {
      if stateCallback {
        events := events + [StateChanged(state)];
      }
    }

    method Enable()
      modifies this
      ensures State() == EnableStep(old(State()))
    {
      if started {
        return;
      }
      // `BLEDevice::init` and `createServer` run only the first time
      var init := if initialized then [] else [StackInit(BleName)];
      var server := if serverCreated then [] else [CreateServer];
      initialized, serverCreated := true, true;
      events := events + init + server + [CreateServices, StartAdvertising];
      credentialsHandle, responseHandle, workTimeHandle := true, true, true;
      started := true;
      Notify(BtEnabled);
    }

    method Disable(connCount: nat, peers: seq<nat>)
      modifies this
      ensures State() == DisableStep(old(State()), connCount, peers)
    {
      if !started {
        return;
      }
      started := false;
      connected := false;
      events := events + [StopAdvertising];
      if serverCreated && connCount > 0 {
        var drops: seq<Event> := [];
        var i := 0;
        while i < |peers|
          invariant 0 <= i <= |peers|
          invariant drops == DisconnectAll(peers[..i])
        {
          drops := drops + [DisconnectPeer(peers[i])];
          i := i + 1;
        }
        assert peers[..i] == peers;
        events := events + drops;
      }
      credentialsHandle, responseHandle, workTimeHandle := false, false, false;
      Notify(BtDisabled);
    }

    method OnConnect()
      modifies this
      ensures State() == ConnectStep(old(State()))
    {
      connected := true;
      Notify(BtConnected);
      events := events + [StopAdvertising];
    }

    method OnDisconnect()
      modifies this
      ensures State() == DisconnectStep(old(State()))
    {
      if started {
        connected := false;
        Notify(BtDisconnected);
        events := events + [StartAdvertising];
      }
    }

    /** `onWrite`: returns the value handed to the credentials callback. */
    method OnWrite(value: seq<char>) returns (forwarded: Option<seq<char>>)
      ensures forwarded == Forwarded(State(), value)
    {
      forwarded := None;
      if value != [] && credentialsCallback {
        forwarded := Some(ArduinoString.CString(value));
      }
    }

    method SendWiFiConnectInfo(success: bool, value: seq<char>, connCount: nat, peers: seq<nat>)
      modifies this
      ensures State() == SendWiFiConnectInfoStep(old(State()), success, value, connCount, peers)
    {
      if connected && responseHandle {
        events := events + [NotifyResponse(value)];
      }
      if success {
        Disable(connCount, peers);
      }
    }

    method SendWorkedTime(seconds: int)
      modifies this
      ensures State() == SendWorkedTimeStep(old(State()), seconds)
    {
      if connected && workTimeHandle {
        events := events + [NotifyWorkTime(seconds)];
      }
    }

    method IsConnected() returns (r: bool)
      ensures r == State().connected
    {
      r := connected;
    }
  }
}
