/** The Wi-Fi connection manager: connects with stored or freshly provisioned
    credentials and, while the link is down, retries with an exponential
    backoff (5 s doubling to a 60 s ceiling) that recovery resets.
    The two revisions of the manager differ only in the name of the
    "credentials known" flag (`hasCredentials` / `wifiConnectedOnce`). */
module WifiManager {
  import opened Clock

  const BaseInterval: nat := 5000
  const MaxInterval: nat := 60000

  /** Calls the manager makes into the Wi-Fi driver. */
  datatype RadioCall = Disconnect | Begin(ssid: seq<char>, password: seq<char>)

  /** What the registered status callback is handed: (connected, message). */
  datatype Report = Report(connected: bool, message: seq<char>)

  datatype Backoff = Backoff(
    ssid: seq<char>,
    password: seq<char>,
    hasCredentials: bool,
    lastAttempt: Millis,
    interval: nat,
    failed: nat,
    radio: seq<RadioCall>)

  /** The statics before `init`. */
  const Reset: Backoff := Backoff("", "", false, 0, BaseInterval, 0, [])

  /** The interval after one more failed attempt. */
  function Doubled(interval: nat): nat {
    if interval < MaxInterval then
      (if 2 * interval > MaxInterval then MaxInterval else 2 * interval)
    else interval
  }

  /** `init`: drop any association, then connect if the store reports
      credentials (`ssid`, `password` and `found` are what the store's
      `getWiFiCredentials` returned). */
  function InitStep(b: Backoff, ssid: seq<char>, password: seq<char>, found: bool): (r: Backoff)
    ensures |r.radio| == |b.radio| + (if found then 2 else 1)
    ensures b.radio <= r.radio && r.radio[|b.radio|] == Disconnect
    ensures found ==> r.radio[|r.radio| - 1] == Begin(ssid, password)
    ensures r.hasCredentials == (b.hasCredentials || found)
    ensures r.interval == b.interval && r.failed == b.failed && r.lastAttempt == b.lastAttempt
  {
    var b := b.(ssid := ssid, password := password, radio := b.radio + [Disconnect]);
    if found then b.(radio := b.radio + [Begin(ssid, password)], hasCredentials := true) else b
  }

  /** `connect`: new credentials, a fresh association attempt, and the backoff
      reset; the time of the last attempt is left alone. */
  function ConnectStep(b: Backoff, ssid: seq<char>, password: seq<char>): (r: Backoff)
    ensures r.hasCredentials && r.failed == 0 && r.interval == BaseInterval
    ensures r.lastAttempt == b.lastAttempt && r.ssid == ssid && r.password == password
    ensures b.radio <= r.radio && |r.radio| == |b.radio| + 2
    ensures r.radio[|b.radio|] == Disconnect && r.radio[|r.radio| - 1] == Begin(ssid, password)
  {
    b.(ssid := ssid, password := password, radio := b.radio + [Disconnect, Begin(ssid, password)],
       hasCredentials := true, failed := 0, interval := BaseInterval)
  }

  /** A retry is due: credentials are known, the link is down, and the
      interval has passed since the last attempt. */
  predicate RetryDue(b: Backoff, linkUp: bool, now: Millis) {
    b.hasCredentials && !linkUp && Elapsed(now, b.lastAttempt) >= b.interval
  }

  /** `handleReconnect`, with the link status and `millis()` as arguments. */
  function ReconnectStep(b: Backoff, linkUp: bool, now: Millis): (r: Backoff)
    ensures r.radio == (if RetryDue(b, linkUp, now) then b.radio + [Begin(b.ssid, b.password)] else b.radio)
    ensures r.ssid == b.ssid && r.password == b.password && r.hasCredentials == b.hasCredentials
    ensures linkUp ==> r.failed == 0 && r.lastAttempt == b.lastAttempt
    ensures linkUp && b.failed > 0 ==> r.interval == BaseInterval
    ensures BaseInterval <= b.interval <= MaxInterval ==> BaseInterval <= r.interval <= MaxInterval
  {
    if b.hasCredentials && !linkUp then
      if Elapsed(now, b.lastAttempt) >= b.interval then
        b.(lastAttempt := now, radio := b.radio + [Begin(b.ssid, b.password)],
           failed := b.failed + 1, interval := Doubled(b.interval))
      else b
    else if linkUp && b.failed > 0 then
      b.(failed := 0, interval := BaseInterval)
    else b
  }

  /** The got-IP event handler's report, when a callback is registered. */
  function OnGotIp(callbackSet: bool, ip: seq<char>): (r: seq<Report>)
    ensures |r| <= 1 && (callbackSet <==> r == [Report(true, ip)])
  {
    if callbackSet then [Report(true, ip)] else []
  }

  /** The disconnection event handler's report, when a callback is registered. */
  function OnDisconnected(callbackSet: bool): (r: seq<Report>)
    ensures |r| <= 1 && (callbackSet <==> r == [Report(false, "Disconnected")])
  {
    if callbackSet then [Report(false, "Disconnected")] else []
  }

  // ---------------------------------------------------------------------------
  // Properties

  predicate IntervalInRange(b: Backoff) {
    BaseInterval <= b.interval <= MaxInterval
  }

  /** Every operation keeps the interval within [5000, 60000]. */
  lemma IntervalStaysInRange(b: Backoff, linkUp: bool, now: Millis, ssid: seq<char>, password: seq<char>, found: bool)
    requires IntervalInRange(b)
    ensures IntervalInRange(ReconnectStep(b, linkUp, now))
    ensures IntervalInRange(ConnectStep(b, ssid, password))
    ensures IntervalInRange(InitStep(b, ssid, password, found))
  {
  }

  function Pow2(k: nat): (r: nat)
    ensures r >= 1
  {
    if k == 0 then 1 else 2 * Pow2(k - 1)
  }

  /** The interval after `k` doublings from `interval`. */
  function DoubledTimes(interval: nat, k: nat): nat {
    if k == 0 then interval else Doubled(DoubledTimes(interval, k - 1))
  }

  /** After `k` doublings from the base the interval is min(5000 * 2^k, 60000). */
  lemma {:induction false} DoubledFromBase(k: nat)
    ensures DoubledTimes(BaseInterval, k)
      == if BaseInterval * Pow2(k) < MaxInterval then BaseInterval * Pow2(k) else MaxInterval
  {
    if k > 0 {
      DoubledFromBase(k - 1);
      var p := Pow2(k - 1);
      if BaseInterval * p >= MaxInterval {
        assert BaseInterval * Pow2(k) >= MaxInterval;
      }
    }
  }

  /** `handleReconnect` at each of `times` with the link down. */
  function TicksDown(b: Backoff, times: seq<Millis>): Backoff
    decreases |times|
  {
    if times == [] then b else TicksDown(ReconnectStep(b, false, times[0]), times[1..])
  }

  /** Every one of the ticks finds a retry due. */
  predicate EachRetryDue(b: Backoff, times: seq<Millis>)
    decreases |times|
  {
    times == [] || (RetryDue(b, false, times[0]) && EachRetryDue(ReconnectStep(b, false, times[0]), times[1..]))
  }

  /** Each due retry starts an association, counts one failure and doubles
      the interval. */
  lemma {:induction false} RetriesDouble(b: Backoff, times: seq<Millis>)
    requires EachRetryDue(b, times)
    ensures var r := TicksDown(b, times);
      && r.failed == b.failed + |times|
      && r.interval == DoubledTimes(b.interval, |times|)
      && |r.radio| == |b.radio| + |times|
    decreases |times|
  {
    if times != [] {
      var next := ReconnectStep(b, false, times[0]);
      RetriesDouble(next, times[1..]);
      DoubledTimesShift(b.interval, |times| - 1);
    }
  }

  lemma {:induction false} DoubledTimesShift(interval: nat, k: nat)
    ensures DoubledTimes(Doubled(interval), k) == DoubledTimes(interval, k + 1)
  {
    if k > 0 {
      DoubledTimesShift(interval, k - 1);
    }
  }

  /** Backoff law: after `connect`, `k` consecutive failed attempts leave the
      interval at min(5000 * 2^k, 60000) and the failure count at `k`. */
  lemma BackoffLaw(b: Backoff, ssid: seq<char>, password: seq<char>, times: seq<Millis>)
    requires EachRetryDue(ConnectStep(b, ssid, password), times)
    ensures var k := |times|;
      var r := TicksDown(ConnectStep(b, ssid, password), times);
      && r.failed == k
      && r.interval == if BaseInterval * Pow2(k) < MaxInterval then BaseInterval * Pow2(k) else MaxInterval
  {
    RetriesDouble(ConnectStep(b, ssid, password), times);
    DoubledFromBase(|times|);
  }

  /** A retry happens only when it is due; when it is, the attempt is stamped
      with the current time. */
  lemma RetryOnlyWhenDue(b: Backoff, linkUp: bool, now: Millis)
    ensures var r := ReconnectStep(b, linkUp, now);
      && (RetryDue(b, linkUp, now) ==>
            r.lastAttempt == now && r.failed == b.failed + 1 && r.interval == Doubled(b.interval)
            && r.radio == b.radio + [Begin(b.ssid, b.password)])
      && (!RetryDue(b, linkUp, now) ==> r.radio == b.radio && r.lastAttempt == b.lastAttempt)
  {
  }

  /** Without credentials, no sequence of ticks ever starts an association. */
  lemma {:induction false} NoRetryWithoutCredentials(b: Backoff, times: seq<Millis>)
    requires !b.hasCredentials
    ensures TicksDown(b, times).radio == b.radio
    ensures !TicksDown(b, times).hasCredentials
    decreases |times|
  {
    if times != [] {
      NoRetryWithoutCredentials(ReconnectStep(b, false, times[0]), times[1..]);
    }
  }

  /** `init` sets the flag exactly when the store found credentials. */
  lemma InitConnectsOnlyWithCredentials(ssid: seq<char>, password: seq<char>, found: bool)
    ensures var r := InitStep(Reset, ssid, password, found);
      && r.hasCredentials == found
      && (found <==> Begin(ssid, password) in r.radio)
  {
  }

  /** Recovery: with the link up, a non-zero failure count resets both
      counters; with a zero count nothing changes. */
  lemma RecoveryResets(b: Backoff, now: Millis)
    ensures var r := ReconnectStep(b, true, now);
      && (b.failed > 0 ==> r.failed == 0 && r.interval == BaseInterval && r.radio == b.radio)
      && (b.failed == 0 ==> r == b)
  {
  }

  /** `connect` resets the backoff but keeps the time of the last attempt. */
  lemma ConnectResets(b: Backoff, ssid: seq<char>, password: seq<char>)
    ensures var r := ConnectStep(b, ssid, password);
      && r.hasCredentials && r.failed == 0 && r.interval == BaseInterval
      && r.lastAttempt == b.lastAttempt
      && r.radio[|r.radio| - 1] == Begin(ssid, password)
  {
  }

  // ---------------------------------------------------------------------------

  class Manager {
    var ssid: seq<char>
    var password: seq<char>
    var hasCredentials: bool
    var lastAttempt: Millis
    var interval: nat
    var failed: nat
    var callbackSet: bool
    /** Calls made into the Wi-Fi driver, oldest first. */
    var radio: seq<RadioCall>

    function State(): Backoff
      reads this
    {
      Backoff(ssid, password, hasCredentials, lastAttempt, interval, failed, radio)
    }

    constructor ()
      ensures State() == Reset && !callbackSet
    {
      ssid, password := "", "";
      hasCredentials := false;
      lastAttempt := 0;
      interval := BaseInterval;
      failed := 0;
      callbackSet := false;
      radio := [];
    }

    method Init(callbackSet': bool, storedSsid: seq<char>, storedPassword: seq<char>, found: bool)
      modifies this
      ensures State() == InitStep(old(State()), storedSsid, storedPassword, found)
      ensures callbackSet == callbackSet'
    {
      callbackSet := callbackSet';
      radio := radio + [Disconnect];
      ssid, password := storedSsid, storedPassword;
      if found {
        radio := radio + [Begin(ssid, password)];
        hasCredentials := true;
      }
    }

    method Connect(ssid': seq<char>, password': seq<char>)
      modifies this
      ensures State() == ConnectStep(old(State()), ssid', password')
      ensures callbackSet == old(callbackSet)
    {
      ssid, password := ssid', password';
      radio := radio + [Disconnect, Begin(ssid', password')];
      hasCredentials := true;
      failed := 0;
      interval := BaseInterval;
    }

    method HandleReconnect(linkUp: bool, now: Millis)
      modifies this
      ensures State() == ReconnectStep(old(State()), linkUp, now)
      ensures callbackSet == old(callbackSet)
    {
      if hasCredentials && !linkUp {
        if Elapsed(now, lastAttempt) >= interval {
          lastAttempt := now;
          radio := radio + [Begin(ssid, password)];
          failed := failed + 1;
          if interval < MaxInterval {
            interval := interval * 2;
            if interval > MaxInterval {
              interval := MaxInterval;
            }
          }
        }
      } else if linkUp {
        if failed > 0 {
          failed := 0;
          interval := BaseInterval;
        }
      }
    }

    /** `isConnected` reports the driver's link status and nothing else. */
    method IsConnected(linkUp: bool) returns (connected: bool)
      ensures connected == linkUp
    {
      connected := linkUp;
    }
  }
}
