/** The newer settings store: Wi-Fi credentials, and the lighting preferences
    behind a debounced write-back cache. Mode and brightness changes are only
    cached; a periodic sync writes them once they have been stable for the
    debounce window, and turning the system off writes them at once. */
module Settings {
  import opened Clock
  import opened Nvs

  const DebounceMs: int := 5000

  const DefaultMode: int := 0
  const DefaultSystemOff: bool := false
  const DefaultBrightness: int := 51
  const DefaultNumLeds: int := 60

  // Keys of the "wifi-settings" namespace
  const KeySsid: seq<char> := "ssid"
  const KeyPassword: seq<char> := "password"
  // Keys of the "light-settings" namespace
  const KeyMode: seq<char> := "mode"
  const KeySystemOff: seq<char> := "systemOff"
  const KeyBrightness: seq<char> := "brightness"
  const KeyNumLeds: seq<char> := "numLeds"

  /** The module's statics and the two NVS namespaces it writes. */
  datatype Cache = Cache(
    cachedMode: int,
    cachedBrightness: int,
    modeDirty: bool,
    lastModeChange: Millis,
    brightnessChange: Millis,
    wifi: Namespace,
    light: Namespace)

  /** The store's operations, with `millis()` as an explicit argument. */
  datatype Call =
    | SaveLightModeNow
    | SaveBrightnessNow
    | SetWiFiCredentials(ssid: seq<char>, password: seq<char>)
    | SaveLightMode(mode: int, now: Millis)
    | SaveSystemState(isOff: bool)
    | SaveBrightness(brightness: int, now: Millis)
    | SaveNumLeds(numLeds: int)
    | HandleSettingsSync(now: Millis)

  /** The statics as initialised at boot, over whatever the flash holds. */
  function Boot(wifi: Namespace, light: Namespace): Cache {
    Cache(DefaultMode, DefaultBrightness, false, 0, 0, wifi, light)
  }

  function WriteMode(c: Cache): Cache {
    c.(light := c.light[KeyMode := IntValue(c.cachedMode)], modeDirty := false, lastModeChange := 0)
  }

  function WriteBrightness(c: Cache): Cache {
    c.(light := c.light[KeyBrightness := IntValue(c.cachedBrightness)], modeDirty := false, lastModeChange := 0)
  }

  /** `saveLightModeNow(); saveBrightnessNow();` */
  function Flush(c: Cache): (r: Cache)
    ensures !r.modeDirty && r.lastModeChange == 0
    ensures GetInt(r.light, KeyMode, DefaultMode) == c.cachedMode
    ensures GetInt(r.light, KeyBrightness, DefaultBrightness) == c.cachedBrightness
    ensures r.cachedMode == c.cachedMode && r.cachedBrightness == c.cachedBrightness && r.wifi == c.wifi
    ensures forall k :: k != KeyMode && k != KeyBrightness ==> (k in r.light <==> k in c.light)
    ensures forall k :: k in c.light && k != KeyMode && k != KeyBrightness ==> r.light[k] == c.light[k]
  {
    WriteBrightness(WriteMode(c))
  }

  /** The pending change is due: dirty, and stable for the debounce window. */
  predicate Due(c: Cache, now: Millis) {
    c.modeDirty && Elapsed(now, c.lastModeChange) >= DebounceMs
  }

  /** The state after one call. */
  function Apply(c: Cache, call: Call): (r: Cache)
    ensures r.cachedBrightness == c.cachedBrightness
    ensures r.cachedMode == if call.SaveLightMode? then call.mode else c.cachedMode
    ensures !call.SetWiFiCredentials? ==> r.wifi == c.wifi
    ensures call.SetWiFiCredentials? ==> r.light == c.light && r.modeDirty == c.modeDirty
    ensures r.modeDirty ==> c.modeDirty || call.SaveLightMode? || call.SaveBrightness?
    ensures KeyMode in r.light ==>
      (KeyMode in c.light && r.light[KeyMode] == c.light[KeyMode]) || r.light[KeyMode] == IntValue(c.cachedMode)
    ensures KeyBrightness in r.light ==>
      (KeyBrightness in c.light && r.light[KeyBrightness] == c.light[KeyBrightness])
      || r.light[KeyBrightness] == IntValue(c.cachedBrightness)
  {
    match call
    case SaveLightModeNow => WriteMode(c)
    case SaveBrightnessNow => WriteBrightness(c)
    case SetWiFiCredentials(ssid, password) =>
      c.(wifi := c.wifi[KeySsid := StringValue(ssid)][KeyPassword := StringValue(password)])
    case SaveLightMode(mode, now) =>
      c.(cachedMode := mode, modeDirty := true, lastModeChange := now)
    case SaveSystemState(isOff) =>
      var written := c.(light := c.light[KeySystemOff := BoolValue(isOff)]);
      if isOff && c.modeDirty then Flush(written) else written
    case SaveBrightness(brightness, now) =>
      // the argument goes to `brightnessChange`, which nothing reads
      c.(brightnessChange := brightness % Period, modeDirty := true, lastModeChange := now)
    case SaveNumLeds(numLeds) =>
      c.(light := c.light[KeyNumLeds := IntValue(numLeds)])
    case HandleSettingsSync(now) =>
      if Due(c, now) then Flush(c) else c
  }

  /** The state after a sequence of calls, first to last. */
  function Run(c: Cache, calls: seq<Call>): Cache
    decreases |calls|
  {
    if calls == [] then c else Run(Apply(c, calls[0]), calls[1..])
  }

  /** What `getWiFiCredentials` reports: the stored strings (or "") and
      whether an SSID is stored. */
  function Credentials(c: Cache): (seq<char>, seq<char>, bool) {
    var ssid := GetString(c.wifi, KeySsid, "");
    (ssid, GetString(c.wifi, KeyPassword, ""), ssid != "")
  }

  /** What `loadLightSettings` reports: (mode, isOff, brightness, numLeds). */
  function LightSettings(c: Cache): (int, bool, int, int) {
    (GetInt(c.light, KeyMode, DefaultMode),
     GetBool(c.light, KeySystemOff, DefaultSystemOff),
     GetInt(c.light, KeyBrightness, DefaultBrightness),
     GetInt(c.light, KeyNumLeds, DefaultNumLeds))
  }

  // ---------------------------------------------------------------------------
  // Properties

  /** `saveLightMode` writes nothing: it caches the mode, marks it dirty and
      stamps the time. */
  lemma SaveLightModeDefers(c: Cache, mode: int, now: Millis)
    ensures var r := Apply(c, SaveLightMode(mode, now));
      r.light == c.light && r.wifi == c.wifi
      && r.cachedMode == mode && r.modeDirty && r.lastModeChange == now
  {
  }

  /** The sync writes mode and brightness exactly when a change is pending and
      has been stable for the debounce window; afterwards nothing is pending
      and the time stamp is 0. Otherwise it changes nothing. */
  lemma SyncWritesWhenDue(c: Cache, now: Millis)
    ensures var r := Apply(c, HandleSettingsSync(now));
      && (Due(c, now) ==>
            && r.light == c.light[KeyMode := IntValue(c.cachedMode)][KeyBrightness := IntValue(c.cachedBrightness)]
            && !r.modeDirty && r.lastModeChange == 0 && r.wifi == c.wifi)
      && (!Due(c, now) ==> r == c)
  {
  }

  /** After a sync nothing is pending that is already due. */
  lemma SyncLeavesNothingDue(c: Cache, now: Millis)
    ensures !Due(Apply(c, HandleSettingsSync(now)), now)
  {
  }

  /** Each save of a mode followed by a sync that comes before the debounce
      window has run out. */
  function SavesWithEarlySyncs(saves: seq<(int, Millis, Millis)>): (calls: seq<Call>)
    ensures |calls| == 2 * |saves|
  {
    if saves == [] then []
    else [SaveLightMode(saves[0].0, saves[0].1), HandleSettingsSync(saves[0].2)]
         + SavesWithEarlySyncs(saves[1..])
  }

  lemma {:induction false} RunAppend(c: Cache, xs: seq<Call>, ys: seq<Call>)
    ensures Run(c, xs + ys) == Run(Run(c, xs), ys)
    decreases |xs|
  {
    if xs != [] {
      assert (xs + ys)[1..] == xs[1..] + ys;
      RunAppend(Apply(c, xs[0]), xs[1..], ys);
    } else {
      assert xs + ys == ys;
    }
  }

  /** Debounce law, first half: saves each followed by a sync inside the
      window write nothing, and leave the last mode cached and pending. */
  lemma {:induction false} EarlySyncsWriteNothing(c: Cache, saves: seq<(int, Millis, Millis)>)
    requires saves != []
    requires forall i :: 0 <= i < |saves| ==> Elapsed(saves[i].2, saves[i].1) < DebounceMs
    ensures var r := Run(c, SavesWithEarlySyncs(saves));
      && r.light == c.light && r.wifi == c.wifi
      && r.modeDirty && r.cachedMode == saves[|saves| - 1].0
      && r.lastModeChange == saves[|saves| - 1].1
    decreases |saves|
  {
    var first := [SaveLightMode(saves[0].0, saves[0].1), HandleSettingsSync(saves[0].2)];
    var mid := Apply(Apply(c, first[0]), first[1]);
    assert Run(c, first) == mid by {
      assert Run(c, first) == Run(Apply(c, first[0]), first[1..]);
      assert first[1..][0] == first[1] && first[1..][1..] == [];
      assert Run(Apply(c, first[0]), first[1..]) == Run(mid, []);
    }
    assert mid == Apply(c, first[0]);
    RunAppend(c, first, SavesWithEarlySyncs(saves[1..]));
    if |saves| > 1 {
      assert forall i :: 0 <= i < |saves[1..]| ==> saves[1..][i] == saves[i + 1];
      EarlySyncsWriteNothing(mid, saves[1..]);
    }
  }

  /** Debounce law: any number of saves, each within the window of the one
      before, give exactly one write, of the last value, at the first sync
      that comes after the window. */
  lemma DebounceCoalesces(c: Cache, saves: seq<(int, Millis, Millis)>, later: Millis)
    requires saves != []
    requires forall i :: 0 <= i < |saves| ==> Elapsed(saves[i].2, saves[i].1) < DebounceMs
    requires Elapsed(later, saves[|saves| - 1].1) >= DebounceMs
    ensures var pending := Run(c, SavesWithEarlySyncs(saves));
      var r := Apply(pending, HandleSettingsSync(later));
      && pending.light == c.light
      && r.light == c.light[KeyMode := IntValue(saves[|saves| - 1].0)][KeyBrightness := IntValue(c.cachedBrightness)]
      && !r.modeDirty
  {
    EarlySyncsWriteNothing(c, saves);
    RunPreservesCachedBrightness(c, SavesWithEarlySyncs(saves));
  }

  /** No call changes `cachedBrightness`: `saveBrightness` stores its argument
      elsewhere. */
  lemma {:induction false} RunPreservesCachedBrightness(c: Cache, calls: seq<Call>)
    ensures Run(c, calls).cachedBrightness == c.cachedBrightness
    decreases |calls|
  {
    if calls != [] {
      RunPreservesCachedBrightness(Apply(c, calls[0]), calls[1..]);
    }
  }

  /** Whatever the calls, the brightness in flash is either what boot found
      there or the default 51: a brightness passed to `saveBrightness` never
      reaches the flash. */
  lemma {:induction false} StoredBrightnessIsDefault(c: Cache, calls: seq<Call>)
    requires c.cachedBrightness == DefaultBrightness
    ensures var r := Run(c, calls);
      KeyBrightness in r.light ==>
        r.light[KeyBrightness] == IntValue(DefaultBrightness)
        || (KeyBrightness in c.light && r.light[KeyBrightness] == c.light[KeyBrightness])
    decreases |calls|
  {
    if calls != [] {
      var next := Apply(c, calls[0]);
      StoredBrightnessIsDefault(next, calls[1..]);
    }
  }

  /** As written, a brightness handed to `saveBrightness` is lost: a flush
      that follows still writes the cached 51. */
  lemma SavedBrightnessIsLost(c: Cache, now: Millis, later: Millis)
    requires c.cachedBrightness == DefaultBrightness
    requires Elapsed(later, now) >= DebounceMs
    ensures var r := Apply(Apply(c, SaveBrightness(200, now)), HandleSettingsSync(later));
      KeyBrightness in r.light && r.light[KeyBrightness] == IntValue(51) != IntValue(200)
  {
  }

  /** `saveBrightness` as evidently intended: the value goes to the cache that
      the flush writes. */
  function SaveBrightnessIntended(c: Cache, brightness: int, now: Millis): (r: Cache)
    ensures r.cachedBrightness == brightness && r.modeDirty && r.lastModeChange == now
    ensures r.cachedMode == c.cachedMode && r.light == c.light && r.wifi == c.wifi
  {
    c.(cachedBrightness := brightness, modeDirty := true, lastModeChange := now)
  }

  /** With the intended store, the sync after the debounce window persists the
      brightness last saved, and the mode cached with it. */
  lemma IntendedBrightnessPersists(c: Cache, brightness: int, now: Millis, later: Millis)
    requires Elapsed(later, now) >= DebounceMs
    ensures var r := Apply(SaveBrightnessIntended(c, brightness, now), HandleSettingsSync(later));
      && r.light == c.light[KeyMode := IntValue(c.cachedMode)][KeyBrightness := IntValue(brightness)]
      && !r.modeDirty
  {
  }

  /** `saveSystemState(true)` writes the flag and, when a change is pending,
      mode and brightness too, leaving nothing pending.
      `saveSystemState(false)` writes only the flag. */
  lemma SaveSystemStateFlushes(c: Cache, isOff: bool)
    ensures var r := Apply(c, SaveSystemState(isOff));
      && KeySystemOff in r.light && r.light[KeySystemOff] == BoolValue(isOff)
      && r.wifi == c.wifi
      && (isOff && c.modeDirty ==>
            && r.light == c.light[KeySystemOff := BoolValue(true)][KeyMode := IntValue(c.cachedMode)][KeyBrightness := IntValue(c.cachedBrightness)]
            && !r.modeDirty)
      && (!isOff || !c.modeDirty ==>
            r.light == c.light[KeySystemOff := BoolValue(isOff)] && r.modeDirty == c.modeDirty)
  {
  }

  /** Credentials read back as written; they count as found exactly when the
      SSID is not empty. */
  lemma CredentialsRoundTrip(c: Cache, ssid: seq<char>, password: seq<char>)
    ensures Credentials(Apply(c, SetWiFiCredentials(ssid, password))) == (ssid, password, ssid != [])
  {
  }

  /** With nothing stored, the defaults are mode 0, on, brightness 51 and 60
      LEDs; a stored LED count (written at once) reads back. */
  lemma LightSettingsDefaults(c: Cache, numLeds: int)
    ensures c.light == map[] ==> LightSettings(c) == (0, false, 51, 60)
    ensures LightSettings(Apply(c, SaveNumLeds(numLeds))).3 == numLeds
  {
  }

  // ---------------------------------------------------------------------------
  // The store as the firmware holds it: module statics updated in place

  class Store {
    var cachedMode: int
    var cachedBrightness: int
    var modeDirty: bool
    var lastModeChange: Millis
    var brightnessChange: Millis
    var wifi: Namespace
    var light: Namespace

    function State(): Cache
      reads this
    {
      Cache(cachedMode, cachedBrightness, modeDirty, lastModeChange, brightnessChange, wifi, light)
    }

    constructor (wifi0: Namespace, light0: Namespace)
      ensures State() == Boot(wifi0, light0)
    {
      cachedMode := DefaultMode;
      cachedBrightness := DefaultBrightness;
      modeDirty := false;
      lastModeChange := 0;
      brightnessChange := 0;
      wifi := wifi0;
      light := light0;
    }

    method SaveLightModeNow()
      modifies this
      ensures State() == Apply(old(State()), Call.SaveLightModeNow)
    {
      light := light[KeyMode := IntValue(cachedMode)];
      modeDirty := false;
      lastModeChange := 0;
    }

    method SaveBrightnessNow()
      modifies this
      ensures State() == Apply(old(State()), Call.SaveBrightnessNow)
    {
      light := light[KeyBrightness := IntValue(cachedBrightness)];
      modeDirty := false;
      lastModeChange := 0;
    }

    method GetWiFiCredentials() returns (ssid: seq<char>, password: seq<char>, found: bool)
      ensures found <==> ssid != []
      ensures ssid == GetString(wifi, KeySsid, "") && password == GetString(wifi, KeyPassword, "")
    {
      ssid := GetString(wifi, KeySsid, "");
      password := GetString(wifi, KeyPassword, "");
      found := ssid != [];
    }

    method SetWiFiCredentials(ssid: seq<char>, password: seq<char>)
      modifies this
      ensures State() == Apply(old(State()), Call.SetWiFiCredentials(ssid, password))
    {
      wifi := wifi[KeySsid := StringValue(ssid)];
      wifi := wifi[KeyPassword := StringValue(password)];
    }

    method SaveLightMode(mode: int, now: Millis)
      modifies this
      ensures State() == Apply(old(State()), Call.SaveLightMode(mode, now))
    {
      cachedMode := mode;
      modeDirty := true;
      lastModeChange := now;
    }

    method SaveSystemState(isOff: bool)
      modifies this
      ensures State() == Apply(old(State()), Call.SaveSystemState(isOff))
    {
      light := light[KeySystemOff := BoolValue(isOff)];
      if isOff && modeDirty {
        SaveLightModeNow();
        SaveBrightnessNow();
      }
    }

    method SaveBrightness(brightness: int, now: Millis)
      modifies this
      ensures State() == Apply(old(State()), Call.SaveBrightness(brightness, now))
    {
      brightnessChange := brightness % Period;
      modeDirty := true;
      lastModeChange := now;
    }

    method SaveNumLeds(numLeds: int)
      modifies this
      ensures State() == Apply(old(State()), Call.SaveNumLeds(numLeds))
    {
      light := light[KeyNumLeds := IntValue(numLeds)];
    }

    method LoadLightSettings() returns (mode: int, isOff: bool, brightness: int, numLeds: int)
      ensures mode == GetInt(light, KeyMode, DefaultMode)
      ensures isOff == GetBool(light, KeySystemOff, DefaultSystemOff)
      ensures brightness == GetInt(light, KeyBrightness, DefaultBrightness)
      ensures numLeds == GetInt(light, KeyNumLeds, DefaultNumLeds)
    {
      mode := GetInt(light, KeyMode, DefaultMode);
      isOff := GetBool(light, KeySystemOff, DefaultSystemOff);
      brightness := GetInt(light, KeyBrightness, DefaultBrightness);
      numLeds := GetInt(light, KeyNumLeds, DefaultNumLeds);
    }

    method HandleSettingsSync(now: Millis)
      modifies this
      ensures State() == Apply(old(State()), Call.HandleSettingsSync(now))
    {
      if modeDirty && Elapsed(now, lastModeChange) >= DebounceMs {
        SaveLightModeNow();
        SaveBrightnessNow();
      }
    }
  }
}
