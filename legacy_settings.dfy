/** The older settings store: Wi-Fi credentials, and the lighting mode behind
    a debounced write-back cache (no brightness, no LED count). Unlike the
    newer store, writing the mode does not reset its time stamp, and
    credentials count as found only when both strings are non-empty. */
module LegacySettings {
  import opened Clock
  import opened Nvs

  const DebounceMs: int := 5000

  const DefaultMode: int := 0
  const DefaultSystemOff: bool := false

  const KeySsid: seq<char> := "ssid"
  const KeyPassword: seq<char> := "password"
  const KeyMode: seq<char> := "mode"
  const KeySystemOff: seq<char> := "systemOff"

  datatype Cache = Cache(
    cachedMode: int,
    modeDirty: bool,
    lastModeChange: Millis,
    wifi: Namespace,
    light: Namespace)

  datatype Call =
    | SetWiFiCredentials(ssid: seq<char>, password: seq<char>)
    | SaveLightMode(mode: int, now: Millis)
    | SaveSystemState(isOff: bool)
    | HandleSettingsSync(now: Millis)

  function Boot(wifi: Namespace, light: Namespace): Cache {
    Cache(DefaultMode, false, 0, wifi, light)
  }

  /** `saveLightModeNow`: write the cached mode, clear the dirty flag. */
  function WriteMode(c: Cache): Cache {
    c.(light := c.light[KeyMode := IntValue(c.cachedMode)], modeDirty := false)
  }

  predicate Due(c: Cache, now: Millis) {
    c.modeDirty && Elapsed(now, c.lastModeChange) >= DebounceMs
  }

  function Apply(c: Cache, call: Call): (r: Cache)
    ensures r.cachedMode == if call.SaveLightMode? then call.mode else c.cachedMode
    ensures !call.SaveLightMode? ==> r.lastModeChange == c.lastModeChange
    ensures !call.SetWiFiCredentials? ==> r.wifi == c.wifi
    ensures call.SetWiFiCredentials? ==> r.light == c.light && r.modeDirty == c.modeDirty
    ensures r.modeDirty ==> c.modeDirty || call.SaveLightMode?
    ensures KeyMode in r.light ==>
      (KeyMode in c.light && r.light[KeyMode] == c.light[KeyMode]) || r.light[KeyMode] == IntValue(c.cachedMode)
  {
    match call
    case SetWiFiCredentials(ssid, password) =>
      c.(wifi := c.wifi[KeySsid := StringValue(ssid)][KeyPassword := StringValue(password)])
    case SaveLightMode(mode, now) =>
      c.(cachedMode := mode, modeDirty := true, lastModeChange := now)
    case SaveSystemState(isOff) =>
      var written := c.(light := c.light[KeySystemOff := BoolValue(isOff)]);
      if isOff && c.modeDirty then WriteMode(written) else written
    case HandleSettingsSync(now) =>
      if Due(c, now) then WriteMode(c) else c
  }

  function Credentials(c: Cache): (seq<char>, seq<char>, bool) {
    var ssid := GetString(c.wifi, KeySsid, "");
    var password := GetString(c.wifi, KeyPassword, "");
    (ssid, password, ssid != "" && password != "")
  }

  function LightSettings(c: Cache): (int, bool) {
    (GetInt(c.light, KeyMode, DefaultMode), GetBool(c.light, KeySystemOff, DefaultSystemOff))
  }

  // ---------------------------------------------------------------------------
  // Properties

  /** `saveLightMode` writes nothing: it caches, marks dirty and stamps. */
  lemma SaveLightModeDefers(c: Cache, mode: int, now: Millis)
    ensures var r := Apply(c, SaveLightMode(mode, now));
      r.light == c.light && r.wifi == c.wifi
      && r.cachedMode == mode && r.modeDirty && r.lastModeChange == now
  {
  }

  /** The sync writes the mode exactly when it is due and then clears the
      dirty flag, but leaves the time stamp as it was. */
  lemma SyncWritesWhenDue(c: Cache, now: Millis)
    ensures var r := Apply(c, HandleSettingsSync(now));
      && (Due(c, now) ==>
            r.light == c.light[KeyMode := IntValue(c.cachedMode)]
            && !r.modeDirty && r.lastModeChange == c.lastModeChange)
      && (!Due(c, now) ==> r == c)
  {
  }

  /** `saveSystemState(true)` writes a pending mode with the flag and leaves
      nothing pending; `saveSystemState(false)` leaves it pending. */
  lemma SaveSystemStateFlushes(c: Cache, isOff: bool)
    ensures var r := Apply(c, SaveSystemState(isOff));
      && KeySystemOff in r.light && r.light[KeySystemOff] == BoolValue(isOff)
      && (isOff ==> !r.modeDirty)
      && (isOff && c.modeDirty ==> KeyMode in r.light && r.light[KeyMode] == IntValue(c.cachedMode))
      && (!isOff ==> r.modeDirty == c.modeDirty && r.cachedMode == c.cachedMode
                     && r.light == c.light[KeySystemOff := BoolValue(false)])
  {
  }

  /** Credentials read back as written, and count as found exactly when
      neither string is empty. */
  lemma CredentialsRoundTrip(c: Cache, ssid: seq<char>, password: seq<char>)
    ensures Credentials(Apply(c, SetWiFiCredentials(ssid, password)))
      == (ssid, password, ssid != [] && password != [])
  {
  }

  /** With nothing stored the device boots in mode 0, switched on; a mode
      that a sync wrote reads back. */
  lemma LightSettingsDefaults(c: Cache, now: Millis)
    ensures c.light == map[] ==> LightSettings(c) == (0, false)
    ensures Due(c, now) ==> LightSettings(Apply(c, HandleSettingsSync(now))).0 == c.cachedMode
  {
  }

  // ---------------------------------------------------------------------------

  class Store {
    var cachedMode: int
    var modeDirty: bool
    var lastModeChange: Millis
    var wifi: Namespace
    var light: Namespace

    function State(): Cache
      reads this
    {
      Cache(cachedMode, modeDirty, lastModeChange, wifi, light)
    }

    constructor (wifi0: Namespace, light0: Namespace)
      ensures State() == Boot(wifi0, light0)
    {
      cachedMode := DefaultMode;
      modeDirty := false;
      lastModeChange := 0;
      wifi := wifi0;
      light := light0;
    }

    method SaveLightModeNow()
      modifies this
      ensures State() == WriteMode(old(State()))
    {
      light := light[KeyMode := IntValue(cachedMode)];
      modeDirty := false;
    }

    method GetWiFiCredentials() returns (ssid: seq<char>, password: seq<char>, found: bool)
      ensures found <==> ssid != [] && password != []
      ensures ssid == GetString(wifi, KeySsid, "") && password == GetString(wifi, KeyPassword, "")
    {
      ssid := GetString(wifi, KeySsid, "");
      password := GetString(wifi, KeyPassword, "");
      found := ssid != "" && password != "";
    }

    method SetWiFiCredentials(ssid: seq<char>, password: seq<char>)
      modifies this
      ensures State() == Apply(old(State()), Call.SetWiFiCredentials(ssid, password))
    {
      wifi := wifi[KeySsid := StringValue(ssid)];
      wifi := wifi[KeyPassword := StringValue(password)];
    }

    method SaveLightMode(mode: int, now: Millis)
      modifies this
      ensures State() == Apply(old(State()), Call.SaveLightMode(mode, now))
    {
      cachedMode := mode;
      modeDirty := true;
      lastModeChange := now;
    }

    method SaveSystemState(isOff: bool)
      modifies this
      ensures State() == Apply(old(State()), Call.SaveSystemState(isOff))
    {
      light := light[KeySystemOff := BoolValue(isOff)];
      if isOff && modeDirty {
        SaveLightModeNow();
      }
    }

    method LoadLightSettings() returns (mode: int, isOff: bool)
      ensures mode == GetInt(light, KeyMode, DefaultMode)
      ensures isOff == GetBool(light, KeySystemOff, DefaultSystemOff)
    {
      mode := GetInt(light, KeyMode, DefaultMode);
      isOff := GetBool(light, KeySystemOff, DefaultSystemOff);
    }

    method HandleSettingsSync(now: Millis)
      modifies this
      ensures State() == Apply(old(State()), Call.HandleSettingsSync(now))
    {
      if modeDirty && Elapsed(now, lastModeChange) >= DebounceMs {
        SaveLightModeNow();
      }
    }
  }
}
