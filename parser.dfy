/** The command parser (the newer revision). A command arrives as a JSON-like
    line such as `{"cmd":"set_mode","mode":2}`; the parser trims it, picks
    the command by searching for `"cmd":"<name>"` (set_mode, then set_power,
    then get_status, then set_wifi), reads the value with `indexOf`,
    `substring` and `toInt`, checks it, and then updates the light mode or
    the power flag it was given and persists the change. */
module Parser {
  import opened ArduinoString
  import opened Wrappers
  import opened Clock
  import StringLed
  import Settings

  /** `"cmd":"`, the start of every command selector. */
  const CmdOpen: Str := "\"cmd\":\""
  const SetModeCmd: Str := CmdOpen + "set_mode" + "\""
  const SetPowerCmd: Str := CmdOpen + "set_power" + "\""
  const GetStatusCmd: Str := CmdOpen + "get_status" + "\""
  const SetWifiCmd: Str := CmdOpen + "set_wifi" + "\""
  const ModeKey: Str := "\"mode\":"
  const StateKey: Str := "\"state\":"

  /** What a line asks for, once checked. `Reject` is every failure: no known
      command, a missing key, a value out of range, a missing state pointer,
      an empty ssid. */
  datatype Action =
    | Reject
    | SetMode(mode: int)
    | SetPower(off: bool)
    | Status
    | SetWifi(ssid: Str, password: Str)

  /** Where a numeric value starting at `from` ends: the next ',', else the
      next '}', else the end of the line. */
  function ValueEnd(input: Str, from: nat): (r: nat)
    requires from <= |input|
    ensures from <= r <= |input|
    ensures IndexOfChar(input, ',', from) != -1 ==> r == IndexOfChar(input, ',', from)
    ensures IndexOfChar(input, ',', from) == -1 && IndexOfChar(input, '}', from) != -1 ==> r == IndexOfChar(input, '}', from)
    ensures IndexOfChar(input, ',', from) == -1 && IndexOfChar(input, '}', from) == -1 ==> r == |input|
    ensures forall k :: from <= k < r ==> input[k] != ','
  {
    var comma := IndexOfChar(input, ',', from);
    if comma != -1 then comma
    else
      var brace := IndexOfChar(input, '}', from);
      if brace != -1 then brace else |input|
  }

  /** The integer value of the key `key` (searched from the start of the
      line), or `None` when the key does not occur. */
  function NumberAfter(input: Str, key: Str): (r: Option<int>)
    ensures r.Some? <==> IndexOf(input, key, 0) != -1
  {
    var k := IndexOf(input, key, 0);
    if k == -1 then None
    else
      var from := k + |key|;
      Some(ToInt(Substring(input, from, ValueEnd(input, from))))
  }

  /** `"key":"`, the text `extractField` searches for. */
  function FieldKey(key: Str): (r: Str)
    ensures |r| == |key| + 4
  {
    "\"" + key + "\":\""
  }

  /** No double quote anywhere. */
  predicate NoQuote(s: Str) {
    forall k :: 0 <= k < |s| ==> s[k] != '"'
  }

  /** `extractField`: the text between `"key":"` and the next quote, or ""
      when either is missing. */
  function ExtractField(input: Str, key: Str): (r: Str)
    ensures NoQuote(r)
    ensures IndexOf(input, FieldKey(key), 0) == -1 ==> r == []
    ensures var k := IndexOf(input, FieldKey(key), 0);
      k != -1 && IndexOfChar(input, '"', k + |key| + 4) == -1 ==> r == []
    ensures var k := IndexOf(input, FieldKey(key), 0);
      k != -1 && IndexOfChar(input, '"', k + |key| + 4) != -1 ==>
        && k + |key| + 4 + |r| < |input|
        && r == input[k + |key| + 4..k + |key| + 4 + |r|]
        && input[k + |key| + 4 + |r|] == '"'
  {
    var k := IndexOf(input, FieldKey(key), 0);
    if k == -1 then []
    else
      var from := k + |key| + 4;
      var e := IndexOfChar(input, '"', from);
      if e == -1 then [] else input[from..e]
  }

  /** `parse`'s decision. `hasMode`/`hasOff` say whether the mode and power
      pointers are set. */
  function Decide(data: Str, hasMode: bool, hasOff: bool): (r: Action)
    ensures r.SetMode? ==> hasMode && 0 <= r.mode < StringLed.NumModes
    ensures r.SetPower? ==> hasOff
    ensures r.Status? ==> hasMode && hasOff
    ensures r.SetWifi? ==> |r.ssid| > 0 && NoQuote(r.ssid) && NoQuote(r.password)
  {
    var input := Trim(data);
    if IndexOf(input, SetModeCmd, 0) != -1 then
      match NumberAfter(input, ModeKey)
      case Some(mode) =>
        if 0 <= mode < StringLed.NumModes && hasMode then SetMode(mode) else Reject
      case None => Reject
    else if IndexOf(input, SetPowerCmd, 0) != -1 then
      match NumberAfter(input, StateKey)
      case Some(state) => if hasOff then SetPower(state == 0) else Reject
      case None => Reject
    else if IndexOf(input, GetStatusCmd, 0) != -1 then
      if hasMode && hasOff then Status else Reject
    else if IndexOf(input, SetWifiCmd, 0) != -1 then
      var ssid := ExtractField(input, "ssid");
      var pass := ExtractField(input, "pass");
      if |ssid| > 0 then SetWifi(ssid, pass) else Reject
    else Reject
  }

  /** The settings call an action makes. */
  function SettingsCall(a: Action, now: Millis): Option<Settings.Call> {
    match a
    case SetMode(m) => Some(Settings.Call.SaveLightMode(m, now))
    case SetPower(off) => Some(Settings.Call.SaveSystemState(off))
    case SetWifi(s, p) => Some(Settings.Call.SetWiFiCredentials(s, p))
    case _ => None
  }

  // ---------------------------------------------------------------------------
  // Properties

  /** The line is trimmed before any matching: surrounding white space never
      changes the outcome. */
  lemma TrimmedFirst(data: Str, hasMode: bool, hasOff: bool)
    ensures Decide(Trim(data), hasMode, hasOff) == Decide(data, hasMode, hasOff)
  {
    TrimIdempotent(data);
  }

  /** The commands are tried in order, each selected by its exact
      `"cmd":"<name>"` text anywhere in the line; a failure in the selected
      branch is final. */
  lemma BranchOrder(data: Str, hasMode: bool, hasOff: bool)
    ensures var input := Trim(data);
      var a := Decide(data, hasMode, hasOff);
      && (a.SetMode? ==> Contains(input, SetModeCmd))
      && (a.SetPower? ==> !Contains(input, SetModeCmd) && Contains(input, SetPowerCmd))
      && (a.Status? ==> !Contains(input, SetModeCmd) && !Contains(input, SetPowerCmd) && Contains(input, GetStatusCmd))
      && (a.SetWifi? ==>
            !Contains(input, SetModeCmd) && !Contains(input, SetPowerCmd) && !Contains(input, GetStatusCmd)
            && Contains(input, SetWifiCmd))
      && ((!Contains(input, SetModeCmd) && !Contains(input, SetPowerCmd) && !Contains(input, GetStatusCmd)
             && !Contains(input, SetWifiCmd)) ==> a == Reject)
  {
    var input := Trim(data);
    ContainsIndexOf(input, SetModeCmd);
    ContainsIndexOf(input, SetPowerCmd);
    ContainsIndexOf(input, GetStatusCmd);
    ContainsIndexOf(input, SetWifiCmd);
  }

  // The next four lemmas restate one branch of `Decide` each, in terms of the
  // selected command; what a concrete command line decides is proved by the
  // round-trip lemmas further down (`SetModeLineRoundTrip` and the others).

  /** set_mode: accepted exactly when the `"mode":` value reads as 0..4 and
      the mode pointer is set. */
  lemma SetModeRange(data: Str, hasMode: bool, hasOff: bool)
    requires Contains(Trim(data), SetModeCmd)
    ensures var n := NumberAfter(Trim(data), ModeKey);
      var a := Decide(data, hasMode, hasOff);
      && (a != Reject <==> n.Some? && 0 <= n.value < StringLed.NumModes && hasMode)
      && (a != Reject ==> a == SetMode(n.value))
  {
    ContainsIndexOf(Trim(data), SetModeCmd);
  }

  /** set_power: any integer is accepted (no range check); the system turns
      off exactly when it reads as 0, and a value with no digits reads as 0. */
  lemma SetPowerAnyInteger(data: Str, hasMode: bool, hasOff: bool)
    requires !Contains(Trim(data), SetModeCmd) && Contains(Trim(data), SetPowerCmd)
    ensures var n := NumberAfter(Trim(data), StateKey);
      var a := Decide(data, hasMode, hasOff);
      && (a != Reject <==> n.Some? && hasOff)
      && (a != Reject ==> a == SetPower(n.value == 0))
  {
    ContainsIndexOf(Trim(data), SetModeCmd);
    ContainsIndexOf(Trim(data), SetPowerCmd);
  }

  /** get_status changes nothing and succeeds exactly when both pointers are set. */
  lemma GetStatusNeedsPointers(data: Str, hasMode: bool, hasOff: bool)
    requires !Contains(Trim(data), SetModeCmd) && !Contains(Trim(data), SetPowerCmd)
    requires Contains(Trim(data), GetStatusCmd)
    ensures Decide(data, hasMode, hasOff) == (if hasMode && hasOff then Status else Reject)
    ensures SettingsCall(Decide(data, hasMode, hasOff), 0).None?
  {
    ContainsIndexOf(Trim(data), SetModeCmd);
    ContainsIndexOf(Trim(data), SetPowerCmd);
    ContainsIndexOf(Trim(data), GetStatusCmd);
  }

  /** set_wifi: accepted exactly when the extracted ssid is non-empty; the
      password may be empty. */
  lemma SetWifiNeedsSsid(data: Str, hasMode: bool, hasOff: bool)
    requires !Contains(Trim(data), SetModeCmd) && !Contains(Trim(data), SetPowerCmd)
    requires !Contains(Trim(data), GetStatusCmd) && Contains(Trim(data), SetWifiCmd)
    ensures var input := Trim(data);
      var a := Decide(data, hasMode, hasOff);
      && (a != Reject <==> |ExtractField(input, "ssid")| > 0)
      && (a != Reject ==> a == SetWifi(ExtractField(input, "ssid"), ExtractField(input, "pass")))
  {
    var input := Trim(data);
    ContainsIndexOf(input, SetModeCmd);
    ContainsIndexOf(input, SetPowerCmd);
    ContainsIndexOf(input, GetStatusCmd);
    ContainsIndexOf(input, SetWifiCmd);
  }

  /** `extractField` reads back a quoted value: when the first `"key":"`
      is followed by a value with no quote and then a quote, that value is
      what it returns. */
  lemma ExtractFieldReads(pre: Str, key: Str, value: Str, post: Str)
    requires forall k :: 0 <= k < |pre| ==> !OccursAt(pre + FieldKey(key) + value + "\"" + post, FieldKey(key), k)
    requires NoQuote(value)
    ensures ExtractField(pre + FieldKey(key) + value + "\"" + post, key) == value
  {
    var pat := FieldKey(key);
    var s := pre + pat + value + "\"" + post;
    assert s[|pre|..|pre| + |pat|] == pat;
    IndexOfIs(s, pat, 0, |pre|);
    var from := |pre| + |key| + 4;
    assert s[from + |value|] == '"';
    assert forall k :: from <= k < from + |value| ==> s[k] == value[k - from];
    assert IndexOfChar(s, '"', from) == from + |value|;
    assert s[from..from + |value|] == value;
  }

  /** Every accepted action persists exactly one change, and a rejected line
      persists nothing. */
  lemma RejectPersistsNothing(data: Str, hasMode: bool, hasOff: bool, now: Millis)
    ensures var a := Decide(data, hasMode, hasOff);
      (SettingsCall(a, now).None? <==> a == Reject || a == Status)
  {
  }

  // ---------------------------------------------------------------------------
  // The lines a client sends, and the parser reading them back

  const SetModePrefix: Str := "{" + SetModeCmd + "," + ModeKey
  const SetPowerPrefix: Str := "{" + SetPowerCmd + "," + StateKey
  const GetStatusLine: Str := "{" + GetStatusCmd + "}"

  /** `{"cmd":"set_mode","mode":<mode>}` */
  function SetModeLine(mode: nat): Str {
    SetModePrefix + Decimal(mode) + "}"
  }

  /** `{"cmd":"set_power","state":<state>}` */
  function SetPowerLine(state: nat): Str {
    SetPowerPrefix + Decimal(state) + "}"
  }

  /** Only white space. */
  predicate Blank(s: Str) {
    forall k :: 0 <= k < |s| ==> IsSpace(s[k])
  }

  /** A braced line with white space around it trims to the line. */
  lemma BracedTrimmed(pre: Str, s: Str, post: Str)
    requires Blank(pre) && Blank(post)
    requires |s| >= 2 && s[0] == '{' && s[|s| - 1] == '}'
    ensures Trim(pre + s + post) == s
  {
    TrimPadded(pre, s, post);
  }

  /** The number after a key ends at the closing brace of a line whose tail
      is `<digits>}`. */
  lemma DigitsThenBrace(s: Str, from: nat, n: nat)
    requires from + |Decimal(n)| + 1 == |s|
    requires s[from..from + |Decimal(n)|] == Decimal(n) && s[|s| - 1] == '}'
    requires n <= LongMax
    ensures IndexOfChar(s, ',', from) == -1 && IndexOfChar(s, '}', from) == |s| - 1
    ensures Substring(s, from, ValueEnd(s, from)) == Decimal(n)
    ensures ToInt(Substring(s, from, ValueEnd(s, from))) == n
  {
    var d := Decimal(n);
    var e := from + |d|;
    forall k | from <= k < e ensures s[k] != ',' && s[k] != '}' {
      assert s[k] == s[from..e][k - from] == d[k - from];
      assert IsDigit(d[k - from]);
    }
    assert IndexOfChar(s, ',', from) == -1;
    assert IndexOfChar(s, '}', from) == e;
    assert ValueEnd(s, from) == e;
    assert Substring(s, from, e) == d;
    assert d + [] == d;
    ToIntDecimal(n, []);
  }

  /** A set_mode line, with any white space around it, reads back as its
      mode: accepted exactly for 0..4 with the mode pointer set. */
  lemma SetModeLineRoundTrip(pre: Str, mode: nat, post: Str, hasMode: bool, hasOff: bool)
    requires Blank(pre) && Blank(post) && mode <= LongMax
    ensures Decide(pre + SetModeLine(mode) + post, hasMode, hasOff)
      == (if mode < StringLed.NumModes && hasMode then SetMode(mode) else Reject)
  {
    var s := SetModeLine(mode);
    var d := Decimal(mode);
    BracedTrimmed(pre, s, post);
    ModeLineKeys(s, d);
    assert s[25..25 + |d|] == d;
    DigitsThenBrace(s, 25, mode);
  }

  lemma ModeLineKeys(s: Str, d: Str)
    requires s == SetModePrefix + d + "}"
    ensures IndexOf(s, SetModeCmd, 0) == 1 && IndexOf(s, ModeKey, 0) == 18
  {
    assert |SetModePrefix| == 25;
    assert s[..25] == SetModePrefix;
    MismatchAt(s, SetModeCmd, 0, 0);
    assert s[1..17] == SetModeCmd;
    IndexOfIs(s, SetModeCmd, 0, 1);
    forall k | 0 <= k < 18 ensures !OccursAt(s, ModeKey, k) {
      assert s[k] == SetModePrefix[k] && s[k + 1] == SetModePrefix[k + 1];
      if s[k] == '"' { MismatchAt(s, ModeKey, k, 1); } else { MismatchAt(s, ModeKey, k, 0); }
    }
    assert s[18..25] == ModeKey;
    IndexOfIs(s, ModeKey, 0, 18);
  }

  /** A set_power line reads back as its state: the system is switched off
      exactly for state 0, whatever other number is sent. */
  lemma SetPowerLineRoundTrip(pre: Str, state: nat, post: Str, hasMode: bool, hasOff: bool)
    requires Blank(pre) && Blank(post) && state <= LongMax
    ensures Decide(pre + SetPowerLine(state) + post, hasMode, hasOff)
      == (if hasOff then SetPower(state == 0) else Reject)
  {
    var s := SetPowerLine(state);
    var d := Decimal(state);
    BracedTrimmed(pre, s, post);
    PowerLineNoSetMode(s, d);
    ContainsIndexOf(s, SetModeCmd);
    PowerLineKeys(s, d);
    assert s[27..27 + |d|] == d;
    DigitsThenBrace(s, 27, state);
  }

  lemma PowerLineNoSetMode(s: Str, d: Str)
    requires s == SetPowerPrefix + d + "}" && AllDigits(d)
    ensures !Contains(s, SetModeCmd)
  {
    assert |SetPowerPrefix| == 27;
    assert s[..27] == SetPowerPrefix;
    forall k | 0 <= k < 27 ensures !OccursAt(s, SetModeCmd, k) {
      assert s[k] == SetPowerPrefix[k];
      if k == 1 {
        MismatchAt(s, SetModeCmd, k, 11);
      } else if s[k] == '"' {
        assert s[k + 1] == SetPowerPrefix[k + 1];
        MismatchAt(s, SetModeCmd, k, 1);
      } else {
        MismatchAt(s, SetModeCmd, k, 0);
      }
    }
    assert forall k :: 27 <= k < |s| ==> s[k] != '"' by {
      assert forall k :: 27 <= k < 27 + |d| ==> s[k] == d[k - 27];
    }
    NoStartIn(s, SetModeCmd, 27, |s|);
  }

  lemma PowerLineKeys(s: Str, d: Str)
    requires s == SetPowerPrefix + d + "}"
    ensures IndexOf(s, SetPowerCmd, 0) == 1 && IndexOf(s, StateKey, 0) == 19
  {
    assert |SetPowerPrefix| == 27;
    assert s[..27] == SetPowerPrefix;
    MismatchAt(s, SetPowerCmd, 0, 0);
    assert s[1..18] == SetPowerCmd;
    IndexOfIs(s, SetPowerCmd, 0, 1);
    forall k | 0 <= k < 19 ensures !OccursAt(s, StateKey, k) {
      assert s[k] == SetPowerPrefix[k] && s[k + 1] == SetPowerPrefix[k + 1];
      if k == 7 {
        assert s[k + 2] == SetPowerPrefix[k + 2];
        MismatchAt(s, StateKey, k, 2);
      } else if s[k] == '"' {
        MismatchAt(s, StateKey, k, 1);
      } else {
        MismatchAt(s, StateKey, k, 0);
      }
    }
    assert s[19..27] == StateKey;
    IndexOfIs(s, StateKey, 0, 19);
  }

  /** A get_status line is recognised, and succeeds exactly when both
      pointers are set. */
  lemma GetStatusLineRoundTrip(pre: Str, post: Str, hasMode: bool, hasOff: bool)
    requires Blank(pre) && Blank(post)
    ensures Decide(pre + GetStatusLine + post, hasMode, hasOff) == (if hasMode && hasOff then Status else Reject)
  {
    var s := GetStatusLine;
    BracedTrimmed(pre, s, post);
    StatusLineNoOther(s);
    ContainsIndexOf(s, SetModeCmd);
    ContainsIndexOf(s, SetPowerCmd);
    MismatchAt(s, GetStatusCmd, 0, 0);
    assert s[1..19] == GetStatusCmd;
    IndexOfIs(s, GetStatusCmd, 0, 1);
  }

  lemma StatusLineNoOther(s: Str)
    requires s == GetStatusLine
    ensures !Contains(s, SetModeCmd) && !Contains(s, SetPowerCmd)
  {
    assert |s| == 20;
    forall k | 0 <= k < |s|
      ensures !OccursAt(s, SetModeCmd, k) && !OccursAt(s, SetPowerCmd, k)
    {
      if k == 1 {
        MismatchAt(s, SetModeCmd, k, 7);
        MismatchAt(s, SetPowerCmd, k, 7);
      } else if s[k] == '"' {
        MismatchAt(s, SetModeCmd, k, 1);
        MismatchAt(s, SetPowerCmd, k, 1);
      } else {
        MismatchAt(s, SetModeCmd, k, 0);
        MismatchAt(s, SetPowerCmd, k, 0);
      }
    }
  }

  const WifiHead: Str := "{" + SetWifiCmd + "," + FieldKey("ssid")
  const WifiMid: Str := "\"," + FieldKey("pass")

  /** `{"cmd":"set_wifi","ssid":"<ssid>","pass":"<password>"}` */
  function SetWifiLine(ssid: Str, password: Str): Str {
    WifiHead + ssid + WifiMid + password + "\"}"
  }

  /** A pattern that opens with a quote and closes a quoted word at `w` cannot
      start at a quote that opens a quote-free run of `n` characters whose
      closing quote is followed by something other than `pat[w + 1]`. */
  lemma QuotedRunMismatch(s: Str, pat: Str, k: nat, n: nat, w: nat)
    requires 1 <= w && w + 1 < |pat| && pat[w] == '"'
    requires forall j :: 1 <= j < w ==> pat[j] != '"'
    requires k + n + 2 < |s| && s[k + n + 1] == '"' && s[k + n + 2] != pat[w + 1]
    requires forall j :: k + 1 <= j < k + n + 1 ==> s[j] != '"'
    ensures !OccursAt(s, pat, k)
  {
    if n + 1 < w {
      MismatchAt(s, pat, k, n + 1);
    } else if n + 1 > w {
      MismatchAt(s, pat, k, w);
    } else {
      MismatchAt(s, pat, k, w + 1);
    }
  }

  /** Where the quotes of the fixed parts of a set_wifi line are. */
  lemma WifiQuotes()
    ensures |WifiHead| == 26 && |WifiMid| == 10
    ensures forall k :: 0 <= k < 26 && WifiHead[k] == '"' ==> k in {1, 5, 7, 16, 18, 23, 25}
    ensures WifiHead[2] == 'c' && WifiHead[6] == ':' && WifiHead[8] == 's' && WifiHead[9] == 'e'
    ensures WifiHead[12] == 'w' && WifiHead[17] == ',' && WifiHead[19] == 's' && WifiHead[24] == ':'
    ensures forall k :: 0 <= k < 10 && WifiMid[k] == '"' ==> k in {0, 2, 7, 9}
    ensures WifiMid[1] == ',' && WifiMid[3] == 'p' && WifiMid[8] == ':'
  {
  }

  /** The layout of a set_wifi line: the ssid at 26, the middle part at
      `a`, the password after it and the closing `"}` at `b`. */
  lemma WifiLayout(ssid: Str, password: Str)
    ensures var s := SetWifiLine(ssid, password);
      var a := 26 + |ssid|;
      var b := a + 10 + |password|;
      && |s| == b + 2
      && (forall k :: 0 <= k < 26 ==> s[k] == WifiHead[k])
      && (forall k :: 26 <= k < a ==> s[k] == ssid[k - 26])
      && (forall k :: a <= k < a + 10 ==> s[k] == WifiMid[k - a])
      && (forall k :: a + 10 <= k < b ==> s[k] == password[k - a - 10])
      && s[b] == '"' && s[b + 1] == '}'
  {
    WifiQuotes();
  }

  /** No command other than set_wifi occurs in a set_wifi line whose values
      hold no quote. */
  lemma WifiLineOnlyWifi(ssid: Str, password: Str, pat: Str)
    requires NoQuote(ssid) && NoQuote(password)
    requires pat == SetModeCmd || pat == SetPowerCmd || pat == GetStatusCmd
    ensures !Contains(SetWifiLine(ssid, password), pat)
  {
    var s := SetWifiLine(ssid, password);
    var n, m := |ssid|, |password|;
    var a := 26 + n;
    var b := a + 10 + m;
    WifiQuotes();
    WifiLayout(ssid, password);
    assert pat[0] == '"' && pat[1] == 'c' && pat[4] == '"' && pat[5] == ':' && pat[11] != 'w';
    assert forall j :: 1 <= j < 4 ==> pat[j] != '"';
    forall k | 0 <= k < |s| ensures !OccursAt(s, pat, k) {
      if s[k] != '"' {
        MismatchAt(s, pat, k, 0);
      } else if k == 1 {
        MismatchAt(s, pat, k, 11);
      } else if k == 25 {
        QuotedRunMismatch(s, pat, k, n, 4);
      } else if k == a + 9 {
        QuotedRunMismatch(s, pat, k, m, 4);
      } else {
        MismatchAt(s, pat, k, 1);
      }
    }
  }

  /** set_wifi is found at once. */
  lemma WifiLineCommand(ssid: Str, password: Str)
    ensures IndexOf(SetWifiLine(ssid, password), SetWifiCmd, 0) == 1
  {
    var s := SetWifiLine(ssid, password);
    assert s[..26] == WifiHead;
    MismatchAt(s, SetWifiCmd, 0, 0);
    assert s[1..17] == SetWifiCmd;
    IndexOfIs(s, SetWifiCmd, 0, 1);
  }

  /** Both fields read back. */
  lemma WifiLineFields(ssid: Str, password: Str)
    requires NoQuote(ssid) && NoQuote(password)
    ensures ExtractField(SetWifiLine(ssid, password), "ssid") == ssid
    ensures ExtractField(SetWifiLine(ssid, password), "pass") == password
  {
    WifiSsidField(ssid, password);
    WifiPassField(ssid, password);
  }

  lemma WifiSsidField(ssid: Str, password: Str)
    requires NoQuote(ssid) && NoQuote(password)
    ensures ExtractField(SetWifiLine(ssid, password), "ssid") == ssid
  {
    var s := SetWifiLine(ssid, password);
    var sk := FieldKey("ssid");
    var pre1 := "{" + SetWifiCmd + ",";
    var post1 := "," + FieldKey("pass") + password + "\"}";
    assert s == pre1 + sk + ssid + "\"" + post1;
    WifiQuotes();
    WifiLayout(ssid, password);
    assert sk[1] == 's' && sk[2] == 's';
    forall k | 0 <= k < 18 ensures !OccursAt(s, sk, k) {
      if s[k] != '"' {
        MismatchAt(s, sk, k, 0);
      } else if k == 7 {
        MismatchAt(s, sk, k, 2);
      } else {
        MismatchAt(s, sk, k, 1);
      }
    }
    ExtractFieldReads(pre1, "ssid", ssid, post1);
  }

  lemma WifiPassField(ssid: Str, password: Str)
    requires NoQuote(ssid) && NoQuote(password)
    ensures ExtractField(SetWifiLine(ssid, password), "pass") == password
  {
    var s := SetWifiLine(ssid, password);
    var n := |ssid|;
    var a := 26 + n;
    var pk := FieldKey("pass");
    var pre2 := WifiHead + ssid + "\",";
    assert s == pre2 + pk + password + "\"" + "}";
    WifiQuotes();
    WifiLayout(ssid, password);
    assert pk[1] == 'p' && pk[5] == '"' && pk[6] == ':';
    assert forall j :: 1 <= j < 5 ==> pk[j] != '"';
    forall k | 0 <= k < a + 2 ensures !OccursAt(s, pk, k) {
      if s[k] != '"' {
        MismatchAt(s, pk, k, 0);
      } else if k == 25 {
        QuotedRunMismatch(s, pk, k, n, 5);
      } else {
        MismatchAt(s, pk, k, 1);
      }
    }
    ExtractFieldReads(pre2, "pass", password, "}");
  }

  /** A set_wifi line whose values hold no quote reads back as its
      credentials, and is refused exactly when the ssid is empty. */
  lemma SetWifiLineRoundTrip(pre: Str, ssid: Str, password: Str, post: Str, hasMode: bool, hasOff: bool)
    requires Blank(pre) && Blank(post) && NoQuote(ssid) && NoQuote(password)
    ensures Decide(pre + SetWifiLine(ssid, password) + post, hasMode, hasOff)
      == (if |ssid| > 0 then SetWifi(ssid, password) else Reject)
  {
    var s := SetWifiLine(ssid, password);
    assert s[0] == '{' && s[|s| - 1] == '}';
    BracedTrimmed(pre, s, post);
    WifiLineOnlyWifi(ssid, password, SetModeCmd);
    WifiLineOnlyWifi(ssid, password, SetPowerCmd);
    WifiLineOnlyWifi(ssid, password, GetStatusCmd);
    ContainsIndexOf(s, SetModeCmd);
    ContainsIndexOf(s, SetPowerCmd);
    ContainsIndexOf(s, GetStatusCmd);
    WifiLineCommand(ssid, password);
    WifiLineFields(ssid, password);
  }

  // ---------------------------------------------------------------------------

  /** `parse` with the state it writes through its pointers: `mode` and
      `isSystemOff` are the pointed-to values, `None` for a null pointer. */
  method Parse(data: Str, mode: Option<int>, isSystemOff: Option<bool>, store: Settings.Store, now: Millis)
    returns (ok: bool, mode': Option<int>, isSystemOff': Option<bool>)
    modifies store
    ensures var a := Decide(data, mode.Some?, isSystemOff.Some?);
      && ok == (a != Reject)
      && mode' == (if a.SetMode? then Some(a.mode) else mode)
      && isSystemOff' == (if a.SetPower? then Some(a.off) else isSystemOff)
      && store.State() == (match SettingsCall(a, now)
                           case Some(call) => Settings.Apply(old(store.State()), call)
                           case None => old(store.State()))
  {
    var a := Decide(data, mode.Some?, isSystemOff.Some?);
    ok, mode', isSystemOff' := false, mode, isSystemOff;
    match a {
      case SetMode(m) =>
        mode' := Some(m);
        store.SaveLightMode(m, now);
        ok := true;
      case SetPower(off) =>
        isSystemOff' := Some(off);
        store.SaveSystemState(off);
        ok := true;
      case Status =>
        ok := true;
      case SetWifi(s, p) =>
        store.SetWiFiCredentials(s, p);
        ok := true;
      case Reject =>
    }
  }
}
