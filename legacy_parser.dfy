/** The older command parser, the one the firmware's main loop uses. It does
    not trim the line; it reads the command as the first quoted text after
    the first `"cmd"` key and compares it with the command names, finds each
    key as a quoted word (`"mode"`, `"state"`, `"ssid"`, `"pass"`) anywhere in
    the line, reads a number up to the next ',' or '}' (or to the end when
    neither follows), and a quoted value up to the next quote (or to the
    end). It accepts a set_wifi line with an empty ssid but refuses one
    without a `"pass"` key. */
module LegacyParser {
  import opened ArduinoString
  import opened Wrappers
  import opened Clock
  import StringLed
  import LegacySettings
  import opened Parser

  const CmdKey: Str := "\"cmd\""
  const LegacyModeKey: Str := "\"mode\""
  const LegacyStateKey: Str := "\"state\""
  const SsidKey: Str := "\"ssid\""
  const PassKey: Str := "\"pass\""

  /** An `int` index passed as the `unsigned int` end of `substring`: -1
      (not found) becomes 4294967295, which `substring` clamps to the end. */
  function EndArg(i: int): (u: nat)
    requires i >= -1
    ensures i >= 0 ==> u == i
    ensures i == -1 ==> u == Word - 1
  {
    if i < 0 then i + Word else i
  }

  /** `indexOf(":", from) + 1`: where a value starts, 0 when no ':' follows. */
  function AfterColon(data: Str, from: nat): (r: nat)
    ensures r == 0 || (from < r <= |data| && data[r - 1] == ':')
    ensures r == 0 <==> IndexOfChar(data, ':', from) == -1
    ensures r == 0 ==> forall k :: from <= k < |data| ==> data[k] != ':'
    ensures r != 0 ==> r - 1 == IndexOfChar(data, ':', from) && forall k :: from <= k < r - 1 ==> data[k] != ':'
  {
    IndexOfChar(data, ':', from) + 1
  }

  /** The command name: the text between the first two quotes after the ':'
      that follows the first `"cmd"`; `None` when there is no `"cmd"`, no
      quote after the ':', or no closing quote. */
  function Command(data: Str): (r: Option<Str>)
    ensures IndexOf(data, CmdKey, 0) == -1 ==> r.None?
    ensures r.Some? ==> NoQuote(r.value) && |r.value| < |data|
  {
    var cmdStart := IndexOf(data, CmdKey, 0);
    if cmdStart == -1 then None
    else
      var quoteStart := IndexOfChar(data, '"', AfterColon(data, cmdStart)) + 1;
      var quoteEnd := IndexOfChar(data, '"', quoteStart);
      if quoteStart == 0 || quoteEnd == -1 then None
      else Some(Substring(data, quoteStart, quoteEnd))
  }

  /** The number after the first occurrence of `key`: from after the next ':'
      up to the next ',' (else '}', else the end), trimmed and read with
      `toInt`; `None` when the key is absent. */
  function Number(data: Str, key: Str): (r: Option<int>)
    ensures r.Some? <==> IndexOf(data, key, 0) != -1
    ensures r.Some? ==> LongMin <= r.value <= LongMax
  {
    var start := IndexOf(data, key, 0);
    if start == -1 then None
    else Some(ToInt(Trim(NumberText(data, AfterColon(data, start)))))
  }

  /** The text of a number starting at `from`: up to the next ',', else the
      next '}', else the end. */
  function NumberText(data: Str, from: nat): Str {
    var comma := IndexOfChar(data, ',', from);
    var end := if comma != -1 then comma else IndexOfChar(data, '}', from);
    Substring(data, from, EndArg(end))
  }

  /** The quoted value after the key found at `start`: between the first
      quote after the next ':' and the quote after it (or the end). */
  function Quoted(data: Str, start: nat): (r: Str)
    ensures |r| <= |data|
    ensures |data| < Word ==> NoQuote(r)
  {
    var quoteStart := IndexOfChar(data, '"', AfterColon(data, start)) + 1;
    var quoteEnd := IndexOfChar(data, '"', quoteStart);
    UpToQuote(data, quoteStart, quoteEnd);
    Substring(data, quoteStart, EndArg(quoteEnd))
  }

  /** The text from `from` up to the next quote (or the end) holds no quote. */
  lemma UpToQuote(data: Str, from: nat, quoteEnd: int)
    requires quoteEnd == IndexOfChar(data, '"', from)
    ensures |data| < Word ==> NoQuote(Substring(data, from, EndArg(quoteEnd)))
  {
    if |data| < Word && from < |data| {
      var hi := if quoteEnd == -1 then |data| else quoteEnd;
      assert Substring(data, from, EndArg(quoteEnd)) == data[from..hi];
    }
  }

  /** `parse`'s decision; `hasMode`/`hasOff` say whether the pointers are set. */
  function LegacyDecide(data: Str, hasMode: bool, hasOff: bool): (r: Action)
    ensures r.SetMode? ==> hasMode && 0 <= r.mode < StringLed.NumModes
    ensures r.SetPower? ==> hasOff
    ensures r.Status? ==> hasMode && hasOff
    ensures r.SetWifi? ==> Contains(data, SsidKey) && Contains(data, PassKey)
    ensures r != Reject ==> Command(data).Some?
  {
    match Command(data)
    case None => Reject
    case Some(command) =>
      if command == "set_mode" then
        match Number(data, LegacyModeKey)
        case None => Reject
        case Some(mode) =>
          if 0 <= mode < StringLed.NumModes && hasMode then SetMode(mode) else Reject
      else if command == "set_power" then
        match Number(data, LegacyStateKey)
        case None => Reject
        case Some(state) => if hasOff then SetPower(state == 0) else Reject
      else if command == "get_status" then
        if hasMode && hasOff then Status else Reject
      else if command == "set_wifi" then
        var ssidStart := IndexOf(data, SsidKey, 0);
        var passStart := IndexOf(data, PassKey, 0);
        if ssidStart == -1 || passStart == -1 then Reject
        else SetWifi(Quoted(data, ssidStart), Quoted(data, passStart))
      else Reject
  }

  /** The settings call an action makes. */
  function LegacyCall(a: Action, now: Millis): Option<LegacySettings.Call> {
    match a
    case SetMode(m) => Some(LegacySettings.Call.SaveLightMode(m, now))
    case SetPower(off) => Some(LegacySettings.Call.SaveSystemState(off))
    case SetWifi(s, p) => Some(LegacySettings.Call.SetWiFiCredentials(s, p))
    case _ => None
  }

  // ---------------------------------------------------------------------------
  // Properties

  /** Every accepted action comes from its exact command name, and a line
      without a readable command is refused. */
  lemma CommandSelects(data: Str, hasMode: bool, hasOff: bool)
    ensures var a := LegacyDecide(data, hasMode, hasOff);
      && (Command(data).None? ==> a == Reject)
      && (!Contains(data, CmdKey) ==> a == Reject)
      && (a.SetMode? ==> Command(data) == Some("set_mode"))
      && (a.SetPower? ==> Command(data) == Some("set_power"))
      && (a.Status? ==> Command(data) == Some("get_status"))
      && (a.SetWifi? ==> Command(data) == Some("set_wifi"))
      && ((Command(data).Some? && Command(data).value !in {"set_mode", "set_power", "get_status", "set_wifi"})
            ==> a == Reject)
  {
    ContainsIndexOf(data, CmdKey);
  }

  /** set_mode: accepted exactly when the value reads as 0..4 and the mode
      pointer is set. */
  lemma LegacySetModeRange(data: Str, hasMode: bool, hasOff: bool)
    requires Command(data) == Some("set_mode")
    ensures var n := Number(data, LegacyModeKey);
      var a := LegacyDecide(data, hasMode, hasOff);
      && (a != Reject <==> n.Some? && 0 <= n.value < StringLed.NumModes && hasMode)
      && (a != Reject ==> a == SetMode(n.value))
  {
  }

  /** set_power: any integer is accepted; the system turns off exactly when
      it reads as 0. */
  lemma LegacySetPowerAnyInteger(data: Str, hasMode: bool, hasOff: bool)
    requires Command(data) == Some("set_power")
    ensures var n := Number(data, LegacyStateKey);
      var a := LegacyDecide(data, hasMode, hasOff);
      && (a != Reject <==> n.Some? && hasOff)
      && (a != Reject ==> a == SetPower(n.value == 0))
  {
  }

  /** get_status succeeds exactly when both pointers are set and persists
      nothing. */
  lemma LegacyGetStatusNeedsPointers(data: Str, hasMode: bool, hasOff: bool, now: Millis)
    requires Command(data) == Some("get_status")
    ensures LegacyDecide(data, hasMode, hasOff) == (if hasMode && hasOff then Status else Reject)
    ensures LegacyCall(LegacyDecide(data, hasMode, hasOff), now).None?
  {
  }

  /** set_wifi needs both the `"ssid"` and the `"pass"` key and nothing else:
      an empty ssid is accepted (the newer parser refuses it). */
  lemma LegacyWifiNeedsBothKeys(data: Str, hasMode: bool, hasOff: bool)
    requires Command(data) == Some("set_wifi")
    ensures var a := LegacyDecide(data, hasMode, hasOff);
      && (a != Reject <==> Contains(data, SsidKey) && Contains(data, PassKey))
      && (a != Reject ==> a.SetWifi?)
  {
    ContainsIndexOf(data, SsidKey);
    ContainsIndexOf(data, PassKey);
  }

  // ---------------------------------------------------------------------------
  // Reading back the lines a client sends

  /** The command of every client line is the word between the quotes that
      follow `"cmd":`. */
  lemma CommandOfLine(s: Str, name: Str, rest: Str)
    requires s == "{" + CmdOpen + name + "\"" + rest && NoQuote(name)
    ensures Command(s) == Some(name)
  {
    var e := 8 + |name|;
    assert |CmdOpen| == 7;
    assert s[..8] == "{" + CmdOpen;
    assert s[1..6] == CmdKey;
    MismatchAt(s, CmdKey, 0, 0);
    IndexOfIs(s, CmdKey, 0, 1);
    assert forall k :: 1 <= k < 6 ==> s[k] != ':';
    assert s[6] == ':' && s[7] == '"';
    assert IndexOfChar(s, ':', 1) == 6;
    assert IndexOfChar(s, '"', 7) == 7;
    forall k | 8 <= k < e ensures s[k] != '"' {
      assert s[k] == name[k - 8];
    }
    assert s[e] == '"';
    assert IndexOfChar(s, '"', 8) == e;
    assert s[8..e] == name;
  }

  /** A number key found at `start`, followed by ':', the digits of `n` and
      the closing brace, reads as `n`. */
  lemma NumberOfLine(s: Str, key: Str, start: nat, n: nat)
    requires n <= LongMax && IndexOf(s, key, 0) == start
    requires start + |key| + 1 + |Decimal(n)| + 1 == |s|
    requires s[start..start + |key|] == key && NoColon(key)
    requires s[start + |key|] == ':'
    requires s[start + |key| + 1..|s| - 1] == Decimal(n) && s[|s| - 1] == '}'
    ensures Number(s, key) == Some(n)
  {
    var from := start + |key| + 1;
    var d := Decimal(n);
    ColonAfterKey(s, key, start);
    assert from + |d| == |s| - 1;
    assert s[from..from + |d|] == d;
    DigitsThenBrace(s, from, n);
    assert NumberText(s, from) == d;
    DigitsTrimmed(n);
  }

  lemma ColonAfterKey(s: Str, key: Str, start: nat)
    requires start + |key| < |s| && s[start..start + |key|] == key && NoColon(key)
    requires s[start + |key|] == ':'
    ensures AfterColon(s, start) == start + |key| + 1
  {
    forall k | start <= k < start + |key| ensures s[k] != ':' {
      assert s[k] == s[start..start + |key|][k - start];
    }
  }

  /** Digits carry no white space. */
  lemma DigitsTrimmed(n: nat)
    ensures Trim(Decimal(n)) == Decimal(n)
  {
    var d := Decimal(n);
    assert IsDigit(d[0]) && IsDigit(d[|d| - 1]);
    TrimStartNoSpace(d);
    TrimEndNoSpace(d);
  }

  predicate NoColon(s: Str) {
    forall k :: 0 <= k < |s| ==> s[k] != ':'
  }

  /** Where the quotes of the fixed start of the set_mode and set_power
      lines are, and what follows them. */
  lemma PrefixQuotes()
    ensures |SetModePrefix| == 25 && |SetPowerPrefix| == 27
    ensures forall k :: 0 <= k < 18 && SetModePrefix[k] == '"' ==> k in {1, 5, 7, 16}
    ensures SetModePrefix[2] == 'c' && SetModePrefix[6] == ':' && SetModePrefix[8] == 's' && SetModePrefix[17] == ','
    ensures forall k :: 0 <= k < 19 && SetPowerPrefix[k] == '"' ==> k in {1, 5, 7, 17}
    ensures SetPowerPrefix[2] == 'c' && SetPowerPrefix[6] == ':' && SetPowerPrefix[8] == 's'
    ensures SetPowerPrefix[9] == 'e' && SetPowerPrefix[18] == ','
  {
  }

  lemma ModeKeyAt(s: Str, d: Str)
    requires s == SetModePrefix + d + "}"
    ensures IndexOf(s, LegacyModeKey, 0) == 18
  {
    PrefixQuotes();
    assert s[..25] == SetModePrefix;
    forall k | 0 <= k < 18 ensures !OccursAt(s, LegacyModeKey, k) {
      assert s[k] == SetModePrefix[k];
      if s[k] == '"' {
        assert s[k + 1] == SetModePrefix[k + 1];
        MismatchAt(s, LegacyModeKey, k, 1);
      } else {
        MismatchAt(s, LegacyModeKey, k, 0);
      }
    }
    assert s[18..24] == LegacyModeKey;
    IndexOfIs(s, LegacyModeKey, 0, 18);
  }

  lemma StateKeyAt(s: Str, d: Str)
    requires s == SetPowerPrefix + d + "}"
    ensures IndexOf(s, LegacyStateKey, 0) == 19
  {
    PrefixQuotes();
    assert s[..27] == SetPowerPrefix;
    forall k | 0 <= k < 19 ensures !OccursAt(s, LegacyStateKey, k) {
      assert s[k] == SetPowerPrefix[k];
      if k == 7 {
        assert s[k + 2] == SetPowerPrefix[k + 2];
        MismatchAt(s, LegacyStateKey, k, 2);
      } else if s[k] == '"' {
        assert s[k + 1] == SetPowerPrefix[k + 1];
        MismatchAt(s, LegacyStateKey, k, 1);
      } else {
        MismatchAt(s, LegacyStateKey, k, 0);
      }
    }
    assert s[19..26] == LegacyStateKey;
    IndexOfIs(s, LegacyStateKey, 0, 19);
  }

  /** A set_mode line reads back as its mode, as in the newer parser. */
  lemma LegacySetModeLineRoundTrip(mode: nat, hasMode: bool, hasOff: bool)
    requires mode <= LongMax
    ensures LegacyDecide(SetModeLine(mode), hasMode, hasOff)
      == (if mode < StringLed.NumModes && hasMode then SetMode(mode) else Reject)
  {
    ModeLineRead(mode);
  }

  lemma ModeLineRead(mode: nat)
    requires mode <= LongMax
    ensures Command(SetModeLine(mode)) == Some("set_mode")
    ensures Number(SetModeLine(mode), LegacyModeKey) == Some(mode)
  {
    ModeLineCommand(mode);
    ModeLineNumber(mode);
  }

  lemma ModeLineCommand(mode: nat)
    ensures Command(SetModeLine(mode)) == Some("set_mode")
  {
    var s := SetModeLine(mode);
    var d := Decimal(mode);
    assert s == "{" + CmdOpen + "set_mode" + "\"" + ("," + ModeKey + d + "}");
    CommandOfLine(s, "set_mode", "," + ModeKey + d + "}");
  }

  lemma ModeLineNumber(mode: nat)
    requires mode <= LongMax
    ensures Number(SetModeLine(mode), LegacyModeKey) == Some(mode)
  {
    var s := SetModeLine(mode);
    var d := Decimal(mode);
    ModeKeyAt(s, d);
    assert s[18..24] == LegacyModeKey;
    NumberOfLine(s, LegacyModeKey, 18, mode);
  }

  /** A set_power line reads back as its state. */
  lemma LegacySetPowerLineRoundTrip(state: nat, hasMode: bool, hasOff: bool)
    requires state <= LongMax
    ensures LegacyDecide(SetPowerLine(state), hasMode, hasOff)
      == (if hasOff then SetPower(state == 0) else Reject)
  {
    PowerLineRead(state);
  }

  lemma PowerLineRead(state: nat)
    requires state <= LongMax
    ensures Command(SetPowerLine(state)) == Some("set_power")
    ensures Number(SetPowerLine(state), LegacyStateKey) == Some(state)
  {
    PowerLineCommand(state);
    PowerLineNumber(state);
  }

  lemma PowerLineCommand(state: nat)
    ensures Command(SetPowerLine(state)) == Some("set_power")
  {
    var s := SetPowerLine(state);
    var d := Decimal(state);
    assert s == "{" + CmdOpen + "set_power" + "\"" + ("," + StateKey + d + "}");
    CommandOfLine(s, "set_power", "," + StateKey + d + "}");
  }

  lemma PowerLineNumber(state: nat)
    requires state <= LongMax
    ensures Number(SetPowerLine(state), LegacyStateKey) == Some(state)
  {
    var s := SetPowerLine(state);
    var d := Decimal(state);
    StateKeyAt(s, d);
    assert s[19..26] == LegacyStateKey;
    NumberOfLine(s, LegacyStateKey, 19, state);
  }

  /** A get_status line (with anything after it) is recognised. */
  lemma LegacyGetStatusLineRoundTrip(post: Str, hasMode: bool, hasOff: bool)
    ensures LegacyDecide(GetStatusLine + post, hasMode, hasOff) == (if hasMode && hasOff then Status else Reject)
  {
    var s := GetStatusLine + post;
    assert s == "{" + CmdOpen + "get_status" + "\"" + ("}" + post);
    CommandOfLine(s, "get_status", "}" + post);
  }

  /** A quoted value after the key at `start` whose ':' is at `colon` and is
      followed directly by the opening quote reads back. */
  lemma QuotedAt(s: Str, start: nat, colon: nat, value: Str)
    requires start <= colon && colon + 2 + |value| < |s|
    requires forall k :: start <= k < colon ==> s[k] != ':'
    requires s[colon] == ':' && s[colon + 1] == '"' && s[colon + 2 + |value|] == '"'
    requires s[colon + 2..colon + 2 + |value|] == value && NoQuote(value)
    ensures Quoted(s, start) == value
  {
    var e := colon + 2 + |value|;
    assert AfterColon(s, start) == colon + 1;
    assert IndexOfChar(s, '"', colon + 1) == colon + 1;
    forall k | colon + 2 <= k < e ensures s[k] != '"' {
      assert s[k] == s[colon + 2..e][k - colon - 2];
    }
    assert IndexOfChar(s, '"', colon + 2) == e;
  }

  /** A set_wifi line whose values hold no quote reads back as its
      credentials, an empty ssid included. */
  lemma LegacyWifiLineRoundTrip(ssid: Str, password: Str, hasMode: bool, hasOff: bool)
    requires NoQuote(ssid) && NoQuote(password)
    ensures LegacyDecide(SetWifiLine(ssid, password), hasMode, hasOff) == SetWifi(ssid, password)
  {
    WifiLineLegacyCommand(ssid, password);
    WifiLineLegacySsid(ssid, password);
    WifiLineLegacyPass(ssid, password);
  }

  lemma WifiLineLegacyCommand(ssid: Str, password: Str)
    ensures Command(SetWifiLine(ssid, password)) == Some("set_wifi")
  {
    var s := SetWifiLine(ssid, password);
    var rest := "," + FieldKey("ssid") + ssid + WifiMid + password + "\"}";
    assert s == "{" + CmdOpen + "set_wifi" + "\"" + rest;
    CommandOfLine(s, "set_wifi", rest);
  }

  lemma WifiLineLegacySsid(ssid: Str, password: Str)
    requires NoQuote(ssid)
    ensures IndexOf(SetWifiLine(ssid, password), SsidKey, 0) == 18
    ensures Quoted(SetWifiLine(ssid, password), 18) == ssid
  {
    var s := SetWifiLine(ssid, password);
    var a := 26 + |ssid|;
    WifiQuotes();
    WifiLayout(ssid, password);
    forall k | 0 <= k < 18 ensures !OccursAt(s, SsidKey, k) {
      if s[k] != '"' {
        MismatchAt(s, SsidKey, k, 0);
      } else if k == 7 {
        MismatchAt(s, SsidKey, k, 2);
      } else {
        MismatchAt(s, SsidKey, k, 1);
      }
    }
    assert s[..26] == WifiHead;
    assert s[18..24] == SsidKey;
    IndexOfIs(s, SsidKey, 0, 18);
    assert s[26..a] == ssid;
    QuotedAt(s, 18, 24, ssid);
  }

  lemma WifiLineLegacyPass(ssid: Str, password: Str)
    requires NoQuote(ssid) && NoQuote(password)
    ensures IndexOf(SetWifiLine(ssid, password), PassKey, 0) != -1
    ensures Quoted(SetWifiLine(ssid, password), IndexOf(SetWifiLine(ssid, password), PassKey, 0)) == password
  {
    PassKeyFound(ssid, password);
    if IndexOf(SetWifiLine(ssid, password), PassKey, 0) == 25 {
      PassValueFromSsidQuote(password);
    } else {
      PassValueFromKey(ssid, password);
    }
  }

  /** Read from the password's own key, the value is the password. */
  lemma PassValueFromKey(ssid: Str, password: Str)
    requires NoQuote(ssid) && NoQuote(password)
    ensures Quoted(SetWifiLine(ssid, password), 28 + |ssid|) == password
  {
    var s := SetWifiLine(ssid, password);
    var a := 26 + |ssid|;
    WifiQuotes();
    WifiLayout(ssid, password);
    assert s[a + 10..a + 10 + |password|] == password;
    assert forall k :: a + 2 <= k < a + 8 ==> s[k] != ':';
    QuotedAt(s, a + 2, a + 8, password);
  }

  /** Read from the ssid's opening quote when the ssid is "pass", the value
      is still the password: the first ':' after it is the password key's. */
  lemma PassValueFromSsidQuote(password: Str)
    requires NoQuote(password)
    ensures Quoted(SetWifiLine("pass", password), 25) == password
  {
    var s := SetWifiLine("pass", password);
    var a := 30;
    WifiQuotes();
    WifiLayout("pass", password);
    assert s[a + 10..a + 10 + |password|] == password;
    assert forall k :: 25 <= k < a + 8 ==> s[k] != ':';
    QuotedAt(s, 25, a + 8, password);
  }

  /** `"pass"` is found at the password's key, or at the ssid's opening
      quote when the ssid is "pass" itself. */
  lemma PassKeyFound(ssid: Str, password: Str)
    requires NoQuote(ssid)
    ensures var p := IndexOf(SetWifiLine(ssid, password), PassKey, 0);
      p == 28 + |ssid| || (p == 25 && ssid == "pass")
  {
    var s := SetWifiLine(ssid, password);
    var a := 26 + |ssid|;
    WifiQuotes();
    WifiLayout(ssid, password);
    forall k | 0 <= k < 25 ensures !OccursAt(s, PassKey, k) {
      if s[k] != '"' {
        MismatchAt(s, PassKey, k, 0);
      } else {
        MismatchAt(s, PassKey, k, 1);
      }
    }
    forall k | 26 <= k < a + 2 ensures !OccursAt(s, PassKey, k) {
      if k < a + 1 && k != a {
        MismatchAt(s, PassKey, k, 0);
      } else {
        MismatchAt(s, PassKey, k, 1);
      }
    }
    assert s[a + 2..a + 8] == WifiMid[2..8] == PassKey;
    if ssid == "pass" {
      assert s[25..31] == PassKey;
      IndexOfIs(s, PassKey, 0, 25);
    } else {
      PassKeyNotInSsid(s, ssid, password);
      IndexOfIs(s, PassKey, 0, a + 2);
    }
  }

  /** Only the ssid "pass" makes `"pass"` occur at the ssid's opening quote. */
  lemma PassKeyNotInSsid(s: Str, ssid: Str, password: Str)
    requires s == SetWifiLine(ssid, password) && NoQuote(ssid) && ssid != "pass"
    ensures !OccursAt(s, PassKey, 25)
  {
    var n := |ssid|;
    WifiLayout(ssid, password);
    WifiQuotes();
    if n < 4 {
      MismatchAt(s, PassKey, 25, 1 + n);
    } else if n > 4 {
      MismatchAt(s, PassKey, 25, 5);
    } else {
      var j :| 0 <= j < 4 && ssid[j] != "pass"[j];
      MismatchAt(s, PassKey, 25, 1 + j);
    }
  }

  /** The two revisions differ on an empty ssid: the older one stores empty
      credentials, the newer one refuses the line. */
  lemma EmptySsidDiffers(password: Str, hasMode: bool, hasOff: bool)
    requires NoQuote(password)
    ensures LegacyDecide(SetWifiLine([], password), hasMode, hasOff) == SetWifi([], password)
    ensures Decide(SetWifiLine([], password), hasMode, hasOff) == Reject
  {
    LegacyWifiLineRoundTrip([], password, hasMode, hasOff);
    assert [] + SetWifiLine([], password) + [] == SetWifiLine([], password);
    SetWifiLineRoundTrip([], [], password, [], hasMode, hasOff);
  }

  // ---------------------------------------------------------------------------

  /** The older `parse` with the state it writes through its pointers:
      `mode` and `isSystemOff` are the pointed-to values, `None` for a null
      pointer. */
  method LegacyParse(data: Str, mode: Option<int>, isSystemOff: Option<bool>, store: LegacySettings.Store, now: Millis)
    returns (ok: bool, mode': Option<int>, isSystemOff': Option<bool>)
    modifies store
    ensures var a := LegacyDecide(data, mode.Some?, isSystemOff.Some?);
      && ok == (a != Reject)
      && mode' == (if a.SetMode? then Some(a.mode) else mode)
      && isSystemOff' == (if a.SetPower? then Some(a.off) else isSystemOff)
      && store.State() == (match LegacyCall(a, now)
                           case Some(call) => LegacySettings.Apply(old(store.State()), call)
                           case None => old(store.State()))
  {
    var a := LegacyDecide(data, mode.Some?, isSystemOff.Some?);
    ok, mode', isSystemOff' := false, mode, isSystemOff;
    match a {
      case SetMode(m) =>
        mode' := Some(m);
        store.SaveLightMode(m, now);
        ok := true;
      case SetPower(off) =>
        isSystemOff' := Some(off);
        store.SaveSystemState(off);
        ok := true;
      case Status =>
        ok := true;
      case SetWifi(s, p) =>
        store.SetWiFiCredentials(s, p);
        ok := true;
      case Reject =>
    }
  }
}
