/** The subset of the Arduino `String` class (and the C library under it) that
    the firmware's parsers and formatters use, as functions over `seq<char>`.
    Arduino strings are built from C strings, so they never hold a NUL
    character; `strstr`/`strchr` are then exactly a search of the sequence. */
module ArduinoString {

  type Str = seq<char>

  /** 2^32: `unsigned int` and `unsigned long` are 32 bits wide on the ESP32. */
  const Word: int := 0x1_0000_0000
  const LongMax: int := 0x7FFF_FFFF
  const LongMin: int := -0x8000_0000

  /** The value a signed `int` takes when it is passed as `unsigned int`
      (so `-1` becomes 4294967295). */
  function ToUnsigned(i: int): (u: nat)
    requires LongMin <= i <= LongMax
    ensures u < Word
    ensures i >= 0 ==> u == i
    ensures i < 0 ==> u == i + Word
  {
    if i < 0 then i + Word else i
  }

  // ---------------------------------------------------------------------------
  // indexOf

  predicate OccursAt(s: Str, pat: Str, k: int) {
    0 <= k && k + |pat| <= |s| && s[k..k + |pat|] == pat
  }

  /** `s.indexOf(pat, from)`: the first position at or after `from` where `pat`
      occurs, or -1. Like the Arduino code, a start at or past the end gives -1. */
  function IndexOf(s: Str, pat: Str, from: nat): (r: int)
    ensures r == -1 || (from <= r < |s| && OccursAt(s, pat, r))
    ensures r != -1 ==> forall k :: from <= k < r ==> !OccursAt(s, pat, k)
    ensures r == -1 ==> forall k :: from <= k < |s| ==> !OccursAt(s, pat, k)
    decreases |s| - from
  {
    if from >= |s| then -1
    else if OccursAt(s, pat, from) then from
    else IndexOf(s, pat, from + 1)
  }

  /** `s.indexOf(c, from)` for a single character. */
  function IndexOfChar(s: Str, c: char, from: nat): (r: int)
    ensures r == -1 || (from <= r < |s| && s[r] == c)
    ensures r != -1 ==> forall k :: from <= k < r ==> s[k] != c
    ensures r == -1 ==> forall k :: from <= k < |s| ==> s[k] != c
  {
    var r := IndexOf(s, [c], from);
    assert r != -1 ==> s[r..r + 1] == [c];
    assert forall k :: 0 <= k < |s| ==> (OccursAt(s, [c], k) <==> s[k] == c) by {
      forall k | 0 <= k < |s| ensures OccursAt(s, [c], k) <==> s[k] == c {
        if s[k] == c { assert s[k..k + 1] == [c]; }
      }
    }
    r
  }

  /** `pat` occurs somewhere in `s` (`s.indexOf(pat) != -1`). */
  predicate Contains(s: Str, pat: Str) {
    exists k :: 0 <= k <= |s| && OccursAt(s, pat, k)
  }

  lemma ContainsIndexOf(s: Str, pat: Str)
    requires |pat| > 0
    ensures Contains(s, pat) <==> IndexOf(s, pat, 0) != -1
  {
    if Contains(s, pat) {
      var k :| 0 <= k <= |s| && OccursAt(s, pat, k);
      assert k < |s|;
    }
  }

  /** An occurrence at `k` with none in `[from, k)` is the one `IndexOf` finds. */
  lemma IndexOfIs(s: Str, pat: Str, from: nat, k: nat)
    requires from <= k < |s| && OccursAt(s, pat, k)
    requires forall j :: from <= j < k ==> !OccursAt(s, pat, j)
    ensures IndexOf(s, pat, from) == k
  {
  }

  /** One differing character rules an occurrence out. */
  lemma MismatchAt(s: Str, pat: Str, k: nat, j: nat)
    requires j < |pat| && k + j < |s| && s[k + j] != pat[j]
    ensures !OccursAt(s, pat, k)
  {
    if k + |pat| <= |s| {
      assert s[k..k + |pat|][j] == s[k + j];
    }
  }

  /** A pattern cannot start where its first character is absent. */
  lemma NoStartIn(s: Str, pat: Str, lo: nat, hi: nat)
    requires |pat| > 0 && hi <= |s|
    requires forall k :: lo <= k < hi ==> s[k] != pat[0]
    ensures forall k :: lo <= k < hi ==> !OccursAt(s, pat, k)
  {
    forall k | lo <= k < hi {
      MismatchAt(s, pat, k, 0);
    }
  }

  // ---------------------------------------------------------------------------
  // substring

  /** `s.substring(left, right)` with the arguments already converted to
      `unsigned int`: the bounds are swapped when `left > right`, a left bound
      at or past the end gives "", and the right bound is clamped to the end. */
  function Substring(s: Str, left: nat, right: nat): (r: Str)
    ensures |r| <= |s|
    ensures left <= right <= |s| ==> r == s[left..right]
    ensures right < left <= |s| ==> r == s[right..left]
    ensures left <= |s| <= right ==> r == s[left..]
    ensures left >= |s| && right >= |s| ==> r == []
  {
    var lo := if left <= right then left else right;
    var hi := if left <= right then right else left;
    if lo >= |s| then [] else s[lo..if hi <= |s| then hi else |s|]
  }

  /** `s.substring(left)`: everything from `left` on. */
  function SubstringFrom(s: Str, left: nat): (r: Str)
    ensures left <= |s| ==> r == s[left..]
    ensures left >= |s| ==> r == []
  {
    if left >= |s| then [] else s[left..]
  }

  // ---------------------------------------------------------------------------
  // trim, startsWith

  /** C `isspace` in the "C" locale. */
  predicate IsSpace(c: char) {
    c == ' ' || c == '\t' || c == '\n' || c == '\U{000B}' || c == '\U{000C}' || c == '\r'
  }

  function TrimStart(s: Str): (r: Str)
    ensures |r| <= |s| && r == s[|s| - |r|..]
    ensures forall k :: 0 <= k < |s| - |r| ==> IsSpace(s[k])
    ensures |r| > 0 ==> !IsSpace(r[0])
  {
    if |s| > 0 && IsSpace(s[0]) then TrimStart(s[1..]) else s
  }

  function TrimEnd(s: Str): (r: Str)
    ensures |r| <= |s| && r == s[..|r|]
    ensures forall k :: |r| <= k < |s| ==> IsSpace(s[k])
    ensures |r| > 0 ==> !IsSpace(r[|r| - 1])
  {
    if |s| > 0 && IsSpace(s[|s| - 1]) then TrimEnd(s[..|s| - 1]) else s
  }

  /** `s.trim()`: white space removed from both ends. */
  function Trim(s: Str): (r: Str) {
    TrimEnd(TrimStart(s))
  }

  /** What `Trim` keeps is a slice of the input with no white space at either
      end, and everything it drops is white space. */
  lemma TrimSlice(s: Str)
    ensures exists i, j ::
              && 0 <= i <= j <= |s| && Trim(s) == s[i..j]
              && (forall k :: 0 <= k < i ==> IsSpace(s[k]))
              && (forall k :: j <= k < |s| ==> IsSpace(s[k]))
    ensures |Trim(s)| > 0 ==> !IsSpace(Trim(s)[0]) && !IsSpace(Trim(s)[|Trim(s)| - 1])
  {
    var t := TrimStart(s);
    var i := |s| - |t|;
    var j := i + |Trim(s)|;
    assert Trim(s) == s[i..j];
    if |Trim(s)| > 0 {
      assert Trim(s)[0] == t[0];
    }
  }

  lemma {:induction false} TrimStartNoSpace(s: Str)
    requires |s| == 0 || !IsSpace(s[0])
    ensures TrimStart(s) == s
  {
  }

  lemma {:induction false} TrimEndNoSpace(s: Str)
    requires |s| == 0 || !IsSpace(s[|s| - 1])
    ensures TrimEnd(s) == s
  {
  }

  /** Trimming twice is trimming once. */
  lemma TrimIdempotent(s: Str)
    ensures Trim(Trim(s)) == Trim(s)
  {
    var t := Trim(s);
    TrimSlice(s);
    TrimStartNoSpace(t);
    TrimEndNoSpace(t);
  }

  /** White space around a text with no white space at its ends is exactly
      what `trim` removes. */
  lemma TrimPadded(pre: Str, t: Str, post: Str)
    requires forall k :: 0 <= k < |pre| ==> IsSpace(pre[k])
    requires forall k :: 0 <= k < |post| ==> IsSpace(post[k])
    requires |t| > 0 && !IsSpace(t[0]) && !IsSpace(t[|t| - 1])
    ensures Trim(pre + t + post) == t
  {
    var s := pre + t + post;
    TrimStartSkips(pre, t + post);
    assert s == pre + (t + post);
    TrimEndSkips(t, post);
  }

  lemma {:induction false} TrimStartSkips(pre: Str, rest: Str)
    requires forall k :: 0 <= k < |pre| ==> IsSpace(pre[k])
    requires |rest| > 0 && !IsSpace(rest[0])
    ensures TrimStart(pre + rest) == rest
  {
    if pre != [] {
      assert (pre + rest)[1..] == pre[1..] + rest;
      TrimStartSkips(pre[1..], rest);
    } else {
      assert pre + rest == rest;
    }
  }

  lemma {:induction false} TrimEndSkips(t: Str, post: Str)
    requires forall k :: 0 <= k < |post| ==> IsSpace(post[k])
    requires |t| > 0 && !IsSpace(t[|t| - 1])
    ensures TrimEnd(t + post) == t
    decreases |post|
  {
    if post == [] {
      assert t + post == t;
      TrimEndNoSpace(t);
    } else {
      var s := t + post;
      assert s[..|s| - 1] == t + post[..|post| - 1];
      TrimEndSkips(t, post[..|post| - 1]);
    }
  }

  /** `String(buf)` of a character buffer: everything before the first NUL. */
  function CString(s: Str): (r: Str)
    ensures |r| <= |s| && r == s[..|r|]
    ensures forall k :: 0 <= k < |r| ==> r[k] != '\0'
    ensures |r| < |s| ==> s[|r|] == '\0'
  {
    if s == [] || s[0] == '\0' then [] else [s[0]] + CString(s[1..])
  }

  /** `s.startsWith(p)`. */
  predicate StartsWith(s: Str, p: Str) {
    |p| <= |s| && s[..|p|] == p
  }

  // ---------------------------------------------------------------------------
  // toInt (atol) and decimal formatting

  predicate IsDigit(c: char) {
    '0' <= c <= '9'
  }

  predicate AllDigits(s: Str) {
    forall k :: 0 <= k < |s| ==> IsDigit(s[k])
  }

  function DigitValue(c: char): (d: nat)
    requires IsDigit(c)
    ensures d < 10
  {
    (c as int) - ('0' as int)
  }

  function DigitChar(d: nat): (c: char)
    requires d < 10
    ensures IsDigit(c) && DigitValue(c) == d
  {
    (('0' as int) + d) as char
  }

  /** The longest prefix of `s` made of decimal digits. */
  function LeadingDigits(s: Str): (r: Str)
    ensures |r| <= |s| && r == s[..|r|] && AllDigits(r)
    ensures |r| < |s| ==> !IsDigit(s[|r|])
  {
    if |s| > 0 && IsDigit(s[0]) then [s[0]] + LeadingDigits(s[1..]) else []
  }

  /** The number a string of decimal digits spells, most significant first. */
  function DigitsValue(d: Str): nat
    requires AllDigits(d)
  {
    if |d| == 0 then 0 else DigitsValue(d[..|d| - 1]) * 10 + DigitValue(d[|d| - 1])
  }

  /** newlib's `strtol` clamps an out-of-range result to LONG_MIN/LONG_MAX. */
  function SaturateLong(x: int): (r: int)
    ensures LongMin <= r <= LongMax
    ensures LongMin <= x <= LongMax ==> r == x
    ensures r == 0 <==> x == 0
  {
    if x < LongMin then LongMin else if x > LongMax then LongMax else x
  }

  /** `s.toInt()`, that is `atol(s)`: leading white space, an optional sign,
      then as many digits as there are; no digit gives 0. */
  function ToInt(s: Str): (r: int)
    ensures LongMin <= r <= LongMax
    ensures |s| == 0 || (!IsSpace(s[0]) && s[0] != '-' && s[0] != '+' && !IsDigit(s[0])) ==> r == 0
    ensures |s| > 0 && IsDigit(s[0]) ==> r >= 0
  {
    var t := TrimStart(s);
    var signed := |t| > 0 && (t[0] == '-' || t[0] == '+');
    var body := if signed then t[1..] else t;
    var v: int := DigitsValue(LeadingDigits(body));
    SaturateLong(if signed && t[0] == '-' then -v else v)
  }

  /** `String(n, 10)` for an unsigned `n`: decimal digits, no leading zero. */
  function Decimal(n: nat): (r: Str)
    ensures |r| > 0 && AllDigits(r)
    ensures |r| > 1 ==> r[0] != '0'
  {
    if n < 10 then [DigitChar(n)] else Decimal(n / 10) + [DigitChar(n % 10)]
  }

  lemma {:induction false} DecimalValue(n: nat)
    ensures DigitsValue(Decimal(n)) == n
  {
    if n >= 10 {
      DecimalValue(n / 10);
      var d := Decimal(n);
      assert d[..|d| - 1] == Decimal(n / 10);
    }
  }

  lemma {:induction false} LeadingDigitsOfDigits(s: Str, rest: Str)
    requires AllDigits(s)
    requires |rest| == 0 || !IsDigit(rest[0])
    ensures LeadingDigits(s + rest) == s
  {
    if |s| > 0 {
      assert (s + rest)[1..] == s[1..] + rest;
      LeadingDigitsOfDigits(s[1..], rest);
    } else {
      assert s + rest == rest;
    }
  }

  /** `toInt` reads back what `String(n, 10)` wrote, even when a non-digit
      follows it. */
  lemma ToIntDecimal(n: nat, rest: Str)
    requires n <= LongMax
    requires |rest| == 0 || !IsDigit(rest[0])
    ensures ToInt(Decimal(n) + rest) == n
  {
    var s := Decimal(n) + rest;
    assert s[0] == Decimal(n)[0];
    TrimStartNoSpace(s);
    LeadingDigitsOfDigits(Decimal(n), rest);
    DecimalValue(n);
  }

  /** A string with no digit after its blanks and optional sign reads as 0. */
  lemma ToIntNoDigits(s: Str)
    requires var t := TrimStart(s);
             var body := if |t| > 0 && (t[0] == '-' || t[0] == '+') then t[1..] else t;
             |body| == 0 || !IsDigit(body[0])
    ensures ToInt(s) == 0
  {
  }

  // ---------------------------------------------------------------------------
  // Hexadecimal formatting (`%02X`)

  function HexDigit(d: nat): (c: char)
    requires d < 16
  {
    if d < 10 then DigitChar(d) else (('A' as int) + d - 10) as char
  }

  /** The inverse of `HexDigit` on upper-case hexadecimal digits. */
  function HexValue(c: char): (d: int)
    ensures -1 <= d < 16
  {
    if '0' <= c <= '9' then (c as int) - ('0' as int)
    else if 'A' <= c <= 'F' then (c as int) - ('A' as int) + 10
    else -1
  }

  lemma HexDigitValue(d: nat)
    requires d < 16
    ensures HexValue(HexDigit(d)) == d
  {
  }

  /** `%02X` of a byte: two upper-case hexadecimal digits. */
  function Hex2(b: nat): (r: Str)
    requires b < 256
    ensures |r| == 2 && HexValue(r[0]) * 16 + HexValue(r[1]) == b
    ensures forall k :: 0 <= k < 2 ==> HexValue(r[k]) >= 0 && r[k] != ':'
  {
    HexDigitValue(b / 16);
    HexDigitValue(b % 16);
    [HexDigit(b / 16), HexDigit(b % 16)]
  }
}
