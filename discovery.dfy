/** The discovery descriptor both UDP responders send back to a handshake:
    a one-line JSON object naming the device's address, type, name,
    MAC-style id and firmware version. The id and the name are derived from
    the 64-bit factory chip id; the address, type and version come from the
    network stack and the build and are parameters here. */
module Discovery {
  import opened ArduinoString

  const ChipIdBound: nat := 0x1_0000_0000_0000_0000

  function Pow256(n: nat): (r: nat)
    ensures r >= 1
  {
    if n == 0 then 1 else 256 * Pow256(n - 1)
  }

  /** `n` bytes of `x`, least significant first, each as `%02X`, joined by ':'. */
  function HexBytes(x: nat, n: nat): (r: Str)
    requires n >= 1
    ensures |r| == 3 * n - 1
    decreases n
  {
    Hex2(x % 256) + (if n == 1 then [] else [':'] + HexBytes(x / 256, n - 1))
  }

  /** The `device_id`: the low six bytes of the chip id, least significant
      first (`chipId >> 0`, `>> 8`, … `>> 40`, each cut to a byte). */
  function DeviceId(chipId: nat): (r: Str)
    requires chipId < ChipIdBound
    ensures |r| == 17
  {
    HexBytes(chipId, 6)
  }

  /** Reading `n` colon-separated hexadecimal bytes back, least significant
      first; the reference the id format is checked against. */
  function ParseHexBytes(s: Str, n: nat): int
    requires n >= 1 && |s| == 3 * n - 1
    decreases n
  {
    (16 * HexValue(s[0]) + HexValue(s[1]))
    + (if n == 1 then 0 else 256 * ParseHexBytes(s[3..], n - 1))
  }

  lemma ModSplit(x: nat, p: nat)
    requires p >= 1
    ensures x % (256 * p) == x % 256 + 256 * ((x / 256) % p)
  {
    var q, r := x / 256, x % 256;
    var a, b := q / p, q % p;
    assert x == 256 * q + r;
    assert q == p * a + b;
    assert x == (256 * p) * a + (256 * b + r) by {
      calc {
        x;
        256 * q + r;
        256 * (p * a + b) + r;
        (256 * p) * a + (256 * b + r);
      }
    }
    assert 0 <= 256 * b + r < 256 * p;
    DivModUnique(x, 256 * p, a, 256 * b + r);
  }

  lemma DivModUnique(x: nat, d: nat, q: nat, r: nat)
    requires d >= 1 && 0 <= r < d && x == d * q + r
    ensures x % d == r
  {
    var q', r' := x / d, x % d;
    assert x == d * q' + r';
    if q' < q {
      assert d * q >= d * (q' + 1) by { MulMono(d, q' + 1, q); }
      assert false;
    } else if q' > q {
      assert d * q' >= d * (q + 1) by { MulMono(d, q + 1, q'); }
      assert false;
    }
  }

  lemma MulMono(d: nat, a: nat, b: nat)
    requires a <= b
    ensures d * a <= d * b
  {
  }

  /** The id reads back as the chip id's low `n` bytes. */
  lemma {:induction false} HexBytesRoundTrip(x: nat, n: nat)
    requires n >= 1
    ensures ParseHexBytes(HexBytes(x, n), n) == x % Pow256(n)
    decreases n
  {
    var s := HexBytes(x, n);
    assert s[..2] == Hex2(x % 256);
    if n > 1 {
      assert s[3..] == HexBytes(x / 256, n - 1);
      HexBytesRoundTrip(x / 256, n - 1);
      ModSplit(x, Pow256(n - 1));
    }
  }

  /** `device_id` is 17 characters, separated by ':' at every third place,
      and determines the low 48 bits of the chip id: two chips with equal
      low 48 bits get the same id, and the id reads back to those bits. */
  lemma DeviceIdRoundTrip(chipId: nat)
    requires chipId < ChipIdBound
    ensures ParseHexBytes(DeviceId(chipId), 6) == chipId % 0x1_0000_0000_0000
    ensures forall k :: 0 <= k < 5 ==> DeviceId(chipId)[3 * k + 2] == ':'
  {
    HexBytesRoundTrip(chipId, 6);
    assert Pow256(6) == 0x1_0000_0000_0000;
    var s := DeviceId(chipId);
    forall k | 0 <= k < 5
      ensures s[3 * k + 2] == ':'
    {
      SeparatorsAt(chipId, 6, k);
    }
  }

  lemma {:induction false} SeparatorsAt(x: nat, n: nat, k: nat)
    requires n >= 1 && k < n - 1
    ensures HexBytes(x, n)[3 * k + 2] == ':'
    decreases n
  {
    if k > 0 {
      SeparatorsAt(x / 256, n - 1, k - 1);
      assert HexBytes(x, n)[3..] == HexBytes(x / 256, n - 1);
    }
  }

  const NamePrefix: Str := "Device-"

  /** The device name: "Device-" and the low 32 bits of the chip id modulo
      10000, in decimal. */
  function DeviceName(chipId: nat): (r: Str)
    requires chipId < ChipIdBound
    ensures |r| > |NamePrefix| && r[..|NamePrefix|] == NamePrefix && AllDigits(r[|NamePrefix|..])
  {
    NamePrefix + Decimal((chipId % 0x1_0000_0000) % 10000)
  }

  /** The name's number reads back (with `toInt`) as the chip id's low 32
      bits modulo 10000. */
  lemma DeviceNameRoundTrip(chipId: nat)
    requires chipId < ChipIdBound
    ensures StartsWith(DeviceName(chipId), NamePrefix)
    ensures ToInt(DeviceName(chipId)[|NamePrefix|..]) == (chipId % 0x1_0000_0000) % 10000
  {
    var n := (chipId % 0x1_0000_0000) % 10000;
    assert DeviceName(chipId)[|NamePrefix|..] == Decimal(n) + [];
    ToIntDecimal(n, []);
  }

  /** `"key":"value"`. */
  function Field(key: Str, value: Str): Str {
    "\"" + key + "\":\"" + value + "\""
  }

  /** The descriptor `prepareResponse` builds, its five fields in this order:
      ip, type, name, device_id, app_version. */
  function Descriptor(chipId: nat, ip: Str, deviceType: Str, version: Str): (r: Str)
    requires chipId < ChipIdBound
    ensures |r| >= 2 && r[0] == '{' && r[|r| - 1] == '}'
  {
    "{" + Field("ip", ip) + "," + Field("type", deviceType) + ","
    + Field("name", DeviceName(chipId)) + "," + Field("device_id", DeviceId(chipId)) + ","
    + Field("app_version", version) + "}"
  }

  /** The descriptor begins with '{' and ends with '}', so trimming it
      changes nothing. */
  lemma DescriptorTrimmed(chipId: nat, ip: Str, deviceType: Str, version: Str)
    requires chipId < ChipIdBound
    ensures Trim(Descriptor(chipId, ip, deviceType, version)) == Descriptor(chipId, ip, deviceType, version)
  {
    var d := Descriptor(chipId, ip, deviceType, version);
    TrimStartNoSpace(d);
    TrimEndNoSpace(d);
  }
}
