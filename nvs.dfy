/** The ESP32 `Preferences` library over NVS flash: one key/value map per
    namespace. A `get` with a missing key, or with a key stored under another
    type, yields the caller's default. */
module Nvs {

  datatype Value = IntValue(i: int) | BoolValue(b: bool) | StringValue(s: seq<char>)

  type Namespace = map<seq<char>, Value>

  function GetInt(ns: Namespace, key: seq<char>, default: int): (r: int)
  {
    if key in ns && ns[key].IntValue? then ns[key].i else default
  }

  function GetBool(ns: Namespace, key: seq<char>, default: bool): (r: bool)
  {
    if key in ns && ns[key].BoolValue? then ns[key].b else default
  }

  function GetString(ns: Namespace, key: seq<char>, default: seq<char>): (r: seq<char>)
  {
    if key in ns && ns[key].StringValue? then ns[key].s else default
  }
}
