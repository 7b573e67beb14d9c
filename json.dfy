/** JSON values as they come out of the `answers_json` column, the host built-ins the
    client code calls on them, and JavaScript's `??` and `Number(...)`. */
module Json {

  /** What `Number(...)` returns: a number, or NaN. Infinities are not distinguished. */
  datatype Number = NaN | Finite(r: real)

  /** A JSON value. Object entries are listed in `Object.entries` enumeration order. */
  datatype Value =
    | JNull
    | JNumber(n: real)
    | JString(s: string)
    | JBool(b: bool)
    | JObject(entries: seq<(string, Value)>)

  /** The host built-ins the core calls and whose tables are outside the model:
      - `decompose`: `String.prototype.normalize("NFD")`, one character at a time;
      - `lower`: `String.prototype.toLowerCase`, one character at a time;
      - `parseNumber`: `Number(s)` for a string `s`;
      - `localeDate`: `new Date(t).toLocaleDateString()` for a timestamp `t`. */
  datatype Host = Host(
    decompose: char -> seq<char>,
    lower: char -> char,
    parseNumber: string -> Number,
    localeDate: int -> string)

  /** `Number(v)`. Only text (through the host's parser) and objects can give NaN; there is
      no NaN guard, so NaN is passed on to the caller. */
  function ToNumber(h: Host, v: Value): (r: Number)
    ensures v.JString? ==> r == h.parseNumber(v.s)
    ensures v.JObject? ==> r == NaN
    ensures !v.JString? && !v.JObject? ==> r.Finite?
  {
    match v
    case JNull => Finite(0.0)
    case JNumber(n) => Finite(n)
    case JString(s) => h.parseNumber(s)
    case JBool(b) => Finite(if b then 1.0 else 0.0)
    case JObject(_) => NaN
  }

  /** The key is there and not null: what `??` needs in order not to fall through. */
  predicate Present(m: map<string, Value>, key: string) {
    key in m && m[key] != JNull
  }

  /** `m[keys[0]] ?? m[keys[1]] ?? ... ?? fallback`: the first alias whose value is neither
      missing nor null, even when that value is `0` or `""`; the fallback when there is none. */
  function FirstPresent(m: map<string, Value>, keys: seq<string>, fallback: Value): (r: Value)
    ensures (forall j :: 0 <= j < |keys| ==> !Present(m, keys[j])) ==> r == fallback
    ensures forall i ::
      (0 <= i < |keys| && Present(m, keys[i]) && forall j :: 0 <= j < i ==> !Present(m, keys[j]))
      ==> r == m[keys[i]]
  {
    if keys == [] then fallback
    else if Present(m, keys[0]) then m[keys[0]]
    else
      var r := FirstPresent(m, keys[1..], fallback);
      assert forall i :: 1 <= i < |keys| ==> keys[1..][i - 1] == keys[i];
      r
  }
}
