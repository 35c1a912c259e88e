/** Decoded JSON values and the few Python operations the weather poller
    applies to them: subscripting, `int(...)` and adding whole seconds. */
module Json {
  import opened Wrappers

  /** A JSON value as `response.json()` gives it. `JNull` is Python's
      `None`; integers and floats stay apart, as Python keeps them. A
      float is an exact real: no rounding, NaN or infinity. */
  datatype Json =
    | JNull
    | JBool(b: bool)
    | JInt(i: int)
    | JFloat(r: real)
    | JString(s: string)
    | JArray(items: seq<Json>)
    | JObject(fields: map<string, Json>)

  /** `j[key]` with a string key. Only an object holding the key answers;
      anything else raises (`KeyError` or `TypeError`). */
  function Get(j: Json, key: string): Option<Json>
  {
    if j.JObject? && key in j.fields then Some(j.fields[key]) else None
  }

  /** `key in j` for an object. */
  predicate Has(j: Json, key: string) {
    j.JObject? && key in j.fields
  }

  /** `j[0]`: the first element of a list or the first character of a
      string. An empty one, and any other value, raises. */
  function First(j: Json): Option<Json>
  {
    match j
    case JArray(items) => if |items| > 0 then Some(items[0]) else None
    case JString(s) => if |s| > 0 then Some(JString([s[0]])) else None
    case _ => None
  }

  /** Python's `int(x)` for a float: the integer part, rounding toward
      zero. */
  function Truncate(x: real): (n: int)
    ensures 0.0 <= x ==> n as real <= x < n as real + 1.0
    ensures x < 0.0 ==> n as real - 1.0 < x <= n as real
  {
    if 0.0 <= x then x.Floor else -((-x).Floor)
  }

  /** Python's `int(j)`. A string goes to `parseInt`, which this model
      does not re-implement; `None`, lists and objects raise. */
  function ToInt(j: Json, parseInt: string -> Option<int>): (r: Option<int>)
    ensures j.JInt? ==> r == Some(j.i)
    ensures j.JFloat? ==> r == Some(Truncate(j.r))
    ensures j.JBool? ==> r == Some(if j.b then 1 else 0)
    ensures j.JNull? || j.JArray? || j.JObject? ==> r.None?
  {
    match j
    case JBool(b) => Some(if b then 1 else 0)
    case JInt(i) => Some(i)
    case JFloat(x) => Some(Truncate(x))
    case JString(s) => parseInt(s)
    case _ => None
  }

  /** Python's `int(j + k)` for an integer `k`: a number (a boolean counts
      as 0 or 1) plus `k`, truncated; any other value raises `TypeError`.
      A float sum is taken exactly, without Python's double rounding. */
  function AddSeconds(j: Json, k: int): (r: Option<int>)
    ensures r.Some? <==> j.JInt? || j.JFloat? || j.JBool?
    ensures j.JInt? ==> r == Some(j.i + k)
    ensures j.JFloat? ==> r == Some(Truncate(j.r + k as real))
  {
    match j
    case JBool(b) => Some((if b then 1 else 0) + k)
    case JInt(i) => Some(i + k)
    case JFloat(x) => Some(Truncate(x + k as real))
    case _ => None
  }

  /** On a whole-valued float, adding then truncating is adding. */
  lemma AddSecondsWhole(n: int, k: int)
    ensures AddSeconds(JFloat(n as real), k) == Some(n + k)
  {
    assert n as real + k as real == (n + k) as real;
    TruncateWhole(n + k);
  }

  /** Truncation leaves a whole number as it is. */
  lemma TruncateWhole(n: int)
    ensures Truncate(n as real) == n
  {
    if 0 <= n {
      assert (n as real).Floor == n;
    } else {
      assert (-(n as real)).Floor == -n;
    }
  }
}
