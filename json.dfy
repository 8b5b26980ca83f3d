/**
 * Decoded JSON documents as a tagged variant, and the serialisation primitives the
 * core uses without owning them. `json.loads`, `json.dumps`, `str()` of a non-string,
 * `datetime.fromisoformat` and `str(float(v) + 0.1)` are not modelled; a `Codec`
 * value carries them as total functions that every operation receives as a parameter.
 */
module Json {
  import opened Wrappers

  datatype Value =
    | Null
    | Bool(b: bool)
    | Num(r: real)
    | Str(s: string)
    | Arr(items: seq<Value>)
    | Obj(fields: map<string, Value>)

  type Dict = map<string, Value>

  datatype Codec = Codec(
    decode: string -> Option<Value>,   // json.loads; None where it raises JSONDecodeError
    dumps: Value -> string,            // json.dumps
    repr: Value -> string,             // str(v) for v not a string
    parseTime: string -> Option<int>,  // datetime.fromisoformat, in whole seconds
    bumpFloat: Value -> string         // str(float(v) + 0.1)
  )

  /** Python's truth value of a decoded value. */
  predicate Truthy(v: Value) {
    match v
    case Null => false
    case Bool(b) => b
    case Num(r) => r != 0.0
    case Str(s) => s != []
    case Arr(xs) => xs != []
    case Obj(m) => m != map[]
  }

  /** Booleans take part in arithmetic and comparisons as the numbers 0 and 1. */
  predicate Numeric(v: Value) {
    v.Num? || v.Bool?
  }

  function NumberOf(v: Value): real
    requires Numeric(v)
  {
    if v.Bool? then (if v.b then 1.0 else 0.0) else v.r
  }

  /** Python's `x == y` on decoded values: `True == 1`, lists element by element, dictionaries key by key. */
  predicate Equals(x: Value, y: Value) {
    if Numeric(x) && Numeric(y) then NumberOf(x) == NumberOf(y)
    else match (x, y)
      case (Null, Null) => true
      case (Str(s), Str(t)) => s == t
      case (Arr(xs), Arr(ys)) => |xs| == |ys| && forall i :: 0 <= i < |xs| ==> Equals(xs[i], ys[i])
      case (Obj(m), Obj(n)) => m.Keys == n.Keys && forall k | k in m :: Equals(m[k], n[k])
      case _ => false
  }

  /** `x in vs` for a list `vs`: some element equals `x`. */
  predicate Among(x: Value, vs: seq<Value>) {
    exists i :: 0 <= i < |vs| && Equals(vs[i], x)
  }

  /** `d.get(key, default)` */
  function Get(d: Dict, key: string, default: Value): Value {
    if key in d then d[key] else default
  }

  /** The fields of a dictionary value; empty for any other value. */
  function Fields(v: Value): Dict {
    if v.Obj? then v.fields else map[]
  }

  /** `f"{v}"`: a string formats as itself, anything else as `str(v)`. */
  function Format(c: Codec, v: Value): string {
    if v.Str? then v.s else c.repr(v)
  }

  const SecondsPerDay := 86400

  /** `(now - since).days`: whole days elapsed, rounded down (also for a negative span). */
  function DaysBetween(now: int, since: int): (d: int)
    ensures d * SecondsPerDay <= now - since < (d + 1) * SecondsPerDay
  {
    (now - since) / SecondsPerDay
  }

  /** At least `n` whole days have passed exactly when `n` days' worth of seconds have. */
  lemma DaysAtLeast(now: int, since: int, n: int)
    ensures DaysBetween(now, since) >= n <==> now - since >= n * SecondsPerDay
  {
    var d, r := (now - since) / SecondsPerDay, (now - since) % SecondsPerDay;
    assert now - since == d * SecondsPerDay + r && 0 <= r < SecondsPerDay;
    if d >= n {
      assert d * SecondsPerDay >= n * SecondsPerDay;
    } else {
      assert d * SecondsPerDay <= (n - 1) * SecondsPerDay;
    }
  }
}
