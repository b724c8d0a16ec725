/**
  The JavaScript values the library's helpers inspect, the `typeof` operator on
  them, JavaScript's ToBoolean conversion, and plain objects seen as their
  ordered list of own enumerable (key, value) entries, the order in which
  `Object.keys` reports them.
 */
module JsValues {

  /** A JavaScript value. Numbers are integers here (no NaN, no fractions);
      arrays and plain objects carry their elements. */
  datatype JsVal =
    | Undefined
    | Null
    | Bool(b: bool)
    | Num(n: int)
    | Str(s: string)
    | Array(elems: seq<JsVal>)
    | Object(props: seq<(string, JsVal)>)

  /** A plain object: its own enumerable properties in `Object.keys` order. */
  type Entries = seq<(string, JsVal)>

  /** The string JavaScript's `typeof` yields (`null` and arrays report "object"). */
  function TypeOf(v: JsVal): string
  {
    match v
    case Undefined => "undefined"
    case Null => "object"
    case Bool(_) => "boolean"
    case Num(_) => "number"
    case Str(_) => "string"
    case Array(_) => "object"
    case Object(_) => "object"
  }

  /** JavaScript's ToBoolean conversion, the meaning of `!!v` and `if (v)`. */
  predicate ToBoolean(v: JsVal)
  {
    match v
    case Undefined => false
    case Null => false
    case Bool(b) => b
    case Num(n) => n != 0
    case Str(s) => |s| > 0
    case Array(_) => true
    case Object(_) => true
  }

  /** `Object.keys(o)`. */
  function KeysOf(o: Entries): seq<string>
  {
    seq(|o|, i requires 0 <= i < |o| => o[i].0)
  }

  /** A JavaScript object never holds two own properties with the same key. */
  predicate UniqueKeys(o: Entries)
  {
    forall i, j :: 0 <= i < j < |o| ==> o[i].0 != o[j].0
  }

  /** Property access `o[k]`: the value stored under `k`, or `undefined` when absent. */
  function Lookup(o: Entries, k: string): JsVal
  {
    if |o| == 0 then Undefined
    else if o[0].0 == k then o[0].1
    else Lookup(o[1..], k)
  }

  /** `k` is an own key of `o` (what `toHaveProperty(k)` asks of an object). */
  predicate HasKey(o: Entries, k: string)
  {
    exists i :: 0 <= i < |o| && o[i].0 == k
  }

  /** Reading back the key of an entry of an object yields that entry's value. */
  lemma {:induction false} LookupFindsEntry(o: Entries, i: int)
    requires UniqueKeys(o)
    requires 0 <= i < |o|
    ensures Lookup(o, o[i].0) == o[i].1
    decreases |o|
  {
    if i > 0 {
      assert o[0].0 != o[i].0;
      assert o[1..][i - 1] == o[i];
      LookupFindsEntry(o[1..], i - 1);
    }
  }

  /** Whatever a present key reads as is the value of some entry under that key. */
  lemma {:induction false} LookupIsSomeEntry(o: Entries, k: string)
    requires k in KeysOf(o)
    ensures exists i :: 0 <= i < |o| && o[i].0 == k && o[i].1 == Lookup(o, k)
    decreases |o|
  {
    if o[0].0 != k {
      var j :| 0 <= j < |o| && KeysOf(o)[j] == k;
      assert KeysOf(o[1..])[j - 1] == k;
      LookupIsSomeEntry(o[1..], k);
      var i :| 0 <= i < |o[1..]| && o[1..][i].0 == k && o[1..][i].1 == Lookup(o[1..], k);
      assert o[i + 1] == o[1..][i];
    }
  }
}
