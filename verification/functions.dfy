/**
  `Functions.coerceBoolean`, `Functions.isTruthy` and `Functions.isFalsey`
  (src/Functions.ts): JavaScript truthiness, and the string-aware boolean
  coercion built on it.
 */
module Functions {
  import opened JsValues
  import Seqs

  /** The reference definition of falsiness: exactly these five values are falsy. */
  predicate IsFalsyValue(v: JsVal)
  {
    v in {Undefined, Null, Bool(false), Num(0), Str("")}
  }

  /** `isTruthy(v)` is `!!v`. */
  function IsTruthy(v: JsVal): (r: bool)
    ensures r <==> !IsFalsyValue(v)
  {
    !(!ToBoolean(v))
  }

  /** `isFalsey(v)` is `!v`. */
  function IsFalsey(v: JsVal): (r: bool)
    ensures r <==> IsFalsyValue(v)
  {
    !ToBoolean(v)
  }

  /** `String.prototype.toLowerCase` on one character, for the ASCII letters. */
  function LowerAscii(c: char): char
  {
    if 'A' <= c <= 'Z' then (c as int + 32) as char else c
  }

  function ToLowerCase(s: string): string
  {
    Seqs.Map(s, LowerAscii)
  }

  /** `s` is "true" in some mix of upper- and lower-case letters. */
  predicate SpellsTrue(s: string)
  {
    && |s| == 4
    && s[0] in "tT"
    && s[1] in "rR"
    && s[2] in "uU"
    && s[3] in "eE"
  }

  /** `coerceBoolean(v)`: a string is true only if it spells "true", ignoring case;
      any other value is coerced by truthiness. */
  function CoerceBoolean(v: JsVal): (r: bool)
    ensures v.Str? ==> (r <==> SpellsTrue(v.s))
    ensures !v.Str? ==> (r <==> !IsFalsyValue(v))
  {
    if TypeOf(v) == "string" then
      LowerIsTrue(v.s);
      ToLowerCase(v.s) == "true"
    else
      !(!ToBoolean(v))
  }

  lemma LowerAsciiMatches(c: char, lower: char, upper: char)
    requires 'a' <= lower <= 'z' && upper as int == lower as int - 32
    ensures LowerAscii(c) == lower <==> c == lower || c == upper
  {
  }

  lemma LowerIsTrue(s: string)
    ensures ToLowerCase(s) == "true" <==> SpellsTrue(s)
  {
    var l := ToLowerCase(s);
    if |s| == 4 {
      LowerAsciiMatches(s[0], 't', 'T');
      LowerAsciiMatches(s[1], 'r', 'R');
      LowerAsciiMatches(s[2], 'u', 'U');
      LowerAsciiMatches(s[3], 'e', 'E');
      assert l == "true" <==> l[0] == 't' && l[1] == 'r' && l[2] == 'u' && l[3] == 'e';
    }
  }

  /** `isFalsey` is the negation of `isTruthy` on every value. */
  lemma IsFalseyNegatesIsTruthy(v: JsVal)
    ensures IsFalsey(v) == !IsTruthy(v)
  {
  }

  /** Empty arrays and objects are truthy, and so survive `Objects.truthy`. */
  lemma EmptyContainersAreTruthy()
    ensures IsTruthy(Array([])) && IsTruthy(Object([]))
    ensures IsTruthy(Str(" ")) && IsTruthy(Num(-1))
  {
  }

  /** Case-insensitive spellings of "true" coerce to true; nothing else does. */
  lemma CoerceBooleanExamples()
    ensures CoerceBoolean(Str("TRUE")) && CoerceBoolean(Str("True")) && CoerceBoolean(Str("tRuE"))
    ensures !CoerceBoolean(Str("yes")) && !CoerceBoolean(Str("1")) && !CoerceBoolean(Str("true "))
    ensures !CoerceBoolean(Str("")) && !CoerceBoolean(Str("false"))
    ensures CoerceBoolean(Num(1)) && !CoerceBoolean(Num(0)) && !CoerceBoolean(Null)
  {
  }
}
