/**
  src/Latchable.ts: the standalone `Latchable`, which locks on construction
  when given a truthy value, can be made immutable (freezing the value once it
  is latched), and has no way to unlock. `Object.freeze` is recorded as a flag.
 */
module Latchable {
  import opened JsValues
  import opened Results
  import Functions

  datatype Holder = Holder(value: JsVal, locked: bool, isImmutable: bool, frozen: bool)

  const AlreadyLatched: string := "Latchable value is already locked"

  /** `new Latchable(value?)`: locked exactly when the value is truthy. */
  function New(value: JsVal): (h: Holder)
    ensures h.value == value && !h.isImmutable && !h.frozen
    ensures h.locked <==> !Functions.IsFalsyValue(value)
  {
    Holder(value, Functions.IsTruthy(value), false, false)
  }

  /** `Latchable.immutable(value?)`: marked immutable; a truthy value is frozen and locked. */
  function Immutable(value: JsVal): (h: Holder)
    ensures h.value == value && h.isImmutable
    ensures h.locked <==> !Functions.IsFalsyValue(value)
    ensures h.frozen <==> h.locked
  {
    var instance := New(value).(isImmutable := true);
    if Functions.IsTruthy(value) then instance.(frozen := true, locked := true)
    else instance
  }

  /** `latch(v)`: throws when locked; otherwise stores `v`, locks, and freezes `v`
      when the holder is immutable. */
  function Latch(h: Holder, v: JsVal): (r: Result<Holder>)
    ensures r.Ok? <==> !h.locked
    ensures r.Ok? ==> r.value.value == v && r.value.locked
    ensures r.Ok? ==> r.value.isImmutable == h.isImmutable && (r.value.frozen <==> h.isImmutable)
    ensures r.Err? ==> r.error == AlreadyLocked(AlreadyLatched)
  {
    if h.locked then Err(AlreadyLocked(AlreadyLatched))
    else
      var latched := h.(value := v, locked := true);
      // The frozen flag describes the value now held: `v` is frozen only by an immutable holder.
      Ok(latched.(frozen := h.isImmutable))
  }

  /** The `value` getter. */
  function Value(h: Holder): (r: JsVal)
    ensures r == h.value
  {
    h.value
  }

  /** The states a holder can reach: only a locked value of an immutable holder is frozen. */
  predicate Valid(h: Holder)
  {
    h.frozen ==> h.locked && h.isImmutable
  }

  /** Construction establishes `Valid`, and `latch` preserves it. */
  lemma ValidIsInvariant(v: JsVal, h: Holder, w: JsVal)
    ensures Valid(New(v)) && Valid(Immutable(v))
    ensures Valid(h) && Latch(h, w).Ok? ==> Valid(Latch(h, w).value)
  {
  }

  /** `latch` applied to each of `vs` in turn: the final holder and how many succeeded. */
  function LatchAll(h: Holder, vs: seq<JsVal>): (Holder, nat)
    decreases |vs|
  {
    if |vs| == 0 then (h, 0)
    else match Latch(h, vs[0])
      case Ok(h') => var (last, n) := LatchAll(h', vs[1..]); (last, n + 1)
      case Err(_) => LatchAll(h, vs[1..])
  }

  /** There is no unlock: once locked a holder never changes again, and at most one
      `latch` ever succeeds; on an unlocked holder it is the first one. */
  lemma {:induction false} AtMostOneLatch(h: Holder, vs: seq<JsVal>)
    ensures LatchAll(h, vs).1 <= 1
    ensures h.locked ==> LatchAll(h, vs) == (h, 0)
    ensures !h.locked && |vs| > 0 ==>
      LatchAll(h, vs) == (Holder(vs[0], true, h.isImmutable, h.isImmutable), 1)
    decreases |vs|
  {
    if |vs| > 0 {
      if h.locked {
        AtMostOneLatch(h, vs[1..]);
      } else {
        AtMostOneLatch(Latch(h, vs[0]).value, vs[1..]);
      }
    }
  }

  /** A holder built from a falsy value (undefined, null, false, 0, '') accepts exactly
      one later `latch`; one built from a truthy value accepts none. */
  lemma ConstructedLatchCount(v: JsVal, vs: seq<JsVal>)
    requires |vs| > 0
    ensures Functions.IsFalsyValue(v) ==> LatchAll(New(v), vs).1 == 1 && LatchAll(New(v), vs).0.value == vs[0]
    ensures !Functions.IsFalsyValue(v) ==> LatchAll(New(v), vs).1 == 0 && LatchAll(New(v), vs).0.value == v
  {
    AtMostOneLatch(New(v), vs);
  }
}
