/**
  src/Lockable.ts: the base `Latchable` holder (a value that one `latch` sets and
  locks) and its subclass `Lockable` (a value that `set` and `offer` overwrite
  while unlocked, with explicit `lock` and `unlock`). Both share the state
  (value, locked); a thrown error leaves the state as it was.
 */
module Lockable {
  import opened JsValues
  import opened Results
  import Functions

  datatype Holder = Holder(value: JsVal, locked: bool)

  const LatchableLocked: string := "Latchable value is already locked"
  const LockableLocked: string := "Lockable value is already locked"

  /** `new Latchable(value?)`: an omitted value is `undefined`; never locked. */
  function NewLatchable(value: JsVal): (h: Holder)
    ensures Value(h) == value && !h.locked
  {
    Holder(value, false)
  }

  /** `new Lockable(value?)` delegates to the `Latchable` constructor. */
  function NewLockable(value: JsVal): (h: Holder)
    ensures h == NewLatchable(value) && Value(h) == value && !h.locked
  {
    NewLatchable(value)
  }

  /** `Latchable.immutable(value)`: constructed, then locked at once. */
  function Immutable(value: JsVal): (h: Holder)
    ensures Value(h) == value && h.locked
    ensures forall w :: Latch(h, w).Err?
  {
    NewLatchable(value).(locked := true)
  }

  /** `latch(v)`: throws when locked; otherwise stores `v` and locks. */
  function Latch(h: Holder, v: JsVal): (r: Result<Holder>)
    ensures r.Ok? <==> !h.locked
    ensures r.Ok? ==> r.value.value == v && r.value.locked
    ensures r.Err? ==> r.error == AlreadyLocked(LatchableLocked)
  {
    if h.locked then Err(AlreadyLocked(LatchableLocked))
    else Ok(h.(value := v, locked := true))
  }

  /** The `value` getter. */
  function Value(h: Holder): (r: JsVal)
    ensures r == h.value
  {
    h.value
  }

  /** `set(v)`: throws when locked; otherwise stores `v` and leaves the lock alone. */
  function Set(h: Holder, v: JsVal): (r: Result<Holder>)
    ensures r.Ok? <==> !h.locked
    ensures r.Ok? ==> r.value.value == v && r.value.locked == h.locked
    ensures r.Err? ==> r.error == AlreadyLocked(LockableLocked)
  {
    if h.locked then Err(AlreadyLocked(LockableLocked))
    else Ok(h.(value := v))
  }

  /** `lock()`. */
  function Lock(h: Holder): (r: Holder)
    ensures r.locked && Value(r) == Value(h)
  {
    h.(locked := true)
  }

  /** `unlock()`. */
  function Unlock(h: Holder): (r: Holder)
    ensures !r.locked && Value(r) == Value(h)
  {
    h.(locked := false)
  }

  /** The `timeout` argument of `offer` as a JavaScript value: omitted is `undefined`. */
  function TimeoutArg(timeout: Option<int>): JsVal
  {
    match timeout
    case None => Undefined
    case Some(ms) => Num(ms)
  }

  /** `if (timeout)`: only a truthy timeout selects the timed wait. */
  function IsTimed(timeout: Option<int>): (r: bool)
    ensures r <==> timeout.Some? && timeout.value != 0
  {
    Functions.IsTruthy(TimeoutArg(timeout))
  }

  /** One poll of an `offer` in progress. */
  datatype Poll =
    /** The poll saw the holder unlocked, and the offered value was written. */
    | Written(holder: Holder)
    /** The holder is still locked; the offer polls again later. */
    | StillWaiting
    /** The timed wait expired first; the value was not written. */
    | Rejected(error: Error)

  /** One poll of `offer(v, timeout)`, observing the holder `h` and whether the
      timeout's countdown has run out (`waitUntilResolved` checks the condition first). */
  function OfferPoll(h: Holder, v: JsVal, timeout: Option<int>, expired: bool): (r: Poll)
    ensures r.Written? <==> !h.locked
    ensures r.Written? ==> r.holder.value == v && r.holder.locked == h.locked
    ensures r.Rejected? <==> h.locked && expired && IsTimed(timeout)
    ensures r.Rejected? ==> r.error == WaitTimeout(timeout.value)
  {
    if IsTimed(timeout) then
      if !h.locked then Written(h.(value := v))
      else if expired then Rejected(WaitTimeout(timeout.value))
      else StillWaiting
    else
      if !h.locked then Written(h.(value := v))
      else StillWaiting
  }

  /** A poll that ends the offer: it sees the holder unlocked, or, for a timed offer,
      it sees the holder locked after the countdown has run out. */
  predicate Settles(poll: (Holder, bool), timeout: Option<int>)
  {
    !poll.0.locked || (IsTimed(timeout) && poll.1)
  }

  /** `offer(v, timeout)` across successive polls: each poll observes the holder as
      other callers left it, and whether the countdown has run out by then. */
  function Offer(v: JsVal, timeout: Option<int>, polls: seq<(Holder, bool)>): (r: Poll)
    ensures r.Written? ==>
      exists i :: 0 <= i < |polls| && !polls[i].0.locked && r.holder == polls[i].0.(value := v)
    ensures (forall i :: 0 <= i < |polls| ==> polls[i].0.locked) ==> !r.Written?
    ensures !IsTimed(timeout) ==> !r.Rejected?
    ensures r.Rejected? ==> r.error == WaitTimeout(timeout.value)
    ensures r.StillWaiting? <==> forall i :: 0 <= i < |polls| ==> !Settles(polls[i], timeout)
    decreases |polls|
  {
    if |polls| == 0 then StillWaiting
    else
      var p := OfferPoll(polls[0].0, v, timeout, polls[0].1);
      if p.StillWaiting? then
        var r := Offer(v, timeout, polls[1..]);
        assert forall i :: 1 <= i < |polls| ==> polls[i] == polls[1..][i - 1];
        r
      else p
  }

  /** The offer is decided by its first settling poll: it writes onto the holder that
      poll saw unlocked, or else rejects with the timeout. */
  lemma {:induction false} OfferSettlesAtFirst(v: JsVal, timeout: Option<int>, polls: seq<(Holder, bool)>, k: nat)
    requires k < |polls| && Settles(polls[k], timeout)
    requires forall i :: 0 <= i < k ==> !Settles(polls[i], timeout)
    ensures !polls[k].0.locked ==> Offer(v, timeout, polls) == Written(polls[k].0.(value := v))
    ensures polls[k].0.locked ==> timeout.Some? && Offer(v, timeout, polls) == Rejected(WaitTimeout(timeout.value))
    decreases k
  {
    if k > 0 {
      assert !Settles(polls[0], timeout);
      forall i | 0 <= i < k - 1
        ensures !Settles(polls[1..][i], timeout)
      {
        assert polls[1..][i] == polls[i + 1];
      }
      OfferSettlesAtFirst(v, timeout, polls[1..], k - 1);
    }
  }

  /** An untimed offer completes at the first poll after an `unlock()`. */
  lemma UntimedOfferCompletesAfterUnlock(v: JsVal, timeout: Option<int>, polls: seq<(Holder, bool)>, k: nat, h: Holder)
    requires !IsTimed(timeout)
    requires k < |polls| && polls[k].0 == Unlock(h)
    ensures Offer(v, timeout, polls).Written?
  {
    assert Settles(polls[k], timeout);
  }

  /** A falsy timeout (omitted or 0) takes the untimed branch, which waits without limit. */
  lemma ZeroTimeoutWaitsForever(v: JsVal, polls: seq<(Holder, bool)>)
    ensures !Offer(v, Some(0), polls).Rejected?
    ensures !Offer(v, None, polls).Rejected?
  {
  }

  /** Another caller's operation, or a read, applied to a holder one at a time. */
  datatype Op =
    | LatchOp(v: JsVal)
    | SetOp(v: JsVal)
    | OfferOp(v: JsVal, timeout: Option<int>, expired: bool)
    | LockOp
    | UnlockOp
    | ReadOp
  {
    predicate Writes(x: JsVal)
    {
      (LatchOp? || SetOp? || OfferOp?) && v == x
    }
  }

  /** The effect of one operation; one that throws or keeps waiting leaves the holder as it was. */
  function Apply(h: Holder, op: Op): (r: Holder)
    ensures r.value == h.value || op.Writes(r.value)
  {
    match op
    case LatchOp(v) => (match Latch(h, v) case Ok(h') => h' case Err(_) => h)
    case SetOp(v) => (match Set(h, v) case Ok(h') => h' case Err(_) => h)
    case OfferOp(v, t, e) => (match OfferPoll(h, v, t, e) case Written(h') => h' case _ => h)
    case LockOp => Lock(h)
    case UnlockOp => Unlock(h)
    case ReadOp => h
  }

  function ApplyAll(h: Holder, ops: seq<Op>): Holder
    decreases |ops|
  {
    if |ops| == 0 then h else ApplyAll(Apply(h, ops[0]), ops[1..])
  }

  /** Nothing but the constructor, `latch`, `set` and `offer` writes the value: after any
      sequence of operations the value is the initial one or one of them wrote it. */
  lemma {:induction false} ValueComesFromWrites(h: Holder, ops: seq<Op>)
    ensures ApplyAll(h, ops).value == h.value
         || exists i :: 0 <= i < |ops| && ops[i].Writes(ApplyAll(h, ops).value)
    decreases |ops|
  {
    if |ops| > 0 {
      var h' := Apply(h, ops[0]);
      ValueComesFromWrites(h', ops[1..]);
      var final := ApplyAll(h, ops);
      if final.value != h'.value {
        var i :| 0 <= i < |ops[1..]| && ops[1..][i].Writes(final.value);
        assert ops[i + 1] == ops[1..][i];
      }
    }
  }

  /** `lock`, `unlock` and reads never change the value. */
  lemma {:induction false} LockingKeepsValue(h: Holder, ops: seq<Op>)
    requires forall i :: 0 <= i < |ops| ==> ops[i].LockOp? || ops[i].UnlockOp? || ops[i].ReadOp?
    ensures ApplyAll(h, ops).value == h.value
    decreases |ops|
  {
    if |ops| > 0 {
      LockingKeepsValue(Apply(h, ops[0]), ops[1..]);
    }
  }

  /** `lock` and `unlock` are idempotent, and `unlock` undoes `lock` on an unlocked holder. */
  lemma LockUnlockIdempotent(h: Holder)
    ensures Lock(Lock(h)) == Lock(h)
    ensures Unlock(Unlock(h)) == Unlock(h)
    ensures !h.locked ==> Unlock(Lock(h)) == h
  {
  }

  /** A fresh holder reads back its initial value and accepts a write, which reads back. */
  lemma FreshHolderIsWritable(v: JsVal, w: JsVal)
    ensures Value(NewLockable(v)) == v
    ensures Set(NewLockable(v), w) == Ok(Holder(w, false))
    ensures Value(Set(NewLockable(v), w).value) == w
    ensures Latch(NewLatchable(v), w) == Ok(Holder(w, true))
  {
  }

  /** `latch` applied to each of `vs` in turn: the final holder and how many succeeded. */
  function LatchAll(h: Holder, vs: seq<JsVal>): (Holder, nat)
    decreases |vs|
  {
    if |vs| == 0 then (h, 0)
    else match Latch(h, vs[0])
      case Ok(h') => var (last, n) := LatchAll(h', vs[1..]); (last, n + 1)
      case Err(_) => LatchAll(h, vs[1..])
  }

  /** A `Latchable` (which has no `unlock`) accepts at most one `latch`: on an unlocked
      holder exactly the first succeeds, on a locked one none does. */
  lemma {:induction false} AtMostOneLatch(h: Holder, vs: seq<JsVal>)
    ensures LatchAll(h, vs).1 <= 1
    ensures h.locked ==> LatchAll(h, vs) == (h, 0)
    ensures !h.locked && |vs| > 0 ==> LatchAll(h, vs) == (Holder(vs[0], true), 1)
    decreases |vs|
  {
    if |vs| > 0 {
      if h.locked {
        AtMostOneLatch(h, vs[1..]);
      } else {
        AtMostOneLatch(Holder(vs[0], true), vs[1..]);
      }
    }
  }

  /** An immutable `Latchable` rejects every `latch` and keeps its value. */
  lemma ImmutableNeverChanges(v: JsVal, vs: seq<JsVal>)
    ensures LatchAll(Immutable(v), vs) == (Holder(v, true), 0)
  {
    AtMostOneLatch(Immutable(v), vs);
  }
}
