/**
  The `Objects` namespace (src/Objects.ts): filters that copy some of an
  object's own properties, in `Object.keys` order, into a fresh object.
 */
module Objects {
  import opened JsValues
  import Seqs
  import Functions

  type Entry = (string, JsVal)

  /** `nonNull` as written: its guard `v !== null || v !== undefined` holds of every value. */
  function NonNull(input: Entries): (r: Entries)
    ensures Seqs.IsSubsequence(r, input)
  {
    Seqs.FilterIsSubsequence(input, (e: Entry) => e.1 != Null || e.1 != Undefined);
    Seqs.Filter(input, (e: Entry) => e.1 != Null || e.1 != Undefined)
  }

  /** `nonNull` as its documentation and test describe it: drop null and undefined. */
  function NonNullIntended(input: Entries): (r: Entries)
    ensures Seqs.IsSubsequence(r, input)
    ensures forall i :: 0 <= i < |r| ==> r[i] in input && r[i].1 != Null && r[i].1 != Undefined
    ensures forall i :: 0 <= i < |input| && input[i].1 != Null && input[i].1 != Undefined ==> input[i] in r
  {
    Seqs.FilterIsSubsequence(input, (e: Entry) => e.1 != Null && e.1 != Undefined);
    Seqs.Filter(input, (e: Entry) => e.1 != Null && e.1 != Undefined)
  }

  /** `nonUndefined`: drop exactly the undefined properties. */
  function NonUndefined(input: Entries): (r: Entries)
    ensures Seqs.IsSubsequence(r, input)
    ensures forall i :: 0 <= i < |r| ==> r[i] in input && r[i].1 != Undefined
    ensures forall i :: 0 <= i < |input| && input[i].1 != Undefined ==> input[i] in r
  {
    Seqs.FilterIsSubsequence(input, (e: Entry) => e.1 != Undefined);
    Seqs.Filter(input, (e: Entry) => e.1 != Undefined)
  }

  /** `truthy`: keep exactly the properties whose value is truthy (`!!v`). */
  function Truthy(input: Entries): (r: Entries)
    ensures Seqs.IsSubsequence(r, input)
    ensures forall i :: 0 <= i < |r| ==> r[i] in input && !Functions.IsFalsyValue(r[i].1)
    ensures forall i :: 0 <= i < |input| && !Functions.IsFalsyValue(input[i].1) ==> input[i] in r
  {
    Seqs.FilterIsSubsequence(input, (e: Entry) => Functions.IsTruthy(e.1));
    Seqs.Filter(input, (e: Entry) => Functions.IsTruthy(e.1))
  }

  /** `drop(input, ...keys)`: keep exactly the properties whose key is not listed. */
  function Drop(input: Entries, keys: seq<string>): (r: Entries)
    ensures Seqs.IsSubsequence(r, input)
    ensures forall i :: 0 <= i < |r| ==> r[i] in input && r[i].0 !in keys
    ensures forall i :: 0 <= i < |input| && input[i].0 !in keys ==> input[i] in r
  {
    Seqs.FilterIsSubsequence(input, (e: Entry) => e.0 !in keys);
    Seqs.Filter(input, (e: Entry) => e.0 !in keys)
  }

  /** As written, `nonNull` copies its input unchanged. */
  lemma NonNullIsIdentity(input: Entries)
    ensures NonNull(input) == input
  {
    Seqs.FilterKeepsAll(input, (e: Entry) => e.1 != Null || e.1 != Undefined);
  }

  /** Applying any of the filters a second time changes nothing. */
  lemma FiltersIdempotent(input: Entries, keys: seq<string>)
    ensures NonNull(NonNull(input)) == NonNull(input)
    ensures NonNullIntended(NonNullIntended(input)) == NonNullIntended(input)
    ensures NonUndefined(NonUndefined(input)) == NonUndefined(input)
    ensures Truthy(Truthy(input)) == Truthy(input)
    ensures Drop(Drop(input, keys), keys) == Drop(input, keys)
  {
    Seqs.FilterIdempotent(input, (e: Entry) => e.1 != Null || e.1 != Undefined);
    Seqs.FilterIdempotent(input, (e: Entry) => e.1 != Null && e.1 != Undefined);
    Seqs.FilterIdempotent(input, (e: Entry) => e.1 != Undefined);
    Seqs.FilterIdempotent(input, (e: Entry) => Functions.IsTruthy(e.1));
    Seqs.FilterIdempotent(input, (e: Entry) => e.0 !in keys);
  }

  /** In an object, a key is kept by a filter exactly when its entry is. */
  lemma KeyKeptIffEntryKept(input: Entries, r: Entries, j: int)
    requires UniqueKeys(input)
    requires 0 <= j < |input|
    requires forall i :: 0 <= i < |r| ==> r[i] in input
    ensures HasKey(r, input[j].0) <==> input[j] in r
  {
    if input[j] in r {
      var i :| 0 <= i < |r| && r[i] == input[j];
    } else {
      forall i | 0 <= i < |r|
        ensures r[i].0 != input[j].0
      {
        var m :| 0 <= m < |input| && input[m] == r[i];
        assert m != j;
      }
    }
  }

  /** Which own keys of an object each filter keeps. */
  lemma FilterKeys(input: Entries, keys: seq<string>, j: int)
    requires UniqueKeys(input)
    requires 0 <= j < |input|
    ensures HasKey(NonNull(input), input[j].0)
    ensures HasKey(NonNullIntended(input), input[j].0) <==> input[j].1 != Null && input[j].1 != Undefined
    ensures HasKey(NonUndefined(input), input[j].0) <==> input[j].1 != Undefined
    ensures HasKey(Truthy(input), input[j].0) <==> Functions.IsTruthy(input[j].1)
    ensures HasKey(Drop(input, keys), input[j].0) <==> input[j].0 !in keys
  {
    NonNullIsIdentity(input);
    KeyKeptIffEntryKept(input, NonNull(input), j);
    KeyKeptIffEntryKept(input, NonNullIntended(input), j);
    KeyKeptIffEntryKept(input, NonUndefined(input), j);
    KeyKeptIffEntryKept(input, Truthy(input), j);
    KeyKeptIffEntryKept(input, Drop(input, keys), j);
  }

  /** `nonNull` is documented and tested to drop a null property; as written it keeps it. */
  lemma NonNullKeepsNull()
    ensures NonNull([("aNull", Null), ("anUndefined", Undefined)]) == [("aNull", Null), ("anUndefined", Undefined)]
    ensures NonNullIntended([("aNull", Null), ("anUndefined", Undefined)]) == []
  {
    NonNullIsIdentity([("aNull", Null), ("anUndefined", Undefined)]);
  }
}
