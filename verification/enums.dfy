/**
  The `Enum` namespace (src/Enum.ts): introspection of a TypeScript enum object,
  whose own properties map member names to numbers or strings (and, for numeric
  enums, numbers back to names).
 */
module Enum {
  import opened JsValues
  import Seqs

  /** `Enum.Type`: the `typeof` result a caller selects members by. */
  datatype Type = Number | String
  {
    function Name(): string
    {
      match this
      case Number => "number"
      case String => "string"
    }
  }

  /** `keys(o, t)`: `Object.keys(o)` filtered to the keys whose value has type `t`. */
  function Keys(o: Entries, t: Type): (r: seq<string>)
    ensures Seqs.IsSubsequence(r, KeysOf(o))
    ensures forall i :: 0 <= i < |r| ==> r[i] in KeysOf(o) && TypeOf(Lookup(o, r[i])) == t.Name()
    ensures forall i :: 0 <= i < |o| && TypeOf(Lookup(o, o[i].0)) == t.Name() ==> o[i].0 in r
  {
    var p := (k: string) => TypeOf(Lookup(o, k)) == t.Name();
    Seqs.FilterIsSubsequence(KeysOf(o), p);
    var r := Seqs.Filter(KeysOf(o), p);
    assert forall i :: 0 <= i < |o| ==> KeysOf(o)[i] == o[i].0;
    r
  }

  /** `values(o, t)`: the value of every key `keys(o, t)` reports, in that order. */
  function Values(o: Entries, t: Type): (r: seq<JsVal>)
    ensures |r| == |Keys(o, t)|
    ensures forall i :: 0 <= i < |r| ==> TypeOf(r[i]) == t.Name()
  {
    Seqs.Map(Keys(o, t), (k: string) => Lookup(o, k))
  }

  /** `length(o)`: the number of own keys, whatever their values. */
  function Length(o: Entries): (r: nat)
    ensures r == |o|
  {
    |KeysOf(o)|
  }

  /** The values of the entries of `o` whose value has type `t`, in order. */
  function ValuesOfType(o: Entries, t: Type): seq<JsVal>
    decreases |o|
  {
    if |o| == 0 then []
    else if TypeOf(o[0].1) == t.Name() then [o[0].1] + ValuesOfType(o[1..], t)
    else ValuesOfType(o[1..], t)
  }

  /** The keys `keys(o, t)` reports are exactly the entries whose value has type `t`. */
  lemma KeysExact(o: Entries, t: Type)
    requires UniqueKeys(o)
    ensures forall i :: 0 <= i < |o| ==> (o[i].0 in Keys(o, t) <==> TypeOf(o[i].1) == t.Name())
  {
    forall i | 0 <= i < |o|
      ensures o[i].0 in Keys(o, t) <==> TypeOf(o[i].1) == t.Name()
    {
      LookupFindsEntry(o, i);
      assert KeysOf(o)[i] == o[i].0;
    }
  }

  /** `keys(o, t)` lists keys of `o` only, in `Object.keys` order, so it is never longer. */
  lemma KeysInOrder(o: Entries, t: Type)
    ensures Seqs.IsSubsequence(Keys(o, t), KeysOf(o))
    ensures |Keys(o, t)| <= Length(o)
  {
    Seqs.FilterIsSubsequence(KeysOf(o), (k: string) => TypeOf(Lookup(o, k)) == t.Name());
  }

  lemma UniqueKeysTail(o: Entries)
    requires UniqueKeys(o) && |o| > 0
    ensures UniqueKeys(o[1..])
  {
    var rest := o[1..];
    forall i, j | 0 <= i < j < |rest|
      ensures rest[i].0 != rest[j].0
    {
      assert rest[i] == o[i + 1] && rest[j] == o[j + 1];
    }
  }

  /** Past its first entry, an object reads every later key as its tail does. */
  lemma LookupPastHead(o: Entries, k: string)
    requires UniqueKeys(o) && |o| > 0
    requires k in KeysOf(o[1..])
    ensures Lookup(o, k) == Lookup(o[1..], k)
  {
    var i :| 0 <= i < |o[1..]| && KeysOf(o[1..])[i] == k;
    assert o[0].0 != o[i + 1].0;
  }

  /** `keys(o, t)` splits into the verdict on the first key and the keys of the tail. */
  lemma KeysCons(o: Entries, t: Type)
    requires UniqueKeys(o) && |o| > 0
    ensures Keys(o, t) == (if TypeOf(o[0].1) == t.Name() then [o[0].0] else []) + Keys(o[1..], t)
  {
    var rest := o[1..];
    var p := (k: string) => TypeOf(Lookup(o, k)) == t.Name();
    var q := (k: string) => TypeOf(Lookup(rest, k)) == t.Name();
    var restKeys := KeysOf(rest);
    assert KeysOf(o) == [o[0].0] + restKeys;
    assert KeysOf(o)[1..] == restKeys;
    forall i | 0 <= i < |restKeys|
      ensures p(restKeys[i]) == q(restKeys[i])
    {
      LookupPastHead(o, restKeys[i]);
    }
    Seqs.FilterCongruent(restKeys, p, q);
  }

  /** For an object, `values(o, t)` is the list of its values of type `t`, in key order. */
  lemma {:induction false} ValuesAreValuesOfType(o: Entries, t: Type)
    requires UniqueKeys(o)
    ensures Values(o, t) == ValuesOfType(o, t)
    decreases |o|
  {
    if |o| > 0 {
      UniqueKeysTail(o);
      ValuesAreValuesOfType(o[1..], t);
      ValuesCons(o, t);
    }
  }

  /** `values(o, t)` splits into the first entry's value, when of type `t`, and the values of the tail. */
  lemma ValuesCons(o: Entries, t: Type)
    requires UniqueKeys(o) && |o| > 0
    ensures Values(o, t) == (if TypeOf(o[0].1) == t.Name() then [o[0].1] else []) + Values(o[1..], t)
  {
    var f := (k: string) => Lookup(o, k);
    var head := if TypeOf(o[0].1) == t.Name() then [o[0].0] else [];
    var tailKeys := Keys(o[1..], t);
    KeysCons(o, t);
    assert Values(o, t) == Seqs.Map(head + tailKeys, f);
    Seqs.MapAppend(head, tailKeys, f);
    TailValuesAgree(o, t);
    var headValues := if TypeOf(o[0].1) == t.Name() then [o[0].1] else [];
    assert Lookup(o, o[0].0) == o[0].1;
    assert Seqs.Map(head, f) == headValues;
    assert Seqs.Map(tailKeys, f) == Values(o[1..], t);
  }

  /** The head's object and its tail read the tail's keys alike. */
  lemma TailValuesAgree(o: Entries, t: Type)
    requires UniqueKeys(o) && |o| > 0
    ensures Seqs.Map(Keys(o[1..], t), (k: string) => Lookup(o, k)) == Values(o[1..], t)
  {
    var rest := o[1..];
    var f := (k: string) => Lookup(o, k);
    var g := (k: string) => Lookup(rest, k);
    var tailKeys := Keys(rest, t);
    forall i | 0 <= i < |tailKeys|
      ensures f(tailKeys[i]) == g(tailKeys[i])
    {
      assert tailKeys[i] in KeysOf(rest);
      LookupPastHead(o, tailKeys[i]);
    }
    Seqs.MapCongruent(tailKeys, f, g);
  }

  /** When every value is a number or a string, the two kinds of keys add up to the length. */
  lemma KeysPartitionLength(o: Entries)
    requires forall i :: 0 <= i < |o| ==> o[i].1.Num? || o[i].1.Str?
    ensures |Keys(o, Number)| + |Keys(o, String)| == Length(o)
  {
    var ks := KeysOf(o);
    forall i | 0 <= i < |ks|
      ensures (TypeOf(Lookup(o, ks[i])) == "number") != (TypeOf(Lookup(o, ks[i])) == "string")
    {
      assert ks[i] in ks;
      LookupIsSomeEntry(o, ks[i]);
    }
    Seqs.FilterPartition(ks,
      (k: string) => TypeOf(Lookup(o, k)) == Number.Name(),
      (k: string) => TypeOf(Lookup(o, k)) == String.Name());
  }
}
