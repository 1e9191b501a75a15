/** Canonical schema signatures and the registry of named schemas
    (`scripts/protocol-gen-swift.ts`). */
module SchemaRegistry {
  import opened Options
  import opened Sequences
  import opened Sorting

  /** A JSON value; an object lists its properties in insertion order. */
  datatype Json =
    | Null
    | Bool(b: bool)
    | Number(literal: string)
    | String(s: string)
    | Array(items: seq<Json>)
    | Object(properties: seq<Property>)
  datatype Property = Property(key: string, value: Json)

  // ----- The order of keys -----

  /** The default order of `toSorted`: character by character, shorter first. */
  predicate LexLe(a: string, b: string) {
    a == "" || (b != "" && (a[0] < b[0] || (a[0] == b[0] && LexLe(a[1..], b[1..]))))
  }

  lemma {:induction false} LexTotal(a: string, b: string)
    ensures LexLe(a, b) || LexLe(b, a)
    ensures LexLe(a, b) && LexLe(b, a) ==> a == b
  {
    if a != "" && b != "" {
      LexTotal(a[1..], b[1..]);
      assert a == [a[0]] + a[1..] && b == [b[0]] + b[1..];
    }
  }

  lemma {:induction false} LexTransitive(a: string, b: string, c: string)
    requires LexLe(a, b) && LexLe(b, c)
    ensures LexLe(a, c)
  {
    if a != "" && a[0] == b[0] && b[0] == c[0] {
      LexTransitive(a[1..], b[1..], c[1..]);
    }
  }

  /** The texts first differ at position `k`, and there `a` has the smaller character. */
  predicate SmallerAt(a: string, b: string, k: int) {
    0 <= k < |a| && k < |b| && a[..k] == b[..k] && a[k] < b[k]
  }

  lemma SmallerBelow(a: string, b: string, k: int)
    requires a != "" && b != "" && a[0] == b[0] && k > 0
    ensures SmallerAt(a, b, k) <==> SmallerAt(a[1..], b[1..], k - 1)
  {
    if k < |a| && k < |b| {
      assert a[..k] == [a[0]] + a[1..][..k - 1] && b[..k] == [b[0]] + b[1..][..k - 1];
      assert a[1..][..k - 1] == a[..k][1..] && b[1..][..k - 1] == b[..k][1..];
    }
  }

  lemma SameBefore(a: string, b: string, k: int)
    requires SmallerAt(a, b, k) && k > 0
    ensures a[0] == b[0]
  {
    assert a[..k][0] == b[..k][0];
  }

  /** The order is the one by the first difference; a text comes before its continuations. */
  lemma {:induction false} LexLeIff(a: string, b: string)
    ensures LexLe(a, b) <==> a <= b || exists k :: SmallerAt(a, b, k)
  {
    if a == "" {
    } else if b == "" {
    } else if a[0] == b[0] {
      LexLeIff(a[1..], b[1..]);
      assert a == [a[0]] + a[1..] && b == [b[0]] + b[1..];
      if k :| SmallerAt(a[1..], b[1..], k) {
        SmallerBelow(a, b, k + 1);
      }
      if k :| SmallerAt(a, b, k) {
        SmallerBelow(a, b, k);
      }
    } else {
      assert a[..0] == b[..0];
      if k :| SmallerAt(a, b, k) {
        if k > 0 {
          SameBefore(a, b, k);
        }
      }
      assert a[0] < b[0] ==> SmallerAt(a, b, 0);
    }
  }

  lemma LexIsTotalPreorder()
    ensures TotalPreorder(LexLe)
  {
    forall x: string, y: string
      ensures LexLe(x, y) || LexLe(y, x)
    {
      LexTotal(x, y);
    }
    forall x: string, y: string, z: string | LexLe(x, y) && LexLe(y, z)
      ensures LexLe(x, z)
    {
      LexTransitive(x, y, z);
    }
  }

  lemma LexTellsApart(keys: seq<string>)
    ensures ToldApart(keys, LexLe)
  {
    forall i, j | 0 <= i < |keys| && 0 <= j < |keys| && LexLe(keys[i], keys[j]) && LexLe(keys[j], keys[i])
      ensures keys[i] == keys[j]
    {
      LexTotal(keys[i], keys[j]);
    }
  }

  // ----- Canonical form -----

  predicate DistinctNames(properties: seq<Property>) {
    forall i, j :: 0 <= i < j < |properties| ==> properties[i].key != properties[j].key
  }

  /** Property names are distinct in every object. */
  predicate IsJson(j: Json) {
    match j
    case Array(items) => forall i :: 0 <= i < |items| ==> IsJson(items[i])
    case Object(properties) =>
      DistinctNames(properties) && forall i :: 0 <= i < |properties| ==> IsJson(properties[i].value)
    case _ => true
  }

  function Keys(properties: seq<Property>): (keys: seq<string>)
    ensures |keys| == |properties|
    ensures forall i :: 0 <= i < |keys| ==> keys[i] == properties[i].key
  {
    seq(|properties|, i requires 0 <= i < |properties| => properties[i].key)
  }

  /** Where the property named `key` is. */
  function Find(properties: seq<Property>, key: string): (i: nat)
    requires key in Keys(properties)
    ensures i < |properties| && properties[i].key == key
  {
    if properties[0].key == key then 0
    else
      assert key in Keys(properties[1..]) by {
        var i :| 0 <= i < |properties| && Keys(properties)[i] == key;
        assert Keys(properties[1..])[i - 1] == key;
      }
      1 + Find(properties[1..], key)
  }

  function SortedKeys(properties: seq<Property>): (keys: seq<string>)
    ensures forall key :: key in keys <==> key in Keys(properties)
  {
    SortKeepsMembers(Keys(properties), LexLe);
    Sort(Keys(properties), LexLe)
  }

  /** `stableJson`: every object with its properties sorted by key. */
  function StableJson(j: Json): Json {
    match j
    case Array(items) => Array(seq(|items|, i requires 0 <= i < |items| => StableJson(items[i])))
    case Object(properties) =>
      var keys := SortedKeys(properties);
      Object(seq(|keys|, i requires 0 <= i < |keys| =>
        Property(keys[i], StableJson(properties[Find(properties, keys[i])].value))))
    case _ => j
  }

  /** Equal up to the order of object properties. */
  predicate SameUpToOrder(a: Json, b: Json) {
    match (a, b)
    case (Array(x), Array(y)) =>
      |x| == |y| && forall i :: 0 <= i < |x| ==> SameUpToOrder(x[i], y[i])
    case (Object(x), Object(y)) =>
      && (forall i :: 0 <= i < |x| ==>
            exists k :: 0 <= k < |y| && x[i].key == y[k].key && SameUpToOrder(x[i].value, y[k].value))
      && (forall key :: key in Keys(y) ==> key in Keys(x))
    case _ => a == b
  }

  /** Two schemas have the same signature exactly when they are equal up to key order. */
  lemma {:induction false} SignatureIsCanonical(a: Json, b: Json)
    requires IsJson(a) && IsJson(b)
    ensures StableJson(a) == StableJson(b) <==> SameUpToOrder(a, b)
  {
    match (a, b)
    case (Array(x), Array(y)) =>
      forall i | 0 <= i < |x| && i < |y|
        ensures StableJson(x[i]) == StableJson(y[i]) <==> SameUpToOrder(x[i], y[i])
      {
        SignatureIsCanonical(x[i], y[i]);
      }
      ArraysAgree(x, y);
    case (Object(x), Object(y)) =>
      forall i, k | 0 <= i < |x| && 0 <= k < |y|
        ensures StableJson(x[i].value) == StableJson(y[k].value) <==> SameUpToOrder(x[i].value, y[k].value)
      {
        SignatureIsCanonical(x[i].value, y[k].value);
      }
      if StableJson(a) == StableJson(b) {
        SameSignatureSameMembers(x, y);
      }
      if SameUpToOrder(a, b) {
        SameMembersSameSignature(x, y);
      }
    case _ =>
  }

  predicate ArrayStepsAgree(x: seq<Json>, y: seq<Json>) {
    forall i :: 0 <= i < |x| && i < |y| ==> (StableJson(x[i]) == StableJson(y[i]) <==> SameUpToOrder(x[i], y[i]))
  }

  lemma ArraysAgree(x: seq<Json>, y: seq<Json>)
    requires ArrayStepsAgree(x, y)
    ensures StableJson(Array(x)) == StableJson(Array(y)) <==> SameUpToOrder(Array(x), Array(y))
  {
    var p, q := StableJson(Array(x)).items, StableJson(Array(y)).items;
    assert forall i :: 0 <= i < |x| ==> p[i] == StableJson(x[i]);
    assert forall i :: 0 <= i < |y| ==> q[i] == StableJson(y[i]);
  }

  predicate MemberStepsAgree(x: seq<Property>, y: seq<Property>) {
    forall i, k :: 0 <= i < |x| && 0 <= k < |y| ==>
      (StableJson(x[i].value) == StableJson(y[k].value) <==> SameUpToOrder(x[i].value, y[k].value))
  }

  lemma StableMember(properties: seq<Property>, at: nat)
    requires at < |SortedKeys(properties)|
    ensures var key := SortedKeys(properties)[at];
      && StableJson(Object(properties)).Object? && at < |StableJson(Object(properties)).properties|
      && StableJson(Object(properties)).properties[at] == Property(key, StableJson(properties[Find(properties, key)].value))
  {
  }

  lemma SameSignatureSameKeys(x: seq<Property>, y: seq<Property>)
    requires StableJson(Object(x)) == StableJson(Object(y))
    ensures SortedKeys(x) == SortedKeys(y)
  {
    assert |SortedKeys(x)| == |StableJson(Object(x)).properties|;
    assert |SortedKeys(y)| == |StableJson(Object(y)).properties|;
    forall at | 0 <= at < |SortedKeys(x)|
      ensures SortedKeys(x)[at] == SortedKeys(y)[at]
    {
      StableMember(x, at);
      StableMember(y, at);
    }
  }

  lemma SameSignatureSameMembers(x: seq<Property>, y: seq<Property>)
    requires DistinctNames(x) && MemberStepsAgree(x, y)
    requires StableJson(Object(x)) == StableJson(Object(y))
    ensures SameUpToOrder(Object(x), Object(y))
  {
    SameSignatureSameKeys(x, y);
    forall i | 0 <= i < |x|
      ensures exists k :: 0 <= k < |y| && x[i].key == y[k].key && SameUpToOrder(x[i].value, y[k].value)
    {
      var k := MemberOfSame(x, y, i);
      assert x[i].key == y[k].key && SameUpToOrder(x[i].value, y[k].value);
    }
    forall key | key in Keys(y)
      ensures key in Keys(x)
    {
      assert key in SortedKeys(y);
    }
  }

  /** The member of `y` under the key of the `i`-th member of `x`. */
  lemma MemberOfSame(x: seq<Property>, y: seq<Property>, i: nat) returns (k: nat)
    requires DistinctNames(x) && MemberStepsAgree(x, y) && i < |x|
    requires StableJson(Object(x)) == StableJson(Object(y)) && SortedKeys(x) == SortedKeys(y)
    ensures k < |y| && x[i].key == y[k].key && SameUpToOrder(x[i].value, y[k].value)
  {
    assert Keys(x)[i] in SortedKeys(x);
    var at :| 0 <= at < |SortedKeys(x)| && SortedKeys(x)[at] == x[i].key;
    StableMember(x, at);
    StableMember(y, at);
    assert Find(x, x[i].key) == i;
    k := Find(y, x[i].key);
  }

  lemma SameMembersSameSignature(x: seq<Property>, y: seq<Property>)
    requires DistinctNames(x) && DistinctNames(y) && MemberStepsAgree(x, y)
    requires SameUpToOrder(Object(x), Object(y))
    ensures StableJson(Object(x)) == StableJson(Object(y))
  {
    forall key | key in Keys(x)
      ensures key in Keys(y)
    {
      var i := Find(x, key);
      var k :| 0 <= k < |y| && x[i].key == y[k].key;
      assert Keys(y)[k] == key;
    }
    LexIsTotalPreorder();
    LexTellsApart(Keys(x));
    SortForgetsOrder(Keys(x), Keys(y), LexLe);
    var keys := SortedKeys(x);
    var p, q := StableJson(Object(x)).properties, StableJson(Object(y)).properties;
    forall at | 0 <= at < |keys|
      ensures p[at] == q[at]
    {
      assert keys[at] in Keys(x);
      var i := Find(x, keys[at]);
      var k :| 0 <= k < |y| && x[i].key == y[k].key && SameUpToOrder(x[i].value, y[k].value);
      assert Find(y, keys[at]) == k;
      StableMember(x, at);
      StableMember(y, at);
    }
    assert p == q;
  }

  // ----- The registry -----

  /** A schema object: `id` is its identity, `json` its content. */
  datatype Schema = Schema(id: nat, json: Json)
  datatype Registration = Registration(name: string, schema: Schema)

  /** The names registered so far for schemas equal to `json` up to key order. */
  function NamesOf(history: seq<Registration>, json: Json): (names: seq<string>)
    ensures |names| <= |history|
  {
    if history == [] then []
    else
      var last := history[|history| - 1];
      NamesOf(history[..|history| - 1], json) + if SameUpToOrder(last.schema.json, json) then [last.name] else []
  }

  /** The name last given to the schema object `id`. */
  function NameOf(history: seq<Registration>, id: nat): Option<string> {
    if history == [] then None
    else if history[|history| - 1].schema.id == id then Some(history[|history| - 1].name)
    else NameOf(history[..|history| - 1], id)
  }

  /** The name of the one registered schema equal to `json` up to key order, if there is exactly one. */
  function OnlyNameOf(history: seq<Registration>, json: Json): Option<string> {
    var names := NamesOf(history, json);
    if |names| == 1 then Some(names[0]) else None
  }

  function Get<K, V>(m: map<K, V>, key: K): Option<V> {
    if key in m then Some(m[key]) else None
  }

  lemma NamesOfExtended(history: seq<Registration>, next: Registration, json: Json)
    ensures NamesOf(history + [next], json)
         == NamesOf(history, json) + if SameUpToOrder(next.schema.json, json) then [next.name] else []
    ensures NameOf(history + [next], next.schema.id) == Some(next.name)
    ensures forall id :: id != next.schema.id ==> NameOf(history + [next], id) == NameOf(history, id)
  {
    assert (history + [next])[..|history|] == history;
  }

  /** What the three collections hold about one schema. */
  ghost predicate Reflects(bySignature: map<Json, string>, duplicates: set<Json>, history: seq<Registration>, json: Json) {
    && Get(bySignature, StableJson(json)) == OnlyNameOf(history, json)
    && (StableJson(json) in duplicates <==> |NamesOf(history, json)| >= 2)
  }

  /** How one registration changes the names by signature. */
  predicate Registers(
      before: map<Json, string>, beforeDuplicates: set<Json>, after: map<Json, string>, afterDuplicates: set<Json>,
      next: Registration)
  {
    var signature := StableJson(next.schema.json);
    if signature in beforeDuplicates then after == before && afterDuplicates == beforeDuplicates
    else if signature in before then after == before - {signature} && afterDuplicates == beforeDuplicates + {signature}
    else after == before[signature := next.name] && afterDuplicates == beforeDuplicates
  }

  lemma ReflectsExtended(
      before: map<Json, string>, beforeDuplicates: set<Json>, after: map<Json, string>, afterDuplicates: set<Json>,
      history: seq<Registration>, next: Registration, json: Json)
    requires IsJson(json) && IsJson(next.schema.json)
    requires Reflects(before, beforeDuplicates, history, json)
    requires Registers(before, beforeDuplicates, after, afterDuplicates, next)
    ensures Reflects(after, afterDuplicates, history + [next], json)
  {
    NamesOfExtended(history, next, json);
    SignatureIsCanonical(next.schema.json, json);
  }

  ghost predicate NamesObjects(byObject: map<nat, string>, history: seq<Registration>) {
    forall id :: Get(byObject, id) == NameOf(history, id)
  }

  lemma NamesObjectsExtended(byObject: map<nat, string>, history: seq<Registration>, next: Registration)
    requires NamesObjects(byObject, history)
    ensures NamesObjects(byObject[next.schema.id := next.name], history + [next])
  {
    NamesOfExtended(history, next, next.schema.json);
  }

  ghost predicate NamesSignatures(bySignature: map<Json, string>, duplicates: set<Json>, history: seq<Registration>) {
    forall json :: IsJson(json) ==> Reflects(bySignature, duplicates, history, json)
  }

  lemma NamesSignaturesExtended(
      before: map<Json, string>, beforeDuplicates: set<Json>, after: map<Json, string>, afterDuplicates: set<Json>,
      history: seq<Registration>, next: Registration)
    requires IsJson(next.schema.json) && NamesSignatures(before, beforeDuplicates, history)
    requires Registers(before, beforeDuplicates, after, afterDuplicates, next)
    ensures NamesSignatures(after, afterDuplicates, history + [next])
  {
    forall json | IsJson(json)
      ensures Reflects(after, afterDuplicates, history + [next], json)
    {
      ReflectsExtended(before, beforeDuplicates, after, afterDuplicates, history, next, json);
    }
  }

  class Registry {
    var schemaNameByObject: map<nat, string>
    var schemaNameBySignature: map<Json, string>
    var duplicateSchemaSignatures: set<Json>
    ghost var history: seq<Registration>

    ghost predicate Valid()
      reads this
    {
      && NamesObjects(schemaNameByObject, history)
      && NamesSignatures(schemaNameBySignature, duplicateSchemaSignatures, history)
    }

    constructor ()
      ensures Valid() && history == []
    {
      schemaNameByObject, schemaNameBySignature, duplicateSchemaSignatures := map[], map[], {};
      history := [];
    }

    method RegisterNamedSchema(name: string, schema: Schema)
      requires Valid() && IsJson(schema.json)
      modifies this
      ensures Valid() && history == old(history) + [Registration(name, schema)]
    {
      ghost var next := Registration(name, schema);
      NamesObjectsExtended(schemaNameByObject, history, next);
      schemaNameByObject := schemaNameByObject[schema.id := name];
      var signature := StableJson(schema.json);
      if signature in duplicateSchemaSignatures {
      } else if signature in schemaNameBySignature {
        schemaNameBySignature := schemaNameBySignature - {signature};
        duplicateSchemaSignatures := duplicateSchemaSignatures + {signature};
      } else {
        schemaNameBySignature := schemaNameBySignature[signature := name];
      }
      NamesSignaturesExtended(old(schemaNameBySignature), old(duplicateSchemaSignatures),
                              schemaNameBySignature, duplicateSchemaSignatures, history, next);
      history := history + [next];
    }

    /** A schema's own name, or with the fallback the name of the one registered schema equal to it. */
    method NamedSchema(schema: Schema, allowStructuralFallback: bool) returns (name: Option<string>)
      requires Valid() && IsJson(schema.json)
      ensures name == if NameOf(history, schema.id).Some? then NameOf(history, schema.id)
                      else if allowStructuralFallback then OnlyNameOf(history, schema.json)
                      else None
    {
      assert Reflects(schemaNameBySignature, duplicateSchemaSignatures, history, schema.json);
      if schema.id in schemaNameByObject {
        return Some(schemaNameByObject[schema.id]);
      }
      if !allowStructuralFallback {
        return None;
      }
      var signature := StableJson(schema.json);
      return if signature in schemaNameBySignature then Some(schemaNameBySignature[signature]) else None;
    }
  }

  // ----- What the registry answers -----

  /** The registration at `i` is the only one of a schema equal to `json` up to key order. */
  predicate OnlyAt(history: seq<Registration>, json: Json, i: nat)
    requires i < |history|
  {
    forall k :: 0 <= k < |history| ==> (SameUpToOrder(history[k].schema.json, json) <==> k == i)
  }

  lemma {:induction false} NoNames(history: seq<Registration>, json: Json)
    ensures NamesOf(history, json) == [] <==>
              forall k :: 0 <= k < |history| ==> !SameUpToOrder(history[k].schema.json, json)
  {
    if history != [] {
      var front := history[..|history| - 1];
      NoNames(front, json);
      assert forall k :: 0 <= k < |front| ==> history[k] == front[k];
    }
  }

  lemma OnlyAtLast(history: seq<Registration>, json: Json)
    requires history != [] && SameUpToOrder(history[|history| - 1].schema.json, json)
    ensures OnlyAt(history, json, |history| - 1) <==> NamesOf(history[..|history| - 1], json) == []
    ensures forall i :: 0 <= i < |history| - 1 ==> !OnlyAt(history, json, i)
  {
    NoNames(history[..|history| - 1], json);
  }

  lemma OnlyAtEarlier(history: seq<Registration>, json: Json)
    requires history != [] && !SameUpToOrder(history[|history| - 1].schema.json, json)
    ensures !OnlyAt(history, json, |history| - 1)
    ensures forall i :: 0 <= i < |history| - 1 ==> (OnlyAt(history, json, i) <==> OnlyAt(history[..|history| - 1], json, i))
  {
  }

  /** The structural name is given exactly to schemas registered exactly once. */
  lemma {:induction false} OnlyNameIff(history: seq<Registration>, json: Json)
    ensures OnlyNameOf(history, json).Some? <==> exists i :: 0 <= i < |history| && OnlyAt(history, json, i)
    ensures forall i :: 0 <= i < |history| && OnlyAt(history, json, i) ==> OnlyNameOf(history, json) == Some(history[i].name)
  {
    if history != [] {
      var last := |history| - 1;
      if SameUpToOrder(history[last].schema.json, json) {
        OnlyAtLast(history, json);
      } else {
        OnlyAtEarlier(history, json);
        OnlyNameIff(history[..last], json);
        forall i | 0 <= i < last && OnlyAt(history[..last], json, i)
          ensures OnlyAt(history, json, i)
        {
        }
      }
    }
  }

  lemma {:induction false} NamesOfJoined(a: seq<Registration>, b: seq<Registration>, json: Json)
    ensures NamesOf(a + b, json) == NamesOf(a, json) + NamesOf(b, json)
  {
    if b == [] {
      assert a + b == a;
    } else {
      var n := |b| - 1;
      NamesOfJoined(a, b[..n], json);
      JoinLast(a, b);
      NamesOfExtended(a + b[..n], b[n], json);
      NamesOfExtended(b[..n], b[n], json);
      ConcatIsAssociative(NamesOf(a, json), NamesOf(b[..n], json), if SameUpToOrder(b[n].schema.json, json) then [b[n].name] else []);
    }
  }

  lemma JoinLast<T>(a: seq<T>, b: seq<T>)
    requires b != []
    ensures a + b == (a + b[..|b| - 1]) + [b[|b| - 1]] && b == b[..|b| - 1] + [b[|b| - 1]]
  {
  }

  lemma NamesWithout(b: seq<Registration>, k: nat, json: Json)
    requires k < |b|
    ensures multiset(NamesOf(b, json)) == multiset(NamesOf(b[..k] + b[k + 1..], json))
                                        + multiset(if SameUpToOrder(b[k].schema.json, json) then [b[k].name] else [])
  {
    assert b == (b[..k] + [b[k]]) + b[k + 1..];
    NamesOfJoined(b[..k], b[k + 1..], json);
    NamesOfJoined(b[..k] + [b[k]], b[k + 1..], json);
    NamesOfExtended(b[..k], b[k], json);
  }

  lemma {:induction false} NamesForgetOrder(a: seq<Registration>, b: seq<Registration>, json: Json)
    requires multiset(a) == multiset(b)
    ensures multiset(NamesOf(a, json)) == multiset(NamesOf(b, json))
  {
    if a == [] {
      assert |multiset(b)| == 0;
    } else {
      var n := |a| - 1;
      assert a[n] in multiset(b);
      var k :| 0 <= k < |b| && b[k] == a[n];
      var rest := RemoveCommon(a, b, k);
      NamesForgetOrder(a[..n], rest, json);
      NamesWithout(b, k, json);
    }
  }

  /** Registering the same schemas in another order gives every schema the same structural name. */
  lemma RegistrationIsOrderFree(a: seq<Registration>, b: seq<Registration>, json: Json)
    requires multiset(a) == multiset(b)
    ensures OnlyNameOf(a, json) == OnlyNameOf(b, json)
  {
    NamesForgetOrder(a, b, json);
    var x, y := NamesOf(a, json), NamesOf(b, json);
    assert |multiset(x)| == |multiset(y)|;
    if |x| == 1 {
      assert x[0] in multiset(y);
    }
  }

  // ----- The canonical form is itself canonical -----

  predicate IsStable(j: Json) {
    IsJson(StableJson(j)) && StableJson(StableJson(j)) == StableJson(j)
  }

  lemma FindIsUnique(properties: seq<Property>, at: nat)
    requires DistinctNames(properties) && at < |properties|
    ensures properties[at].key in Keys(properties) && Find(properties, properties[at].key) == at
  {
    assert Keys(properties)[at] == properties[at].key;
  }

  /** The canonical form of an object has the sorted keys. */
  lemma StableKeys(properties: seq<Property>, stable: seq<Property>)
    requires DistinctNames(properties) && StableJson(Object(properties)) == Object(stable)
    ensures Keys(stable) == SortedKeys(properties) == SortedKeys(stable)
    ensures DistinctNames(stable)
  {
    var keys := SortedKeys(properties);
    LexIsTotalPreorder();
    SortCorrect(Keys(properties), LexLe);
    SortKeepsDistinct(Keys(properties), LexLe);
    SortedIsFixed(keys, LexLe);
    assert Keys(stable) == keys;
    forall i, j | 0 <= i < j < |stable|
      ensures stable[i].key != stable[j].key
    {
      assert keys[i] != keys[j];
    }
  }

  lemma StablePropertyIsStable(properties: seq<Property>, stable: seq<Property>, at: nat)
    requires DistinctNames(properties) && StableJson(Object(properties)) == Object(stable)
    requires forall i :: 0 <= i < |properties| ==> IsStable(properties[i].value)
    requires at < |stable|
    ensures IsJson(stable[at].value) && StableJson(stable[at].value) == stable[at].value
  {
    StableMember(properties, at);
    assert IsStable(properties[Find(properties, SortedKeys(properties)[at])].value);
  }

  /** Canonicalising a property of an object in canonical order again changes nothing. */
  lemma StableMemberStays(stable: seq<Property>, at: nat)
    requires DistinctNames(stable) && Keys(stable) == SortedKeys(stable) && at < |stable|
    requires StableJson(stable[at].value) == stable[at].value
    ensures StableJson(Object(stable)).properties[at] == stable[at]
  {
    StableMember(stable, at);
    FindIsUnique(stable, at);
    assert Keys(stable)[at] == stable[at].key;
  }

  lemma StableObjectStays(stable: seq<Property>)
    requires DistinctNames(stable) && Keys(stable) == SortedKeys(stable)
    requires forall i :: 0 <= i < |stable| ==> StableJson(stable[i].value) == stable[i].value
    ensures StableJson(Object(stable)) == Object(stable)
  {
    forall at | 0 <= at < |stable|
      ensures StableJson(Object(stable)).properties[at] == stable[at]
    {
      StableMemberStays(stable, at);
    }
    assert |StableJson(Object(stable)).properties| == |stable|;
  }

  lemma StableObjectIsStable(properties: seq<Property>)
    requires DistinctNames(properties)
    requires forall i :: 0 <= i < |properties| ==> IsStable(properties[i].value)
    ensures IsStable(Object(properties))
  {
    var stable := StableJson(Object(properties)).properties;
    StableKeys(properties, stable);
    forall at | 0 <= at < |stable|
      ensures IsJson(stable[at].value) && StableJson(stable[at].value) == stable[at].value
    {
      StablePropertyIsStable(properties, stable, at);
    }
    StableObjectStays(stable);
  }

  lemma {:induction false} StableJsonIsStable(j: Json)
    requires IsJson(j)
    ensures IsStable(j)
  {
    match j
    case Array(items) =>
      forall i | 0 <= i < |items|
        ensures IsStable(items[i])
      {
        StableJsonIsStable(items[i]);
      }
      assert StableJson(StableJson(j)).items == StableJson(j).items;
    case Object(properties) =>
      forall i | 0 <= i < |properties|
        ensures IsStable(properties[i].value)
      {
        StableJsonIsStable(properties[i].value);
      }
      StableObjectIsStable(properties);
    case _ =>
  }

  /** `stableJson` changes nothing but the order of properties. */
  lemma StableJsonKeepsContent(j: Json)
    requires IsJson(j)
    ensures SameUpToOrder(j, StableJson(j))
  {
    StableJsonIsStable(j);
    SignatureIsCanonical(j, StableJson(j));
  }

  /** In the canonical form the keys of an object are the object's, in order. */
  lemma StableKeysAreSorted(properties: seq<Property>)
    requires IsJson(Object(properties))
    ensures var stable := StableJson(Object(properties));
      && stable.Object? && Sorted(Keys(stable.properties), LexLe) && |stable.properties| == |properties|
      && forall key :: key in Keys(stable.properties) <==> key in Keys(properties)
  {
    LexIsTotalPreorder();
    SortCorrect(Keys(properties), LexLe);
    SortKeepsLength(Keys(properties), LexLe);
    StableKeys(properties, StableJson(Object(properties)).properties);
  }

  // ----- Equality up to key order, seen from outside -----

  datatype Stop = At(index: nat) | Under(key: string)

  /** What a reader finds at the end of a path into a value. */
  datatype Sight = Nothing | Scalar(value: Json) | ArrayOf(length: nat) | ObjectOf(keys: set<string>)

  function See(j: Json, path: seq<Stop>): Sight {
    if path == [] then
      match j
      case Array(items) => ArrayOf(|items|)
      case Object(properties) => ObjectOf(set key <- Keys(properties))
      case _ => Scalar(j)
    else
      match (j, path[0])
      case (Array(items), At(i)) => if i < |items| then See(items[i], path[1..]) else Nothing
      case (Object(properties), Under(key)) =>
        if key in Keys(properties) then See(properties[Find(properties, key)].value, path[1..]) else Nothing
      case _ => Nothing
  }

  /** Every path shows the same in both. */
  ghost predicate LookAlike(a: Json, b: Json) {
    forall path :: See(a, path) == See(b, path)
  }

  lemma {:induction false} SameLooksAlike(a: Json, b: Json, path: seq<Stop>)
    requires IsJson(a) && IsJson(b) && SameUpToOrder(a, b)
    ensures See(a, path) == See(b, path)
    decreases |path|
  {
    match (a, b)
    case (Array(x), Array(y)) =>
      if path != [] && path[0].At? && path[0].index < |x| {
        SameLooksAlike(x[path[0].index], y[path[0].index], path[1..]);
      }
    case (Object(x), Object(y)) =>
      SameKeys(x, y);
      if path != [] && path[0].Under? && path[0].key in Keys(x) {
        var i := Find(x, path[0].key);
        var k :| 0 <= k < |y| && x[i].key == y[k].key && SameUpToOrder(x[i].value, y[k].value);
        FindIsUnique(y, k);
        SameLooksAlike(x[i].value, y[k].value, path[1..]);
      }
    case _ =>
  }

  lemma SameKeys(x: seq<Property>, y: seq<Property>)
    requires SameUpToOrder(Object(x), Object(y))
    ensures forall key :: key in Keys(x) <==> key in Keys(y)
  {
    forall key | key in Keys(x)
      ensures key in Keys(y)
    {
      var i := Find(x, key);
      var k :| 0 <= k < |y| && x[i].key == y[k].key;
      assert Keys(y)[k] == key;
    }
  }

  lemma ItemsLookAlike(x: seq<Json>, y: seq<Json>, i: nat)
    requires LookAlike(Array(x), Array(y))
    ensures |x| == |y| && (i < |x| ==> LookAlike(x[i], y[i]))
  {
    assert See(Array(x), []) == See(Array(y), []);
    if i < |x| {
      forall path
        ensures See(x[i], path) == See(y[i], path)
      {
        assert See(Array(x), [At(i)] + path) == See(Array(y), [At(i)] + path);
        assert ([At(i)] + path)[1..] == path;
      }
    }
  }

  lemma KeysLookAlike(x: seq<Property>, y: seq<Property>)
    requires LookAlike(Object(x), Object(y))
    ensures forall key :: key in Keys(x) <==> key in Keys(y)
  {
    var p, q := set key <- Keys(x), set key <- Keys(y);
    assert See(Object(x), []) == ObjectOf(p) && See(Object(y), []) == ObjectOf(q);
    assert p == q;
    assert forall key :: key in Keys(x) <==> key in p;
  }

  lemma MembersLookAlike(x: seq<Property>, y: seq<Property>, i: nat, k: nat)
    requires DistinctNames(x) && DistinctNames(y) && LookAlike(Object(x), Object(y))
    requires i < |x| && k < |y| && x[i].key == y[k].key
    ensures LookAlike(x[i].value, y[k].value)
  {
    FindIsUnique(x, i);
    FindIsUnique(y, k);
    var stop := Under(x[i].key);
    forall path
      ensures See(x[i].value, path) == See(y[k].value, path)
    {
      assert See(Object(x), [stop] + path) == See(Object(y), [stop] + path);
      assert ([stop] + path)[1..] == path;
    }
  }

  /** The other object has the same member, up to key order. */
  predicate HasTwin(p: Property, others: seq<Property>) {
    exists k :: 0 <= k < |others| && p.key == others[k].key && SameUpToOrder(p.value, others[k].value)
  }

  lemma TwinAt(p: Property, others: seq<Property>, k: nat)
    requires k < |others| && p.key == others[k].key && SameUpToOrder(p.value, others[k].value)
    ensures HasTwin(p, others)
  {
  }

  lemma TwinsAreSame(x: seq<Property>, y: seq<Property>)
    requires forall i :: 0 <= i < |x| ==> HasTwin(x[i], y)
    requires forall key :: key in Keys(y) ==> key in Keys(x)
    ensures SameUpToOrder(Object(x), Object(y))
  {
    forall i | 0 <= i < |x|
      ensures exists k :: 0 <= k < |y| && x[i].key == y[k].key && SameUpToOrder(x[i].value, y[k].value)
    {
      assert HasTwin(x[i], y);
      var k :| 0 <= k < |y| && x[i].key == y[k].key && SameUpToOrder(x[i].value, y[k].value);
    }
    assert forall i :: 0 <= i < |x| ==>
      exists k :: 0 <= k < |y| && x[i].key == y[k].key && SameUpToOrder(x[i].value, y[k].value);
    assert forall key :: key in Keys(y) ==> key in Keys(x);
  }

  lemma {:induction false} AlikeIsSame(a: Json, b: Json)
    requires IsJson(a) && IsJson(b) && LookAlike(a, b)
    ensures SameUpToOrder(a, b)
    decreases a, 1
  {
    assert See(a, []) == See(b, []);
    match (a, b)
    case (Array(x), Array(y)) =>
      forall i | 0 <= i < |x|
        ensures SameUpToOrder(x[i], y[i])
      {
        ItemsLookAlike(x, y, i);
        AlikeIsSame(x[i], y[i]);
      }
    case (Object(x), Object(y)) =>
      AlikeObjectsAreSame(x, y);
    case _ =>
  }

  lemma {:induction false} AlikeObjectsAreSame(x: seq<Property>, y: seq<Property>)
    requires IsJson(Object(x)) && IsJson(Object(y)) && LookAlike(Object(x), Object(y))
    ensures SameUpToOrder(Object(x), Object(y))
    decreases Object(x), 0
  {
    KeysLookAlike(x, y);
    forall i | 0 <= i < |x|
      ensures HasTwin(x[i], y)
    {
      assert Keys(x)[i] == x[i].key;
      var k := Find(y, x[i].key);
      MembersLookAlike(x, y, i, k);
      AlikeIsSame(x[i].value, y[k].value);
      TwinAt(x[i], y, k);
    }
    TwinsAreSame(x, y);
  }

  /** Two values are equal up to key order exactly when every path finds the same in both. */
  lemma SameUpToOrderIff(a: Json, b: Json)
    requires IsJson(a) && IsJson(b)
    ensures SameUpToOrder(a, b) <==> LookAlike(a, b)
  {
    if SameUpToOrder(a, b) {
      forall path
        ensures See(a, path) == See(b, path)
      {
        SameLooksAlike(a, b, path);
      }
    }
    if LookAlike(a, b) {
      AlikeIsSame(a, b);
    }
  }
}
