/** What a client can rely on: which queries fail and how, and how large an answer is. */
module GraphqlProperties {
  import opened GraphqlFragments
  import opened GraphqlHandler
  import opened GraphqlSpec
  import opened JsonValues
  import opened Options
  import opened Orders

  // Failure depends on the schema alone

  /** One name resolution: of an object, or of a scalar in the members of its enclosing entity. */
  datatype Lookup =
    | OfObject(name: string)
    | OfMember(members: set<string>, name: string)

  predicate Resolves(schema: Schema, lookup: Lookup) {
    match lookup
    case OfObject(name) => name in schema
    case OfMember(members, name) => name in members
  }

  function LookupError(lookup: Lookup): GqlError {
    match lookup
    case OfObject(name) => ObjectNotFound(name)
    case OfMember(_, name) => FieldNotFound(name)
  }

  /** All lookups of a selection set in depth-first order; below an unknown object there are none. */
  function Lookups(schema: Schema, members: set<string>, fields: seq<Field>, i: nat): seq<Lookup>
    decreases fields, 0, |fields| - i
  {
    if i >= |fields| then []
    else FieldLookups(schema, members, fields[i]) + Lookups(schema, members, fields, i + 1)
  }

  function FieldLookups(schema: Schema, members: set<string>, field: Field): seq<Lookup>
    decreases field, 1, 0
  {
    match field
    case Scalar(_, _) => [OfMember(members, field.Key())]
    case Object(name, _, fields) =>
      [OfObject(name)] + if name in schema then Lookups(schema, schema[name].members, fields, 0) else []
  }

  function FirstFailure(schema: Schema, lookups: seq<Lookup>): Option<GqlError> {
    if lookups == [] then None
    else if !Resolves(schema, lookups[0]) then Some(LookupError(lookups[0]))
    else FirstFailure(schema, lookups[1..])
  }

  lemma {:induction false} FirstFailureOfConcat(schema: Schema, a: seq<Lookup>, b: seq<Lookup>)
    ensures FirstFailure(schema, a + b)
         == if FirstFailure(schema, a).Some? then FirstFailure(schema, a) else FirstFailure(schema, b)
  {
    if a == [] {
      assert a + b == b;
    } else {
      FirstFailureOfConcat(schema, a[1..], b);
      assert (a + b)[1..] == a[1..] + b;
    }
  }

  /** A query fails with the first lookup that fails in depth-first order. */
  lemma {:induction false} ErrorIsFirstFailure(schema: Schema, members: set<string>, fields: seq<Field>, i: nat)
    ensures FirstError(schema, members, fields, i) == FirstFailure(schema, Lookups(schema, members, fields, i))
    decreases fields, 0, |fields| - i
  {
    if i < |fields| {
      FieldErrorIsFirstFailure(schema, members, fields[i]);
      ErrorIsFirstFailure(schema, members, fields, i + 1);
      FirstFailureOfConcat(schema, FieldLookups(schema, members, fields[i]), Lookups(schema, members, fields, i + 1));
    }
  }

  lemma {:induction false} FieldErrorIsFirstFailure(schema: Schema, members: set<string>, field: Field)
    ensures FieldError(schema, members, field) == FirstFailure(schema, FieldLookups(schema, members, field))
    decreases field, 1, 0
  {
    if field.Object? && field.name in schema {
      ErrorIsFirstFailure(schema, schema[field.name].members, field.selections, 0);
      var rest := Lookups(schema, schema[field.name].members, field.selections, 0);
      assert ([OfObject(field.name)] + rest)[1..] == rest;
    }
  }

  lemma {:induction false} NoFailure(schema: Schema, lookups: seq<Lookup>)
    ensures FirstFailure(schema, lookups).None? <==> forall lookup | lookup in lookups :: Resolves(schema, lookup)
  {
    if lookups != [] {
      NoFailure(schema, lookups[1..]);
      assert lookups == [lookups[0]] + lookups[1..];
    }
  }

  /** A query succeeds exactly when every object is registered and every scalar names a member. */
  lemma SucceedsIffAllResolve(schema: Schema, members: set<string>, fields: seq<Field>)
    ensures FirstError(schema, members, fields, 0).None? <==>
            forall lookup | lookup in Lookups(schema, members, fields, 0) :: Resolves(schema, lookup)
  {
    ErrorIsFirstFailure(schema, members, fields, 0);
    NoFailure(schema, Lookups(schema, members, fields, 0));
  }

  /** The same entities with the same members, whatever their instances. */
  predicate SameNames(a: Schema, b: Schema) {
    a.Keys == b.Keys && forall name | name in a :: a[name].members == b[name].members
  }

  /** Whether and how a query fails does not depend on the instances. */
  lemma {:induction false} ErrorIgnoresInstances(a: Schema, b: Schema, members: set<string>, fields: seq<Field>, i: nat)
    requires SameNames(a, b)
    ensures FirstError(a, members, fields, i) == FirstError(b, members, fields, i)
    decreases fields, |fields| - i
  {
    if i < |fields| {
      if fields[i].Object? && fields[i].name in a {
        ErrorIgnoresInstances(a, b, a[fields[i].name].members, fields[i].selections, 0);
      }
      ErrorIgnoresInstances(a, b, members, fields, i + 1);
    }
  }

  /** A response carries `error` without `data` when a lookup fails and `data` without `error` otherwise. */
  lemma ResponseKeys(schema: Schema, document: Option<seq<Operation>>)
    ensures var failed := document.None? || DocumentError(schema, document.value, 0).Some?;
            && Response(schema, document).JObj?
            && Response(schema, document).fields.Keys == {if failed then "error" else "data"}
  {
  }

  // First bindings win

  /** Visiting a field gives every object of the builder at most the one response key and changes no other. */
  lemma FieldGainsOneKey(schema: Schema, instances: seq<Instance>, fragment: Fragment, field: Field, item: string)
    requires item in fragment
    ensures item in WithField(schema, instances, fragment, field)
    ensures WithField(schema, instances, fragment, field)[item].Keys == fragment[item].Keys + {field.Key()}
    ensures forall key | key in fragment[item] ::
              WithField(schema, instances, fragment, field)[item][key] == fragment[item][key]
  {
  }

  /** Fields are not merged: a later field under a bound response key has no effect on the answer. */
  lemma LaterFieldIgnored(schema: Schema, instance: Instance, fields: seq<Field>, later: Field)
    requires later.Key() in Keys(fields)
    ensures InstanceObject(schema, instance, fields + [later]) == InstanceObject(schema, instance, fields)
  {
    var keys, values := Keys(fields), Values(schema, instance, fields);
    assert Keys(fields + [later]) == keys + [later.Key()];
    assert Values(schema, instance, fields + [later]) == values + [FieldValue(schema, instance, later)];
    LaterBindingIgnored(keys, values, later.Key(), FieldValue(schema, instance, later));
  }

  lemma LaterBindingIgnored(keys: seq<string>, values: seq<Json>, key: string, value: Json)
    requires |keys| == |values| && key in keys
    ensures FirstBindings(keys + [key], values + [value]) == FirstBindings(keys, values)
  {
    forall k | k in keys
      ensures FirstIndex(keys + [key], k) == FirstIndex(keys, k)
    {
      var j := FirstIndex(keys, k);
      assert (keys + [key])[..j] == keys[..j];
      FirstIndexIs(keys + [key], k, j);
    }
  }

  // The size of an answer

  /** The number of scalar values in a JSON value. */
  ghost function Leaves(j: Json): nat
    decreases j, 1, 0
  {
    match j
    case JArr(items) => LeavesOfItems(items)
    case JObj(fields) => LeavesOfObject(j, fields.Keys)
    case _ => 1
  }

  ghost function LeavesOfItems(items: seq<Json>): nat
    decreases items, 2, 0
  {
    if items == [] then 0 else Leaves(items[0]) + LeavesOfItems(items[1..])
  }

  ghost function LeavesOfObject(j: Json, keys: set<string>): nat
    requires j.JObj? && keys <= j.fields.Keys
    decreases j, 0, |keys|
  {
    if keys == {} then 0
    else
      var k :| k in keys;
      Leaves(j.fields[k]) + LeavesOfObject(j, keys - {k})
  }

  lemma {:induction false} LeavesOfKey(j: Json, keys: set<string>, k: string)
    requires j.JObj? && keys <= j.fields.Keys && k in keys
    ensures LeavesOfObject(j, keys) == Leaves(j.fields[k]) + LeavesOfObject(j, keys - {k})
    decreases |keys|
  {
    var c :| c in keys && LeavesOfObject(j, keys) == Leaves(j.fields[c]) + LeavesOfObject(j, keys - {c});
    if c != k {
      LeavesOfKey(j, keys - {c}, k);
      LeavesOfKey(j, keys - {k}, c);
      assert keys - {c} - {k} == keys - {k} - {c};
    }
  }

  predicate Distinct(keys: seq<string>) {
    forall i, j | 0 <= i < j < |keys| :: keys[i] != keys[j]
  }

  function KeysFrom(keys: seq<string>, i: nat): set<string> {
    set j | i <= j < |keys| :: keys[j]
  }

  /** With distinct keys an object has the leaves of all its values. */
  lemma {:induction false} LeavesOfBindings(keys: seq<string>, values: seq<Json>, i: nat)
    requires |keys| == |values| && Distinct(keys) && i <= |keys|
    ensures KeysFrom(keys, i) <= FirstBindings(keys, values).Keys
    ensures LeavesOfObject(JObj(FirstBindings(keys, values)), KeysFrom(keys, i)) == LeavesOfItems(values[i..])
    decreases |keys| - i
  {
    BindingsOfDistinct(keys, values);
    if i < |keys| {
      LeavesOfBindings(keys, values, i + 1);
      KeysFromStep(keys, i);
      LeavesOfKey(JObj(FirstBindings(keys, values)), KeysFrom(keys, i), keys[i]);
      assert values[i..][1..] == values[i + 1..];
    }
  }

  lemma BindingsOfDistinct(keys: seq<string>, values: seq<Json>)
    requires |keys| == |values| && Distinct(keys)
    ensures FirstBindings(keys, values).Keys == KeysFrom(keys, 0)
    ensures forall i | 0 <= i < |keys| :: keys[i] in FirstBindings(keys, values)
    ensures forall i | 0 <= i < |keys| :: FirstBindings(keys, values)[keys[i]] == values[i]
  {
    forall i | 0 <= i < |keys|
      ensures keys[i] in keys && FirstIndex(keys, keys[i]) == i
    {
      assert keys[FirstIndex(keys, keys[i])] == keys[i];
    }
  }

  lemma KeysFromStep(keys: seq<string>, i: nat)
    requires Distinct(keys) && i < |keys|
    ensures keys[i] in KeysFrom(keys, i)
    ensures KeysFrom(keys, i) - {keys[i]} == KeysFrom(keys, i + 1)
  {
  }

  predicate IsScalar(j: Json) {
    !j.JArr? && !j.JObj?
  }

  predicate ScalarFields(instance: Instance) {
    forall member | member in instance.fields :: IsScalar(instance.fields[member])
  }

  /** Instances have distinct hashes and their fields hold scalars. */
  predicate WellKeyed(schema: Schema) {
    forall name | name in schema ::
      && Distinct(InstanceKeySeq(schema[name].instances))
      && (forall i | 0 <= i < |schema[name].instances| :: ScalarFields(schema[name].instances[i]))
  }

  function InstanceKeySeq(instances: seq<Instance>): seq<string> {
    seq(|instances|, i requires 0 <= i < |instances| => instances[i].key)
  }

  /** Response keys are distinct in every selection set and every object is registered. */
  predicate DistinctKeys(schema: Schema, fields: seq<Field>)
    decreases fields
  {
    && Distinct(Keys(fields))
    && forall i | 0 <= i < |fields| ::
         fields[i].Object? ==> fields[i].name in schema && DistinctKeys(schema, fields[i].selections)
  }

  /**
   The sum, over the scalar selections, of `weight` times the product of the instance counts of
   the entities on the path to the selection.
   */
  function WeightedScalars(schema: Schema, weight: nat, fields: seq<Field>, i: nat): nat
    decreases fields, |fields| - i
  {
    if i >= |fields| then 0
    else
      (match fields[i]
       case Scalar(_, _) => weight
       case Object(name, _, selections) =>
         if name in schema then WeightedScalars(schema, weight * |schema[name].instances|, selections, 0) else 0)
      + WeightedScalars(schema, weight, fields, i + 1)
  }

  lemma {:induction false} WeightFactor(schema: Schema, weight: nat, factor: nat, fields: seq<Field>, i: nat)
    ensures WeightedScalars(schema, weight * factor, fields, i) == weight * WeightedScalars(schema, factor, fields, i)
    decreases fields, |fields| - i
  {
    if i < |fields| {
      WeightFactor(schema, weight, factor, fields, i + 1);
      var rest := WeightedScalars(schema, factor, fields, i + 1);
      if fields[i].Object? && fields[i].name in schema {
        var n := |schema[fields[i].name].instances|;
        WeightFactor(schema, weight, factor * n, fields[i].selections, 0);
        Associate(weight, factor, n);
        Distribute(weight, WeightedScalars(schema, factor * n, fields[i].selections, 0), rest);
      } else {
        Distribute(weight, if fields[i].Scalar? then factor else 0, rest);
      }
    }
  }

  lemma Associate(a: nat, b: nat, c: nat)
    ensures a * b * c == a * (b * c)
  {
  }

  lemma Distribute(a: nat, b: nat, c: nat)
    ensures a * (b + c) == a * b + a * c
    ensures a * 0 == 0
  {
  }

  /** The size law: an instance's object has as many leaves as its scalar selections weigh. */
  lemma {:induction false} SizeLaw(schema: Schema, instance: Instance, fields: seq<Field>)
    requires WellKeyed(schema) && ScalarFields(instance) && DistinctKeys(schema, fields)
    ensures Leaves(JObj(InstanceObject(schema, instance, fields))) == WeightedScalars(schema, 1, fields, 0)
    decreases fields, 6, 0
  {
    var keys, values := Keys(fields), Values(schema, instance, fields);
    LeavesOfBindings(keys, values, 0);
    BindingsOfDistinct(keys, values);
    assert values[0..] == values;
    SizeOfValues(schema, instance, fields, 0);
  }

  lemma {:induction false} SizeOfValues(schema: Schema, instance: Instance, fields: seq<Field>, i: nat)
    requires WellKeyed(schema) && ScalarFields(instance) && DistinctKeys(schema, fields) && i <= |fields|
    ensures LeavesOfItems(Values(schema, instance, fields)[i..]) == WeightedScalars(schema, 1, fields, i)
    decreases fields, 5, |fields| - i
  {
    if i < |fields| {
      SizeOfValues(schema, instance, fields, i + 1);
      SizeOfValue(schema, instance, fields[i]);
      var values := Values(schema, instance, fields);
      assert values[i..][1..] == values[i + 1..];
      assert values[i] == FieldValue(schema, instance, fields[i]);
    }
  }

  lemma {:induction false} SizeOfValue(schema: Schema, instance: Instance, field: Field)
    requires WellKeyed(schema) && ScalarFields(instance)
    requires field.Object? ==> field.name in schema && DistinctKeys(schema, field.selections)
    ensures Leaves(FieldValue(schema, instance, field))
         == if field.Scalar? then 1 else WeightedScalars(schema, |schema[field.name].instances|, field.selections, 0)
    decreases field, 4, 0
  {
    if field.Object? {
      SizeOfObject(schema, field.name, field.selections);
    }
  }

  lemma {:induction false} SizeOfObject(schema: Schema, name: string, fields: seq<Field>)
    requires WellKeyed(schema) && name in schema && DistinctKeys(schema, fields)
    ensures Leaves(ObjectValue(schema, name, fields))
         == WeightedScalars(schema, |schema[name].instances|, fields, 0)
    decreases fields, 7, 0
  {
    var instances := schema[name].instances;
    WeightFactor(schema, |instances|, 1, fields, 0);
    if instances == [] {
    } else if |instances| == 1 {
      SizeLaw(schema, instances[0], fields);
    } else {
      var items := ObjectValue(schema, name, fields).items;
      KeyCount(instances);
      forall i | 0 <= i < |items|
        ensures Leaves(items[i]) == WeightedScalars(schema, 1, fields, 0)
      {
        var key := SortedStrings(InstanceKeys(instances))[i];
        assert key in InstanceKeys(instances);
        InstanceAtIsOne(instances, key);
        SizeLaw(schema, InstanceAt(instances, key), fields);
      }
      EqualItems(items, WeightedScalars(schema, 1, fields, 0));
    }
  }

  lemma {:induction false} EqualItems(items: seq<Json>, n: nat)
    requires forall i | 0 <= i < |items| :: Leaves(items[i]) == n
    ensures LeavesOfItems(items) == |items| * n
  {
    if items != [] {
      EqualItems(items[1..], n);
    }
  }

  lemma {:induction false} InstanceAtIsOne(instances: seq<Instance>, key: string)
    requires key in InstanceKeys(instances)
    ensures InstanceAt(instances, key) in instances
  {
    if instances[0].key != key {
      var i :| 0 <= i < |instances| && instances[i].key == key;
      assert instances[1..][i - 1].key == key;
      InstanceAtIsOne(instances[1..], key);
    }
  }

  lemma {:induction false} KeyCount(instances: seq<Instance>)
    requires Distinct(InstanceKeySeq(instances))
    ensures |InstanceKeys(instances)| == |instances|
  {
    if instances != [] {
      var rest := instances[..|instances| - 1];
      assert InstanceKeySeq(rest) == InstanceKeySeq(instances)[..|rest|];
      KeyCount(rest);
      var last := instances[|rest|].key;
      assert InstanceKeys(instances) == InstanceKeys(rest) + {last} by {
        assert forall i | 0 <= i < |rest| :: rest[i] == instances[i];
      }
      assert last !in InstanceKeys(rest) by {
        assert forall i | 0 <= i < |rest| :: InstanceKeySeq(instances)[i] == rest[i].key;
        assert InstanceKeySeq(instances)[|rest|] == last;
      }
    }
  }
}
