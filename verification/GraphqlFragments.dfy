/**
 What the query machine does to the JSON fragment of one builder, and why folding over the
 fields of a selection set gives what the recursive evaluator gives.
 */
module GraphqlFragments {
  import opened GraphqlSpec
  import opened JsonValues
  import opened Options
  import opened Orders

  /** A builder's JSON fragment: one object for each instance key. */
  type Fragment = map<string, map<string, Json>>

  function InstancesOf(entity: Option<Entity>): seq<Instance> {
    if entity.Some? then entity.value.instances else []
  }

  function MembersOf(entity: Option<Entity>): set<string> {
    if entity.Some? then entity.value.members else {}
  }

  function EmptyFragment(instances: seq<Instance>): Fragment {
    map key | key in InstanceKeys(instances) :: map[]
  }

  /** Every object of the fragment gains the field's value under its response key unless the key is bound. */
  function WithField(schema: Schema, instances: seq<Instance>, fragment: Fragment, field: Field): Fragment {
    map key | key in fragment ::
      Emplace(fragment[key], field.Key(), FieldValue(schema, InstanceAt(instances, key), field))
  }

  /** The fields from position `i` on, one after the other. */
  function WithFields(schema: Schema, instances: seq<Instance>, fragment: Fragment, fields: seq<Field>, i: nat)
    : Fragment
    decreases |fields| - i
  {
    if i >= |fields| then fragment
    else WithFields(schema, instances, WithField(schema, instances, fragment, fields[i]), fields, i + 1)
  }

  /** `getFragment` of a builder over an entity. */
  function Shape(instances: seq<Instance>, fragment: Fragment): Json
    requires fragment.Keys == InstanceKeys(instances)
  {
    if instances == [] then JObj(map[])
    else if |instances| == 1 then
      assert instances[0].key in fragment;
      JObj(fragment[BackKey(fragment)])
    else
      var keys := SortedStrings(fragment.Keys);
      assert forall i | 0 <= i < |keys| :: keys[i] in fragment.Keys;
      JArr(ItemsAt(fragment, keys))
  }

  function ItemsAt(fragment: Fragment, keys: seq<string>): seq<Json>
    requires forall i | 0 <= i < |keys| :: keys[i] in fragment
  {
    seq(|keys|, i requires 0 <= i < |keys| => JObj(fragment[keys[i]]))
  }

  // From the fold to the recursive evaluator

  lemma {:induction false} WithFieldsAt(schema: Schema, instances: seq<Instance>, fragment: Fragment,
                                        fields: seq<Field>, i: nat, key: string)
    requires i <= |fields| && key in fragment
    ensures key in WithFields(schema, instances, fragment, fields, i)
    ensures WithFields(schema, instances, fragment, fields, i)[key]
         == EmplaceFrom(fragment[key], Keys(fields), Values(schema, InstanceAt(instances, key), fields), i)
    decreases |fields| - i
  {
    if i < |fields| {
      WithFieldsAt(schema, instances, WithField(schema, instances, fragment, fields[i]), fields, i + 1, key);
    }
  }

  lemma {:induction false} WithFieldsKeys(schema: Schema, instances: seq<Instance>, fragment: Fragment,
                                          fields: seq<Field>, i: nat)
    ensures WithFields(schema, instances, fragment, fields, i).Keys == fragment.Keys
    decreases |fields| - i
  {
    if i < |fields| {
      WithFieldsKeys(schema, instances, WithField(schema, instances, fragment, fields[i]), fields, i + 1);
    }
  }

  /** Folding over the fields gives each instance its object; what was bound before stays. */
  lemma WithFieldsMeaning(schema: Schema, instances: seq<Instance>, fragment: Fragment, fields: seq<Field>)
    ensures WithFields(schema, instances, fragment, fields, 0)
         == map key | key in fragment :: InstanceObject(schema, InstanceAt(instances, key), fields) + fragment[key]
  {
    WithFieldsKeys(schema, instances, fragment, fields, 0);
    forall key | key in fragment
      ensures WithFields(schema, instances, fragment, fields, 0)[key]
           == InstanceObject(schema, InstanceAt(instances, key), fields) + fragment[key]
    {
      WithFieldsAt(schema, instances, fragment, fields, 0, key);
      var keys, values := Keys(fields), Values(schema, InstanceAt(instances, key), fields);
      EmplaceMeaning(fragment[key], keys, values, 0);
      assert keys[0..] == keys && values[0..] == values;
    }
  }

  /** The fragment of a child builder when its fields have been visited. */
  function FinishedFragment(schema: Schema, instances: seq<Instance>, fields: seq<Field>): Fragment {
    map key | key in InstanceKeys(instances) :: InstanceObject(schema, InstanceAt(instances, key), fields)
  }

  lemma FinishedFragmentMeaning(schema: Schema, instances: seq<Instance>, fields: seq<Field>)
    ensures WithFields(schema, instances, EmptyFragment(instances), fields, 0)
         == FinishedFragment(schema, instances, fields)
  {
    var empty := EmptyFragment(instances);
    WithFieldsKeys(schema, instances, empty, fields, 0);
    var w := WithFields(schema, instances, empty, fields, 0);
    forall key | key in w
      ensures w[key] == InstanceObject(schema, InstanceAt(instances, key), fields)
    {
      FinishedAt(schema, instances, fields, key);
    }
  }

  lemma FinishedAt(schema: Schema, instances: seq<Instance>, fields: seq<Field>, key: string)
    requires key in InstanceKeys(instances)
    ensures key in WithFields(schema, instances, EmptyFragment(instances), fields, 0)
    ensures WithFields(schema, instances, EmptyFragment(instances), fields, 0)[key]
         == InstanceObject(schema, InstanceAt(instances, key), fields)
  {
    WithFieldsAt(schema, instances, EmptyFragment(instances), fields, 0, key);
    EmplaceFromEmpty(Keys(fields), Values(schema, InstanceAt(instances, key), fields));
  }

  /** A finished child fragment has the shape and the contents of the recursive evaluator. */
  lemma ShapeMeaning(schema: Schema, name: string, fields: seq<Field>)
    requires name in schema
    ensures Shape(schema[name].instances, FinishedFragment(schema, schema[name].instances, fields))
         == ObjectValue(schema, name, fields)
  {
    var instances := schema[name].instances;
    var finished := FinishedFragment(schema, instances, fields);
    if instances == [] {
    } else if |instances| == 1 {
      assert instances[0].key in InstanceKeys(instances);
      assert finished.Keys == {instances[0].key};
      BackKeyOfSingle(finished, instances[0].key);
    } else {
      ShapeOfMany(schema, name, fields);
    }
  }

  lemma ShapeOfMany(schema: Schema, name: string, fields: seq<Field>)
    requires name in schema && |schema[name].instances| > 1
    ensures Shape(schema[name].instances, FinishedFragment(schema, schema[name].instances, fields))
         == ObjectValue(schema, name, fields)
  {
    var instances := schema[name].instances;
    var finished := FinishedFragment(schema, instances, fields);
    assert finished.Keys == InstanceKeys(instances);
    var keys := SortedStrings(InstanceKeys(instances));
    var left, right := Shape(instances, finished).items, ObjectValue(schema, name, fields).items;
    assert |left| == |right| == |keys|;
    forall i | 0 <= i < |keys|
      ensures left[i] == right[i]
    {
      assert keys[i] in keys;
    }
  }

  lemma InstanceKeysStep(instances: seq<Instance>, i: nat)
    requires i < |instances|
    ensures InstanceKeys(instances[..i + 1]) == InstanceKeys(instances[..i]) + {instances[i].key}
  {
    var a, b := instances[..i], instances[..i + 1];
    assert forall j | 0 <= j < i :: a[j] == b[j];
    assert b[i] == instances[i];
  }

  /** The fragment after the first `n` instances have been given the member's value. */
  function PartlySupplemented(before: Fragment, instances: seq<Instance>, fieldName: string, n: nat): Fragment
    requires n <= |instances|
  {
    map key | key in before ::
      if key in InstanceKeys(instances[..n])
      then Emplace(before[key], fieldName, InstanceAt(instances, key).GetField(fieldName))
      else before[key]
  }

  lemma PartlySupplementedStep(before: Fragment, instances: seq<Instance>, fieldName: string, n: nat)
    requires n < |instances| && before.Keys == InstanceKeys(instances)
    ensures instances[n].key in before
    ensures var now := PartlySupplemented(before, instances, fieldName, n);
            PartlySupplemented(before, instances, fieldName, n + 1)
            == now[instances[n].key := Emplace(now[instances[n].key], fieldName, instances[n].GetField(fieldName))]
  {
    InstanceKeysStep(instances, n);
    InstanceAtPrefix(instances, n);
  }

  /** An instance whose key did not occur before is the one its key denotes. */
  lemma {:induction false} InstanceAtPrefix(instances: seq<Instance>, n: nat)
    requires n < |instances|
    ensures instances[n].key in InstanceKeys(instances)
    ensures instances[n].key !in InstanceKeys(instances[..n]) ==>
      InstanceAt(instances, instances[n].key) == instances[n]
  {
    if n > 0 {
      InstanceAtPrefix(instances[1..], n - 1);
      var key := instances[n].key;
      if key !in InstanceKeys(instances[..n]) {
        assert instances[..n][0] == instances[0];
        assert instances[1..][..n - 1] == instances[..n][1..];
      }
    }
  }

  /** The fragment after the child has been pushed to the objects at `keys`. */
  function PartlyPushed(before: Fragment, keys: seq<string>, fieldName: string, child: Json): Fragment {
    map key | key in before :: if key in keys then Emplace(before[key], fieldName, child) else before[key]
  }

  lemma PartlyPushedStep(before: Fragment, keys: seq<string>, i: nat, fieldName: string, child: Json)
    requires i < |keys| && keys[i] in before && forall j | 0 <= j < i :: keys[j] != keys[i]
    ensures PartlyPushed(before, keys[..i + 1], fieldName, child)
         == PartlyPushed(before, keys[..i], fieldName, child)[keys[i] := Emplace(before[keys[i]], fieldName, child)]
    ensures PartlyPushed(before, keys[..i], fieldName, child)[keys[i]] == before[keys[i]]
  {
    assert keys[..i + 1] == keys[..i] + [keys[i]];
  }

  function Pushed(before: Fragment, fieldName: string, child: Json): Fragment {
    map key | key in before :: Emplace(before[key], fieldName, child)
  }

  lemma AllPushed(before: Fragment, keys: seq<string>, fieldName: string, child: Json)
    requires forall key :: key in before.Keys <==> key in keys
    ensures PartlyPushed(before, keys[..|keys|], fieldName, child) == Pushed(before, fieldName, child)
  {
    assert keys[..|keys|] == keys;
  }

  lemma AllSupplemented(before: Fragment, instances: seq<Instance>, fieldName: string)
    requires before.Keys == InstanceKeys(instances)
    ensures PartlySupplemented(before, instances, fieldName, |instances|)
         == WithField(map[], instances, before, Scalar(fieldName, None))
  {
    assert instances[..|instances|] == instances;
  }

  /** A scalar is looked up by its response key alone. */
  lemma WithScalar(schema: Schema, instances: seq<Instance>, fragment: Fragment, field: Field)
    requires field.Scalar?
    ensures WithField(schema, instances, fragment, field)
         == WithField(map[], instances, fragment, Scalar(field.Key(), None))
  {
  }

  /** Pushing the child's finished fragment to the parent's objects is the parent's step for that field. */
  lemma WithObject(schema: Schema, instances: seq<Instance>, fragment: Fragment, field: Field)
    requires field.Object? && field.name in schema
    ensures var children := schema[field.name].instances;
            WithField(schema, instances, fragment, field)
            == Pushed(fragment, field.Key(), Shape(children, FinishedFragment(schema, children, field.selections)))
  {
    ShapeMeaning(schema, field.name, field.selections);
  }
}
