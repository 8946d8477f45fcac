/** What the JSON of an answer says: which value stands under which key of which item. */
module GraphqlAnswers {
  import opened GraphqlFragments
  import opened GraphqlHandler
  import opened GraphqlSpec
  import opened JsonValues
  import opened Options
  import opened Orders

  // What an object and a list show

  ghost predicate HasKey(field: Field, key: string) {
    field.alias == Some(key) || (field.alias == None && field.name == key)
  }

  /** No earlier field has the same key. */
  ghost predicate IsFirst(fields: seq<Field>, i: int, key: string) {
    0 <= i < |fields| && HasKey(fields[i], key) && forall j | 0 <= j < i :: !HasKey(fields[j], key)
  }

  /** The value of one member; `N/A` stands for a missing one. */
  ghost predicate ShowsMember(has: map<string, Json>, key: string, value: Json) {
    (key in has ==> value == has[key]) && (key !in has ==> value == JStr("N/A"))
  }

  /** The object of one instance: for every key the first field that has it, and nothing else. */
  ghost predicate IsObject(schema: Schema, has: map<string, Json>, fields: seq<Field>, shown: map<string, Json>)
    decreases fields, 0
  {
    && (forall key | key in shown :: exists i :: IsFirst(fields, i, key))
    && (forall i, key | IsFirst(fields, i, key) ::
          && key in shown
          && match fields[i]
             case Scalar(_, _) => ShowsMember(has, key, shown[key])
             case Object(name, _, selections) => IsAnswer(schema, name, selections, shown[key]))
  }

  /** Instance `i` is the first one with its key. */
  ghost predicate IsShown(instances: seq<Instance>, i: int) {
    0 <= i < |instances| && forall j | 0 <= j < i :: instances[j].key != instances[i].key
  }

  /** Where an instance stands in an array: after those with smaller keys. */
  ghost function Place(instances: seq<Instance>, i: int): nat
    requires 0 <= i < |instances|
  {
    |Earlier(set j | 0 <= j < |instances| :: instances[j].key, instances[i].key)|
  }

  /** The answer for an entity: an empty object, one object, or an array of the objects of all instances by key. */
  ghost predicate IsAnswer(schema: Schema, name: string, fields: seq<Field>, value: Json)
    decreases fields, 1
  {
    && name in schema
    && var instances := schema[name].instances;
       && (|instances| == 0 ==> value == JObj(map[]))
       && (|instances| == 1 ==> value.JObj? && IsObject(schema, instances[0].fields, fields, value.fields))
       && (|instances| > 1 ==>
             && value.JArr? && |value.items| == |set j | 0 <= j < |instances| :: instances[j].key|
             && forall i | IsShown(instances, i) ::
                  && Place(instances, i) < |value.items| && value.items[Place(instances, i)].JObj?
                  && IsObject(schema, instances[i].fields, fields, value.items[Place(instances, i)].fields))
  }

  // Failure

  /** Every scalar names a member of its entity and every object an entity. */
  ghost predicate Admits(schema: Schema, members: set<string>, fields: seq<Field>)
    decreases fields
  {
    forall i | 0 <= i < |fields| ::
      match fields[i]
      case Scalar(name, alias) => forall key | HasKey(fields[i], key) :: key in members
      case Object(name, _, selections) => name in schema && Admits(schema, schema[name].members, selections)
  }

  ghost predicate AdmitsFrom(schema: Schema, members: set<string>, fields: seq<Field>, i: nat) {
    forall j | i <= j < |fields| :: FieldError(schema, members, fields[j]).None?
  }

  lemma {:induction false} NoErrorFrom(schema: Schema, members: set<string>, fields: seq<Field>, i: nat)
    ensures FirstError(schema, members, fields, i).None? <==> AdmitsFrom(schema, members, fields, i)
    decreases |fields| - i
  {
    if i < |fields| {
      NoErrorFrom(schema, members, fields, i + 1);
    }
  }

  lemma {:induction false} NoErrorIsAdmitted(schema: Schema, members: set<string>, fields: seq<Field>)
    ensures FirstError(schema, members, fields, 0).None? <==> Admits(schema, members, fields)
    decreases fields
  {
    NoErrorFrom(schema, members, fields, 0);
    forall i | 0 <= i < |fields|
      ensures FieldError(schema, members, fields[i]).None? <==>
        match fields[i]
        case Scalar(name, alias) => forall key | HasKey(fields[i], key) :: key in members
        case Object(name, _, selections) => name in schema && Admits(schema, schema[name].members, selections)
    {
      if fields[i].Object? && fields[i].name in schema {
        NoErrorIsAdmitted(schema, schema[fields[i].name].members, fields[i].selections);
      } else if fields[i].Scalar? {
        assert HasKey(fields[i], fields[i].Key());
      }
    }
  }

  /** The error of the first field that is not admitted: of its own name, or of the first one below it. */
  ghost predicate FailsWith(schema: Schema, members: set<string>, fields: seq<Field>, error: GqlError)
    decreases fields
  {
    exists i :: IsFailure(schema, members, fields, i) &&
      match fields[i]
      case Scalar(_, _) => exists key :: HasKey(fields[i], key) && error == FieldNotFound(key)
      case Object(name, _, selections) =>
        if name in schema then FailsWith(schema, schema[name].members, selections, error)
        else error == ObjectNotFound(name)
  }

  ghost predicate IsFailure(schema: Schema, members: set<string>, fields: seq<Field>, i: int) {
    0 <= i < |fields| && Admits(schema, members, fields[..i]) && !Admits(schema, members, [fields[i]])
  }

  lemma {:induction false} FirstErrorAt(schema: Schema, members: set<string>, fields: seq<Field>, i: nat)
    ensures FirstError(schema, members, fields, i).Some? ==>
      exists k :: i <= k < |fields| && FirstError(schema, members, fields, i) == FieldError(schema, members, fields[k])
        && forall j | i <= j < k :: FieldError(schema, members, fields[j]).None?
    decreases |fields| - i
  {
    if i < |fields| && FieldError(schema, members, fields[i]).None? {
      FirstErrorAt(schema, members, fields, i + 1);
    }
  }

  lemma OneIsAdmitted(schema: Schema, members: set<string>, field: Field)
    ensures Admits(schema, members, [field]) <==> FieldError(schema, members, field).None?
  {
    NoErrorIsAdmitted(schema, members, [field]);
    NoErrorFrom(schema, members, [field], 0);
    assert [field][0] == field;
  }

  /** A selection set that is not admitted fails with the error of the first name that does not exist. */
  lemma {:induction false} ErrorMeaning(schema: Schema, members: set<string>, fields: seq<Field>)
    requires FirstError(schema, members, fields, 0).Some?
    ensures FailsWith(schema, members, fields, FirstError(schema, members, fields, 0).value)
    decreases fields
  {
    FirstErrorAt(schema, members, fields, 0);
    var i :| 0 <= i < |fields| && FirstError(schema, members, fields, 0) == FieldError(schema, members, fields[i])
      && forall j | 0 <= j < i :: FieldError(schema, members, fields[j]).None?;
    NoErrorFrom(schema, members, fields[..i], 0);
    NoErrorIsAdmitted(schema, members, fields[..i]);
    OneIsAdmitted(schema, members, fields[i]);
    assert IsFailure(schema, members, fields, i);
    if fields[i].Scalar? {
      assert HasKey(fields[i], fields[i].Key());
    } else if fields[i].name in schema {
      ErrorMeaning(schema, schema[fields[i].name].members, fields[i].selections);
    }
  }

  // The evaluator

  lemma KeyIsFirst(fields: seq<Field>, i: int, key: string)
    ensures IsFirst(fields, i, key) <==> key in Keys(fields) && FirstIndex(Keys(fields), key) == i
  {
    var keys := Keys(fields);
    forall j | 0 <= j < |fields|
      ensures keys[j] == key <==> HasKey(fields[j], key)
    {
    }
    if IsFirst(fields, i, key) {
      assert keys[i] == key && key !in keys[..i];
      FirstIndexIs(keys, key, i);
    }
    if key in keys && FirstIndex(keys, key) == i {
      forall j | 0 <= j < i
        ensures keys[j] != key
      {
        assert keys[..i][j] == keys[j];
      }
    }
  }

  lemma BoundAtFirst(schema: Schema, instance: Instance, fields: seq<Field>, i: int, key: string)
    requires IsFirst(fields, i, key)
    ensures var shown := InstanceObject(schema, instance, fields);
      key in shown && shown[key] == FieldValue(schema, instance, fields[i])
  {
    KeyIsFirst(fields, i, key);
    assert Values(schema, instance, fields)[i] == FieldValue(schema, instance, fields[i]);
  }

  lemma {:induction false} ObjectMeaning(schema: Schema, instance: Instance, members: set<string>, fields: seq<Field>)
    requires Admits(schema, members, fields)
    ensures IsObject(schema, instance.fields, fields, InstanceObject(schema, instance, fields))
    decreases fields, 0
  {
    var shown := InstanceObject(schema, instance, fields);
    forall key | key in shown
      ensures exists i :: IsFirst(fields, i, key)
    {
      KeyIsFirst(fields, FirstIndex(Keys(fields), key), key);
    }
    forall i, key | IsFirst(fields, i, key)
      ensures key in shown && shown[key] == FieldValue(schema, instance, fields[i])
    {
      BoundAtFirst(schema, instance, fields, i, key);
    }
    forall i, key | IsFirst(fields, i, key) && fields[i].Object?
      ensures IsAnswer(schema, fields[i].name, fields[i].selections, shown[key])
    {
      AnswerMeaning(schema, fields[i].name, fields[i].selections);
    }
  }

  lemma {:induction false} AnswerMeaning(schema: Schema, name: string, fields: seq<Field>)
    requires name in schema && Admits(schema, schema[name].members, fields)
    ensures IsAnswer(schema, name, fields, ObjectValue(schema, name, fields))
    decreases fields, 1
  {
    var instances, value := schema[name].instances, ObjectValue(schema, name, fields);
    if |instances| == 1 {
      ObjectMeaning(schema, instances[0], schema[name].members, fields);
    }
    if |instances| > 1 {
      forall i | IsShown(instances, i)
        ensures Place(instances, i) < |value.items|
        ensures value.items[Place(instances, i)] == JObj(InstanceObject(schema, instances[i], fields))
        ensures IsObject(schema, instances[i].fields, fields, InstanceObject(schema, instances[i], fields))
      {
        ItemAt(schema, name, fields, i);
        ObjectMeaning(schema, instances[i], schema[name].members, fields);
      }
    }
  }

  lemma ItemAt(schema: Schema, name: string, fields: seq<Field>, i: nat)
    requires name in schema && |schema[name].instances| > 1 && IsShown(schema[name].instances, i)
    ensures var instances, items := schema[name].instances, ObjectValue(schema, name, fields).items;
      && Place(instances, i) < |items|
      && items[Place(instances, i)] == JObj(InstanceObject(schema, instances[i], fields))
  {
    var instances := schema[name].instances;
    var key, sorted := instances[i].key, SortedStrings(InstanceKeys(instances));
    assert key in sorted;
    var j :| 0 <= j < |sorted| && sorted[j] == key;
    SortedAtRank(InstanceKeys(instances), j);
    InstanceAtPrefix(instances, i);
  }

  // The response

  /** What is asked for can be answered: queries without variables, over names that exist. */
  ghost predicate Answerable(schema: Schema, operations: seq<Operation>) {
    forall i | 0 <= i < |operations| ::
      operations[i].kind == "query" && !operations[i].hasVariables
      && Admits(schema, {}, Fields(operations[i].selections))
  }

  lemma {:induction false} ErrorsOfDocument(schema: Schema, operations: seq<Operation>, i: nat)
    ensures DocumentError(schema, operations, i).None? <==>
      forall j | i <= j < |operations| :: OperationError(schema, operations[j]).None?
    decreases |operations| - i
  {
    if i < |operations| {
      ErrorsOfDocument(schema, operations, i + 1);
    }
  }

  lemma AnswerableHasNoError(schema: Schema, operations: seq<Operation>)
    ensures DocumentError(schema, operations, 0).None? <==> Answerable(schema, operations)
  {
    ErrorsOfDocument(schema, operations, 0);
    forall i | 0 <= i < |operations|
      ensures OperationError(schema, operations[i]).None? <==>
        operations[i].kind == "query" && !operations[i].hasVariables
        && Admits(schema, {}, Fields(operations[i].selections))
    {
      NoErrorIsAdmitted(schema, {}, Fields(operations[i].selections));
    }
  }

  /** What a client gets: `data` with the answer to the last query, or `error`. */
  ghost predicate IsResponse(schema: Schema, document: Option<seq<Operation>>, response: Json) {
    && response.JObj?
    && if document.Some? && Answerable(schema, document.value)
       then response.fields.Keys == {"data"} && response.fields["data"].JObj?
            && IsData(schema, document.value, response.fields["data"].fields)
       else response.fields.Keys == {"error"}
            && exists e: GqlError :: response.fields["error"] == e.ToJson() && IsErrorOf(schema, document, e)
  }

  /** The error of the first operation that cannot be answered. */
  ghost predicate IsErrorOf(schema: Schema, document: Option<seq<Operation>>, e: GqlError) {
    match document
    case None => e == InvalidAst
    case Some(operations) =>
      exists i :: IsFirstFailure(schema, operations, i) && OperationFails(schema, operations[i], e)
  }

  ghost predicate IsFirstFailure(schema: Schema, operations: seq<Operation>, i: int) {
    0 <= i < |operations| && Answerable(schema, operations[..i]) && !Answerable(schema, [operations[i]])
  }

  ghost predicate OperationFails(schema: Schema, operation: Operation, e: GqlError) {
    && (operation.kind != "query" ==> e == OperationNotSupported(operation.kind))
    && (operation.kind == "query" && operation.hasVariables ==> e.OperationNotSupported?)
    && (operation.kind == "query" && !operation.hasVariables ==>
          FailsWith(schema, {}, Fields(operation.selections), e))
  }

  lemma {:induction false} DocumentErrorAt(schema: Schema, operations: seq<Operation>, i: nat)
    requires DocumentError(schema, operations, i).Some?
    ensures exists k ::
      i <= k < |operations| && DocumentError(schema, operations, i) == OperationError(schema, operations[k])
      && forall j | i <= j < k :: OperationError(schema, operations[j]).None?
    decreases |operations| - i
  {
    if OperationError(schema, operations[i]).None? {
      DocumentErrorAt(schema, operations, i + 1);
    }
  }

  lemma DocumentErrorMeaning(schema: Schema, operations: seq<Operation>)
    requires DocumentError(schema, operations, 0).Some?
    ensures IsErrorOf(schema, Some(operations), DocumentError(schema, operations, 0).value)
  {
    DocumentErrorAt(schema, operations, 0);
    var e := DocumentError(schema, operations, 0).value;
    var i :| 0 <= i < |operations| && Some(e) == OperationError(schema, operations[i])
      && forall j | 0 <= j < i :: OperationError(schema, operations[j]).None?;
    ErrorsOfDocument(schema, operations[..i], 0);
    AnswerableHasNoError(schema, operations[..i]);
    OneIsAnswerable(schema, operations[i]);
    if operations[i].kind == "query" && !operations[i].hasVariables {
      ErrorMeaning(schema, {}, Fields(operations[i].selections));
    }
    assert IsFirstFailure(schema, operations, i);
  }

  lemma OneIsAnswerable(schema: Schema, operation: Operation)
    ensures Answerable(schema, [operation]) <==> OperationError(schema, operation).None?
  {
    ErrorsOfDocument(schema, [operation], 0);
    AnswerableHasNoError(schema, [operation]);
    assert [operation][0] == operation;
  }

  ghost predicate IsData(schema: Schema, operations: seq<Operation>, data: map<string, Json>) {
    if operations == [] then data == map[]
    else
      && data.Keys == {"query"} && data["query"].JObj?
      && IsObject(schema, map[], Fields(operations[|operations| - 1].selections), data["query"].fields)
  }

  /**
   End to end: from the response through the keys of objects and the positions of arrays down to the members of every
   instance.
   */
  lemma ResponseMeaning(schema: Schema, document: Option<seq<Operation>>)
    ensures IsResponse(schema, document, Response(schema, document))
  {
    if document.Some? {
      var operations := document.value;
      AnswerableHasNoError(schema, operations);
      if Answerable(schema, operations) && operations != [] {
        var last := operations[|operations| - 1];
        ObjectMeaning(schema, Instance("query", map[]), {}, Fields(last.selections));
      }
      if !Answerable(schema, operations) {
        DocumentErrorMeaning(schema, operations);
      }
    }
  }
}
