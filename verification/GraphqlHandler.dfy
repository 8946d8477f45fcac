/**
 The query machine of `graphql_handler.cpp`: builders linked to their parents, a visitor that
 pushes a builder when it enters an object field and merges it into the parent when it leaves,
 and the router that turns a parsed document into a response.
 */
module GraphqlHandler {
  import opened EntityManagers
  import opened GraphqlFragments
  import opened GraphqlSpec
  import opened JsonValues
  import opened Options
  import opened Orders

  class GqlObjectBuild {
    const name: string
    const entityManager: EntityManager?
    ghost const entityObject: Option<Entity>
    const parent: GqlObjectBuild?
    var alias: Option<string>
    var fragment: Fragment

    ghost predicate Valid()
      reads this
    {
      match entityObject
      case None => entityManager == null && parent == null && fragment.Keys == {name}
      case Some(entity) =>
        && entityManager != null && parent != null
        && name in entityManager.schema && entityManager.schema[name] == entity
        && fragment.Keys == InstanceKeys(entity.instances)
    }

    constructor Root(objectName: string)
      ensures Valid() && name == objectName && entityObject == None && entityManager == null
      ensures fragment == map[objectName := map[]]
    {
      name, entityManager, entityObject, parent, alias := objectName, null, None, null, None;
      fragment := map[objectName := map[]];
    }

    constructor (objectName: string, manager: EntityManager, ghost entity: Entity, parentBuilder: GqlObjectBuild)
      requires manager.Valid() && objectName in manager.schema && manager.schema[objectName] == entity
      modifies manager
      ensures Valid() && name == objectName && entityObject == Some(entity) && parent == parentBuilder && alias == None
      ensures fragment == EmptyFragment(entity.instances) && entityManager == manager
      ensures manager.Valid()
    {
      name, entityManager, entityObject, parent, alias := objectName, manager, Some(entity), parentBuilder, None;
      fragment := map[];
      new;
      var instances := manager.GetInstances(objectName);
      for i := 0 to |instances|
        invariant alias == None && manager.Valid()
        invariant fragment == map key | key in InstanceKeys(instances[..i]) :: map[]
      {
        InstanceKeysStep(instances, i);
        fragment := fragment[instances[i].key := map[]];
      }
      assert instances[..|instances|] == instances;
    }

    method SetAlias(newAlias: string)
      modifies this`alias
      ensures alias == Some(newAlias)
    {
      alias := Some(newAlias);
    }

    function GetFieldName(): string
      reads this
    {
      if alias.Some? then alias.value else name
    }

    /** A scalar field: the value of the member of that name in every instance. */
    method SupplementField(fieldName: string) returns (error: Option<GqlError>)
      requires Valid() && entityObject.Some? && entityManager.Valid()
      modifies this`fragment, entityManager
      ensures Valid() && entityManager.Valid()
      ensures error == if fieldName in entityObject.value.members then None else Some(FieldNotFound(fieldName))
      ensures error.Some? ==> fragment == old(fragment)
      ensures error.None? ==>
                fragment == WithField(map[], entityObject.value.instances, old(fragment), Scalar(fieldName, None))
    {
      if !entityManager.HasMember(name, fieldName) {
        return Some(FieldNotFound(fieldName));
      }
      ghost var before := fragment;
      var instances := entityManager.GetInstances(name);
      for i := 0 to |instances|
        invariant entityManager.Valid()
        invariant fragment == PartlySupplemented(before, instances, fieldName, i)
      {
        var instance := instances[i];
        assert instance.key in InstanceKeys(instances);
        PartlySupplementedStep(before, instances, fieldName, i);
        fragment := fragment[instance.key := Emplace(fragment[instance.key], fieldName, instance.GetField(fieldName))];
      }
      AllSupplemented(before, instances, fieldName);
      return None;
    }

    /** A finished child fragment is pushed to every object of this fragment. */
    method SupplementChild(fieldName: string, child: Json)
      requires Valid()
      modifies this`fragment
      ensures Valid()
      ensures fragment == Pushed(old(fragment), fieldName, child)
    {
      PushToItems(SortedStrings(fragment.Keys), fieldName, child);
    }

    /** The loop over the items of the fragment, whose keys are given in iteration order. */
    method PushToItems(keys: seq<string>, fieldName: string, child: Json)
      requires forall key :: key in fragment.Keys <==> key in keys
      requires forall i, j | 0 <= i < j < |keys| :: keys[i] != keys[j]
      modifies this`fragment
      ensures fragment == Pushed(old(fragment), fieldName, child)
    {
      ghost var before := fragment;
      for i := 0 to |keys|
        invariant fragment == PartlyPushed(before, keys[..i], fieldName, child)
      {
        assert keys[i] in keys;
        PartlyPushedStep(before, keys, i, fieldName, child);
        fragment := fragment[keys[i] := Emplace(fragment[keys[i]], fieldName, child)];
      }
      AllPushed(before, keys, fieldName, child);
    }

    method GetFragment() returns (result: Json)
      requires Valid() && (entityManager != null ==> entityManager.Valid())
      modifies entityManager
      ensures entityManager != null ==> entityManager.Valid()
      ensures entityObject.None? ==> result == JObj(fragment[name])
      ensures entityObject.Some? ==> result == Shape(entityObject.value.instances, fragment)
    {
      result := JObj(map[]);
      if entityManager == null {
        BackKeyOfSingle(fragment, name);
        return JObj(fragment[BackKey(fragment)]);
      }
      var instances := entityManager.GetInstances(name);
      if |instances| == 1 {
        assert instances[0].key in fragment;
        result := JObj(fragment[BackKey(fragment)]);
      } else {
        instances := entityManager.GetInstances(name);
        if |instances| > 1 {
          var keys := SortedStrings(fragment.Keys);
          assert forall i | 0 <= i < |keys| :: keys[i] in fragment.Keys;
          var items := CollectItems(keys);
          result := JArr(items);
        }
      }
    }

    /** The loop that copies the items of the fragment into an array. */
    method CollectItems(keys: seq<string>) returns (items: seq<Json>)
      requires forall i | 0 <= i < |keys| :: keys[i] in fragment
      ensures items == ItemsAt(fragment, keys)
    {
      items := [];
      for i := 0 to |keys|
        invariant |items| == i
        invariant forall j | 0 <= j < i :: items[j] == JObj(fragment[keys[j]])
      {
        items := items + [JObj(fragment[keys[i]])];
      }
    }

    method PushFragmentToParent()
      requires Valid() && (parent != null ==> parent.Valid()) && (entityManager != null ==> entityManager.Valid())
      modifies (if parent == null then {} else {parent})`fragment, entityManager
      ensures parent != null ==> parent.Valid()
      ensures entityManager != null ==> entityManager.Valid()
      ensures parent != null && parent != this ==>
                parent.fragment == Pushed(old(parent.fragment), GetFieldName(),
                                          Shape(entityObject.value.instances, fragment))
    {
      if parent == null {
        return;
      }
      var child := GetFragment();
      parent.SupplementChild(GetFieldName(), child);
    }
  }

  /**
   The visitor of one query operation. `chain` is the current builder followed by its parents up
   to the root.
   */
  class GqlQueryVisitor {
    const entityManager: EntityManager
    ghost const schema: Schema := entityManager.schema
    var fragmentBuilder: GqlObjectBuild
    ghost var chain: seq<GqlObjectBuild>

    ghost predicate Valid()
      reads this, chain, entityManager
    {
      && chain != [] && chain[0] == fragmentBuilder
      && entityManager.Valid()
      && (forall i | 0 <= i < |chain| ::
            chain[i].Valid() && (chain[i].entityManager == null || chain[i].entityManager == entityManager))
      && (forall i, j | 0 <= i < |chain| && 0 <= j < |chain| && j == i + 1 :: chain[i].parent == chain[j])
      && (forall i, j | 0 <= i < j < |chain| :: chain[i] != chain[j])
      && chain[|chain| - 1].parent == null
    }

    constructor (manager: EntityManager)
      requires manager.Valid()
      ensures Valid() && fresh(chain) && entityManager == manager && |chain| == 1
      ensures fragmentBuilder.entityObject == None && fragmentBuilder.fragment == map["query" := map[]]
      ensures fragmentBuilder.name == "query"
    {
      entityManager := manager;
      var root := new GqlObjectBuild.Root("query");
      fragmentBuilder := root;
      chain := [root];
    }

    /** Entering a field. */
    method VisitField(selection: Selection, ghost field: Field) returns (error: Option<GqlError>)
      requires Valid() && selection.IsField() && field == selection.ToField()
      requires field.Scalar? ==> fragmentBuilder.entityObject.Some?
      modifies this, fragmentBuilder`fragment, entityManager
      ensures Valid()
      ensures field.Scalar? ==> chain == old(chain)
      ensures field.Scalar? ==> error == FieldError(schema, MembersOf(fragmentBuilder.entityObject), field)
      ensures field.Scalar? && error.None? ==>
                fragmentBuilder.fragment == WithField(schema, InstancesOf(fragmentBuilder.entityObject),
                                                      old(fragmentBuilder.fragment), field)
      ensures field.Object? ==> unchanged(old(fragmentBuilder))
      ensures field.Object? ==> error == if field.name in schema then None else Some(ObjectNotFound(field.name))
      ensures field.Object? && error.Some? ==> chain == old(chain)
      ensures field.Object? && error.None? ==> EnteredBuilder(field, old(chain)) && fresh(fragmentBuilder)
    {
      match selection
      case ObjectField(name, alias, _) =>
        if !entityManager.HasEntity(name) {
          return Some(ObjectNotFound(name));
        }
        PushBuilder(name, alias, field);
        return None;
      case ScalarField(name, alias) =>
        WithScalar(schema, InstancesOf(fragmentBuilder.entityObject), fragmentBuilder.fragment, field);
        error := fragmentBuilder.SupplementField(if alias.Some? then alias.value else name);
    }

    /** A new builder for the object `field` becomes the current one. */
    method PushBuilder(name: string, alias: Option<string>, ghost field: Field)
      requires Valid() && field.Object? && field.name == name && field.alias == alias && name in schema
      modifies this, entityManager
      ensures Valid() && EnteredBuilder(field, old(chain)) && fresh(fragmentBuilder)
    {
      var child := new GqlObjectBuild(name, entityManager, schema[name], fragmentBuilder);
      if alias.Some? {
        child.SetAlias(alias.value);
      }
      fragmentBuilder := child;
      chain := [child] + chain;
    }

    /** The current builder is a new one for the object `field`, on top of the chain `below`. */
    ghost predicate EnteredBuilder(field: Field, below: seq<GqlObjectBuild>)
      requires field.Object? && field.name in schema
      reads this, fragmentBuilder
    {
      && chain == [fragmentBuilder] + below
      && fragmentBuilder.entityObject == Some(schema[field.name])
      && fragmentBuilder.GetFieldName() == field.Key()
      && fragmentBuilder.fragment == EmptyFragment(schema[field.name].instances)
    }

    /** Leaving a field. */
    method EndVisitField(selection: Selection, ghost field: Field)
      requires Valid() && selection.IsField() && field == selection.ToField()
      requires field.Object? ==> |chain| > 1
      modifies if field.Object? then {this, entityManager} else {}
      modifies (if field.Object? then {fragmentBuilder.parent} else {})`fragment
      ensures Valid()
      ensures field.Object? ==> chain == old(chain)[1..]
      ensures field.Object? ==>
                fragmentBuilder.fragment == Pushed(old(chain[1].fragment), old(fragmentBuilder.GetFieldName()),
                  Shape(InstancesOf(old(fragmentBuilder).entityObject), old(fragmentBuilder.fragment)))
    {
      if selection.ObjectField? {
        PopBuilder();
      }
    }

    /** The finished fragment goes to the parent. */
    method MergeIntoParent()
      requires Valid() && |chain| > 1
      modifies {chain[1]}`fragment, entityManager
      ensures Valid()
      ensures chain[1].fragment == Pushed(old(chain[1].fragment), fragmentBuilder.GetFieldName(),
                Shape(InstancesOf(fragmentBuilder.entityObject), fragmentBuilder.fragment))
    {
      assert chain[0].parent == chain[1] && chain[1].Valid();
      fragmentBuilder.PushFragmentToParent();
    }

    /** The finished fragment goes to the parent, which becomes the current builder. */
    method PopBuilder()
      requires Valid() && |chain| > 1
      modifies this, {fragmentBuilder.parent}`fragment, entityManager
      ensures Valid() && chain == old(chain)[1..]
      ensures fragmentBuilder.fragment == Pushed(old(chain[1].fragment), old(fragmentBuilder.GetFieldName()),
                Shape(InstancesOf(old(fragmentBuilder).entityObject), old(fragmentBuilder.fragment)))
    {
      assert chain[0].parent == chain[1];
      MergeIntoParent();
      fragmentBuilder := fragmentBuilder.parent;
      chain := chain[1..];
    }

    /** The destructor: the fragment of the current builder becomes the document. */
    method Finish() returns (document: Json)
      requires Valid()
      modifies entityManager
      ensures entityManager.Valid()
      ensures fragmentBuilder.entityObject.None? ==> document == JObj(fragmentBuilder.fragment[fragmentBuilder.name])
    {
      document := fragmentBuilder.GetFragment();
    }
  }

  /** The parser library's walk over one field: enter it, visit its selections, leave it. */
  method AcceptField(visitor: GqlQueryVisitor, selection: Selection, ghost field: Field)
    returns (error: Option<GqlError>)
    requires visitor.Valid() && selection.IsField() && field == selection.ToField()
    requires visitor.fragmentBuilder.entityObject.None? ==> field.Object?
    modifies visitor, visitor.fragmentBuilder`fragment, visitor.entityManager
    ensures visitor.Valid()
    ensures var builder := old(visitor.fragmentBuilder);
            && error == FieldError(visitor.schema, MembersOf(builder.entityObject), field)
            && (error.None? ==> visitor.chain == old(visitor.chain))
            && (error.None? ==> builder.fragment == WithField(visitor.schema, InstancesOf(builder.entityObject),
                                                              old(visitor.fragmentBuilder.fragment), field))
    decreases selection, 1
  {
    error := visitor.VisitField(selection, field);
    if error.Some? {
      return;
    }
    if selection.ObjectField? {
      error := AcceptObject(visitor, selection, field, visitor.chain[1..]);
      if error.Some? {
        return;
      }
    }
    visitor.EndVisitField(selection, field);
  }

  /** The selections of an object field that has just been entered from the chain `below`. */
  method AcceptObject(visitor: GqlQueryVisitor, selection: Selection, ghost field: Field,
                      ghost below: seq<GqlObjectBuild>) returns (error: Option<GqlError>)
    requires selection.ObjectField? && field == selection.ToField()
    requires visitor.Valid() && field.name in visitor.schema && below != []
    requires visitor.EnteredBuilder(field, below)
    modifies visitor, visitor.fragmentBuilder`fragment, visitor.entityManager
    ensures visitor.Valid()
    ensures var instances := visitor.schema[field.name].instances;
            && error == FieldError(visitor.schema, {}, field)
            && (error.None? ==> visitor.chain == [old(visitor.fragmentBuilder)] + below)
            && (error.None? ==> visitor.fragmentBuilder.parent == below[0])
            && (error.None? ==> visitor.fragmentBuilder.entityObject == Some(visitor.schema[field.name]))
            && (error.None? ==> visitor.fragmentBuilder.GetFieldName() == field.Key())
            && (error.None? ==> forall fragment: Fragment, outer: seq<Instance> ::
                  WithField(visitor.schema, outer, fragment, field)
                  == Pushed(fragment, field.Key(), Shape(instances, visitor.fragmentBuilder.fragment)))
    decreases selection, 0
  {
    error := AcceptSelections(visitor, selection.selections);
    if error.None? {
      assert visitor.chain[0].parent == visitor.chain[1];
      ghost var schema := visitor.schema;
      FinishedFragmentMeaning(schema, schema[field.name].instances, field.selections);
      forall fragment: Fragment, outer: seq<Instance> {
        WithObject(schema, outer, fragment, field);
      }
    }
  }

  /** What walking over fields one after the other does, starting with the current builder `builder`. */
  twostate predicate Walked(visitor: GqlQueryVisitor, builder: GqlObjectBuild, fields: seq<Field>,
                            new error: Option<GqlError>)
    reads visitor, builder
  {
    var schema := visitor.schema;
    && error == FirstError(schema, MembersOf(builder.entityObject), fields, 0)
    && (error.None? ==> visitor.chain == old(visitor.chain))
    && (error.None? ==> builder.fragment == WithFields(schema, InstancesOf(builder.entityObject),
                                                       old(builder.fragment), fields, 0))
  }

  /** The walk over one selection: an inline fragment stands for its selections, a fragment spread for nothing. */
  method AcceptSelection(visitor: GqlQueryVisitor, selection: Selection) returns (error: Option<GqlError>)
    requires visitor.Valid()
    requires visitor.fragmentBuilder.entityObject.None? ==>
               forall field | field in selection.ToFields() :: field.Object?
    modifies visitor, visitor.fragmentBuilder`fragment, visitor.entityManager
    ensures visitor.Valid() && Walked(visitor, old(visitor.fragmentBuilder), selection.ToFields(), error)
    decreases selection, 2
  {
    match selection
    case InlineFragment(selections) =>
      error := AcceptSelections(visitor, selections);
    case FragmentSpread(_) =>
      error := None;
    case _ =>
      ghost var field := selection.ToField();
      assert field in selection.ToFields();
      SingleField(visitor.schema, MembersOf(visitor.fragmentBuilder.entityObject),
                  InstancesOf(visitor.fragmentBuilder.entityObject), visitor.fragmentBuilder.fragment, field);
      error := AcceptField(visitor, selection, field);
  }

  /** The walk over a selection set. */
  method AcceptSelections(visitor: GqlQueryVisitor, selections: seq<Selection>) returns (error: Option<GqlError>)
    requires visitor.Valid()
    requires visitor.fragmentBuilder.entityObject.None? ==> forall field | field in Fields(selections) :: field.Object?
    modifies visitor, visitor.fragmentBuilder`fragment, visitor.entityManager
    ensures visitor.Valid() && Walked(visitor, old(visitor.fragmentBuilder), Fields(selections), error)
    decreases selections, 3
  {
    ghost var builder, schema := visitor.fragmentBuilder, visitor.schema;
    ghost var before := builder.fragment;
    ghost var members, instances := MembersOf(builder.entityObject), InstancesOf(builder.entityObject);
    ghost var fields, rest := Fields(selections), Fields(selections);
    var i := 0;
    assert selections[0..] == selections;
    while i < |selections|
      invariant i <= |selections| && rest == Fields(selections[i..])
      invariant visitor.Valid() && visitor.chain == old(visitor.chain)
      invariant forall field | field in rest :: field in fields
      invariant FirstError(schema, members, fields, 0) == FirstError(schema, members, rest, 0)
      invariant WithFields(schema, instances, before, fields, 0)
             == WithFields(schema, instances, builder.fragment, rest, 0)
    {
      SelectionStep(schema, members, instances, builder.fragment, selections, i);
      error := AcceptSelection(visitor, selections[i]);
      if error.Some? {
        return;
      }
      i, rest := i + 1, Fields(selections[i + 1..]);
    }
    return None;
  }

  /** The fields from selection `i` on are those of the selection, followed by the rest. */
  lemma SelectionStep(schema: Schema, members: set<string>, instances: seq<Instance>, fragment: Fragment,
                      selections: seq<Selection>, i: nat)
    requires i < |selections|
    ensures Fields(selections[i..]) == selections[i].ToFields() + Fields(selections[i + 1..])
    ensures FirstError(schema, members, Fields(selections[i..]), 0)
         == if FirstError(schema, members, selections[i].ToFields(), 0).Some?
            then FirstError(schema, members, selections[i].ToFields(), 0)
            else FirstError(schema, members, Fields(selections[i + 1..]), 0)
    ensures WithFields(schema, instances, fragment, Fields(selections[i..]), 0)
         == WithFields(schema, instances, WithFields(schema, instances, fragment, selections[i].ToFields(), 0),
                       Fields(selections[i + 1..]), 0)
  {
    assert selections[i..][1..] == selections[i + 1..];
    FirstErrorOfBoth(schema, members, selections[i].ToFields(), Fields(selections[i + 1..]));
    WithBoth(schema, instances, fragment, selections[i].ToFields(), Fields(selections[i + 1..]));
  }

  lemma SingleField(schema: Schema, members: set<string>, instances: seq<Instance>, fragment: Fragment, field: Field)
    ensures FirstError(schema, members, [field], 0) == FieldError(schema, members, field)
    ensures WithFields(schema, instances, fragment, [field], 0) == WithField(schema, instances, fragment, field)
  {
    assert FirstError(schema, members, [field], 1) == None;
    var next := WithField(schema, instances, fragment, field);
    assert WithFields(schema, instances, next, [field], 1) == next;
  }

  lemma FirstErrorOfBoth(schema: Schema, members: set<string>, a: seq<Field>, b: seq<Field>)
    ensures FirstError(schema, members, a + b, 0)
         == if FirstError(schema, members, a, 0).Some? then FirstError(schema, members, a, 0)
            else FirstError(schema, members, b, 0)
  {
    FirstErrorFrom(schema, members, a, b, 0);
  }

  lemma {:induction false} FirstErrorFrom(schema: Schema, members: set<string>, a: seq<Field>, b: seq<Field>, i: nat)
    requires i <= |a|
    ensures FirstError(schema, members, a + b, i)
         == if FirstError(schema, members, a, i).Some? then FirstError(schema, members, a, i)
            else FirstError(schema, members, b, 0)
    decreases |a| - i
  {
    if i < |a| {
      FirstErrorFrom(schema, members, a, b, i + 1);
    } else {
      ErrorBehind(schema, members, a, b, 0);
    }
  }

  lemma {:induction false} ErrorBehind(schema: Schema, members: set<string>, a: seq<Field>, b: seq<Field>, j: nat)
    requires j <= |b|
    ensures FirstError(schema, members, a + b, |a| + j) == FirstError(schema, members, b, j)
    decreases |b| - j
  {
    if j < |b| {
      ErrorBehind(schema, members, a, b, j + 1);
    }
  }

  lemma WithBoth(schema: Schema, instances: seq<Instance>, fragment: Fragment, a: seq<Field>, b: seq<Field>)
    ensures WithFields(schema, instances, fragment, a + b, 0)
         == WithFields(schema, instances, WithFields(schema, instances, fragment, a, 0), b, 0)
  {
    WithBothFrom(schema, instances, fragment, a, b, 0);
  }

  lemma {:induction false} WithBothFrom(schema: Schema, instances: seq<Instance>, fragment: Fragment, a: seq<Field>,
                                        b: seq<Field>, i: nat)
    requires i <= |a|
    ensures WithFields(schema, instances, fragment, a + b, i)
         == WithFields(schema, instances, WithFields(schema, instances, fragment, a, i), b, 0)
    decreases |a| - i
  {
    if i < |a| {
      WithBothFrom(schema, instances, WithField(schema, instances, fragment, a[i]), a, b, i + 1);
    } else {
      WithBehind(schema, instances, fragment, a, b, 0);
    }
  }

  lemma {:induction false} WithBehind(schema: Schema, instances: seq<Instance>, fragment: Fragment, a: seq<Field>,
                                      b: seq<Field>, j: nat)
    requires j <= |b|
    ensures WithFields(schema, instances, fragment, a + b, |a| + j) == WithFields(schema, instances, fragment, b, j)
    decreases |b| - j
  {
    if j < |b| {
      WithBehind(schema, instances, WithField(schema, instances, fragment, b[j]), a, b, j + 1);
    }
  }

  // The router

  predicate ObjectsAtRoot(operation: Operation) {
    forall field | field in Fields(operation.selections) :: field.Object?
  }

  /** Only query operations have a registered visitor, and it refuses variable definitions. */
  predicate Supported(operation: Operation) {
    operation.kind == "query" && !operation.hasVariables
  }

  function OperationError(schema: Schema, operation: Operation): Option<GqlError> {
    if operation.kind != "query" then Some(OperationNotSupported(operation.kind))
    else if operation.hasVariables then Some(OperationNotSupported("GQL Variable definition temporarry not supported"))
    else FirstError(schema, {}, Fields(operation.selections), 0)
  }

  /** The root has no entity: its one object is filled as if by an instance without members. */
  function QueryResult(schema: Schema, operation: Operation): Json {
    JObj(InstanceObject(schema, Instance("query", map[]), Fields(operation.selections)))
  }

  class ObmcGqlVisitor {
    var result: map<string, Json>

    constructor ()
      ensures result == map[]
    {
      result := map[];
    }

    method VisitOperationDefinition(manager: EntityManager, operation: Operation) returns (error: Option<GqlError>)
      requires manager.Valid()
      requires Supported(operation) ==> ObjectsAtRoot(operation)
      requires result.Keys <= {"query"}
      modifies this`result, manager
      ensures manager.Valid()
      ensures error == OperationError(manager.schema, operation)
      ensures error.None? ==> result == map["query" := QueryResult(manager.schema, operation)]
    {
      result := Emplace(result, operation.kind, JObj(map[]));
      assert operation.kind in result.Keys;
      if operation.kind != "query" {
        return Some(OperationNotSupported(operation.kind));
      }
      var back := BackKey(result);
      SingleQueryEntry(old(result), JObj(map[]));
      var document;
      error, document := VisitQuery(manager, operation);
      result := result[back := document];
    }
  }

  lemma SingleQueryEntry(result: map<string, Json>, value: Json)
    requires result.Keys <= {"query"}
    ensures Emplace(result, "query", value).Keys == {"query"}
    ensures BackKey(Emplace(result, "query", value)) == "query"
  {
    BackKeyOfSingle(Emplace(result, "query", value), "query");
  }

  /** The life of one query visitor, from its construction to the destructor that writes the document. */
  method VisitQuery(manager: EntityManager, operation: Operation) returns (error: Option<GqlError>, document: Json)
    requires operation.kind == "query" && manager.Valid()
    requires Supported(operation) ==> ObjectsAtRoot(operation)
    modifies manager
    ensures manager.Valid()
    ensures error == OperationError(manager.schema, operation)
    ensures error.None? ==> document == QueryResult(manager.schema, operation)
  {
    var visitor := new GqlQueryVisitor(manager);
    if operation.hasVariables {
      error := Some(OperationNotSupported("GQL Variable definition temporarry not supported"));
    } else {
      error := AcceptSelections(visitor, operation.selections);
    }
    document := visitor.Finish();
    if error.None? {
      RootFragment(visitor.schema, operation);
    }
  }

  lemma RootFragment(schema: Schema, operation: Operation)
    ensures var finished := WithFields(schema, [], map["query" := map[]], Fields(operation.selections), 0);
            "query" in finished && JObj(finished["query"]) == QueryResult(schema, operation)
  {
    WithFieldsAt(schema, [], map["query" := map[]], Fields(operation.selections), 0, "query");
    EmplaceFromEmpty(Keys(Fields(operation.selections)),
                     Values(schema, Instance("query", map[]), Fields(operation.selections)));
  }

  /** The first error of the operations from position `i` on. */
  function DocumentError(schema: Schema, operations: seq<Operation>, i: nat): Option<GqlError>
    decreases |operations| - i
  {
    if i >= |operations| then None
    else
      var e := OperationError(schema, operations[i]);
      if e.Some? then e else DocumentError(schema, operations, i + 1)
  }

  /** Every operation writes the same "query" entry, so the last one is what the client sees. */
  function Response(schema: Schema, document: Option<seq<Operation>>): Json {
    if document.None? then JObj(map["error" := InvalidAst.ToJson()])
    else
      var operations := document.value;
      var e := DocumentError(schema, operations, 0);
      if e.Some? then JObj(map["error" := e.value.ToJson()])
      else JObj(map["data" := JObj(DocumentData(schema, operations))])
  }

  function DocumentData(schema: Schema, operations: seq<Operation>): map<string, Json> {
    if operations == [] then map[] else map["query" := QueryResult(schema, operations[|operations| - 1])]
  }

  lemma DataOfPrefix(schema: Schema, operations: seq<Operation>, i: nat)
    requires i < |operations|
    ensures DocumentData(schema, operations[..i + 1]) == map["query" := QueryResult(schema, operations[i])]
  {
  }

  /**
   `GraphqlRouter::run`; the document is absent when parsing failed. The entities are read in place again and again
   while the query is walked, and the answer is that for one snapshot of them.
   */
  method Run(manager: EntityManager, document: Option<seq<Operation>>) returns (response: Json)
    requires manager.Valid()
    requires document.Some? ==>
               forall operation | operation in document.value :: Supported(operation) ==> ObjectsAtRoot(operation)
    modifies manager
    ensures manager.Valid()
    ensures response == Response(manager.schema, document)
  {
    if document.None? {
      return JObj(map["error" := InvalidAst.ToJson()]);
    }
    var visitor := new ObmcGqlVisitor();
    var error := AcceptOperations(visitor, manager, document.value);
    if error.Some? {
      response := JObj(map["error" := error.value.ToJson()]);
    } else {
      response := JObj(map["data" := JObj(visitor.result)]);
    }
  }

  /** The walk over the operations of a document. */
  method AcceptOperations(visitor: ObmcGqlVisitor, manager: EntityManager, operations: seq<Operation>)
    returns (error: Option<GqlError>)
    requires visitor.result == map[] && manager.Valid()
    requires forall operation | operation in operations :: Supported(operation) ==> ObjectsAtRoot(operation)
    modifies visitor, manager
    ensures manager.Valid()
    ensures error == DocumentError(manager.schema, operations, 0)
    ensures error.None? ==> visitor.result == DocumentData(manager.schema, operations)
  {
    ghost var schema := manager.schema;
    var i := 0;
    while i < |operations|
      invariant i <= |operations|
      invariant manager.Valid()
      invariant visitor.result == DocumentData(schema, operations[..i])
      invariant DocumentError(schema, operations, 0) == DocumentError(schema, operations, i)
    {
      assert operations[i] in operations;
      error := visitor.VisitOperationDefinition(manager, operations[i]);
      if error.Some? {
        return;
      }
      DataOfPrefix(schema, operations, i);
      i := i + 1;
    }
    assert operations[..i] == operations;
    return None;
  }
}
