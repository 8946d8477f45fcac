/**
 What a query over the entity cache means, written as a recursion over the selection tree:
 the reference for the event-driven machine of `GraphqlHandler`.
 */
module GraphqlSpec {
  import opened JsonValues
  import opened Options
  import opened Orders

  /** A field of a query: one without a selection set is a scalar, one with it an object. */
  datatype Field =
    | Scalar(name: string, alias: Option<string>)
    | Object(name: string, alias: Option<string>, selections: seq<Field>)
  {
    function Key(): string {
      if alias.Some? then alias.value else name
    }
  }

  /** A selection as it is parsed. */
  datatype Selection =
    | ScalarField(name: string, alias: Option<string>)
    | ObjectField(name: string, alias: Option<string>, selections: seq<Selection>)
    | InlineFragment(selections: seq<Selection>)
    | FragmentSpread(name: string)
  {
    predicate IsField() {
      ScalarField? || ObjectField?
    }

    function ToField(): Field
      requires IsField()
      decreases this, 0
    {
      match this
      case ScalarField(name, alias) => Field.Scalar(name, alias)
      case ObjectField(name, alias, selections) => Object(name, alias, Fields(selections))
    }

    /** The fields of an inline fragment belong to the enclosing object; a fragment spread adds none. */
    function ToFields(): seq<Field>
      decreases this, 1
    {
      match this
      case InlineFragment(selections) => Fields(selections)
      case FragmentSpread(_) => []
      case _ => [ToField()]
    }
  }

  function Fields(selections: seq<Selection>): seq<Field>
    decreases selections, 2
  {
    if selections == [] then [] else selections[0].ToFields() + Fields(selections[1..])
  }

  datatype Operation = Operation(kind: string, hasVariables: bool, selections: seq<Selection>)

  /** One entity instance as a query reads it; `key` is its hash in decimal digits. */
  datatype Instance = Instance(key: string, fields: map<string, Json>) {
    function GetField(member: string): Json {
      if member in fields then fields[member] else JStr("N/A")
    }
  }

  /** The registered members of an entity and what `getInstances` returns for it. */
  datatype Entity = Entity(members: set<string>, instances: seq<Instance>)

  type Schema = map<string, Entity>

  datatype GqlError =
    | ObjectNotFound(name: string)
    | FieldNotFound(argument: string)
    | OperationNotSupported(kind: string)
    | InvalidAst
  {
    function ToJson(): Json {
      JObj(map k | k in Entries() :: JStr(Entries()[k]))
    }

    function Entries(): map<string, string> {
      match this
      case ObjectNotFound(name) =>
        map["Target" := "GraphQL", "Description" := "GraphQL AST error", "AST" := "The Object <" + name + "> not found"]
      case FieldNotFound(argument) =>
        map["Target" := "Invalid Argument", "Description" := "Field not found", "Argument" := argument]
      case OperationNotSupported(kind) =>
        map["Target" := "Operation", "Description" := "Not Supported", "Operation" := kind]
      case InvalidAst =>
        map["Target" := "GraphQL", "Description" := "GraphQL AST error",
            "AST" := "Invalid Grapqh AST. Can't parse comming request"]
    }
  }

  // Values

  function InstanceKeys(instances: seq<Instance>): set<string> {
    set i | 0 <= i < |instances| :: instances[i].key
  }

  /** The first instance with the given key. */
  function InstanceAt(instances: seq<Instance>, key: string): Instance {
    if instances == [] then Instance(key, map[])
    else if instances[0].key == key then instances[0]
    else InstanceAt(instances[1..], key)
  }

  function Keys(fields: seq<Field>): seq<string> {
    seq(|fields|, i requires 0 <= i < |fields| => fields[i].Key())
  }

  function Values(schema: Schema, instance: Instance, fields: seq<Field>): seq<Json>
    decreases fields, 3
  {
    seq(|fields|, i requires 0 <= i < |fields| => FieldValue(schema, instance, fields[i]))
  }

  /** The object of one instance: every response key is bound to the value of its first field. */
  function InstanceObject(schema: Schema, instance: Instance, fields: seq<Field>): map<string, Json>
    decreases fields, 4
  {
    FirstBindings(Keys(fields), Values(schema, instance, fields))
  }

  /** A scalar is looked up under its response key; an object does not depend on the enclosing instance. */
  function FieldValue(schema: Schema, instance: Instance, field: Field): Json
    decreases field, 6
  {
    match field
    case Scalar(_, _) => instance.GetField(field.Key())
    case Object(name, _, fields) => ObjectValue(schema, name, fields)
  }

  /** `{}`, one object or an array in key order for none, one or more instances. */
  function ObjectValue(schema: Schema, name: string, fields: seq<Field>): Json
    decreases fields, 5
  {
    if name !in schema then JNull
    else
      var instances := schema[name].instances;
      if instances == [] then JObj(map[])
      else if |instances| == 1 then JObj(InstanceObject(schema, instances[0], fields))
      else
        var keys := SortedStrings(InstanceKeys(instances));
        JArr(seq(|keys|, i requires 0 <= i < |keys| =>
          JObj(InstanceObject(schema, InstanceAt(instances, keys[i]), fields))))
  }

  // Errors

  /** The first error met in depth-first order among the fields from position `i` on. */
  function FirstError(schema: Schema, members: set<string>, fields: seq<Field>, i: nat): Option<GqlError>
    decreases fields, 0, |fields| - i
  {
    if i >= |fields| then None
    else
      var e := FieldError(schema, members, fields[i]);
      if e.Some? then e else FirstError(schema, members, fields, i + 1)
  }

  function FieldError(schema: Schema, members: set<string>, field: Field): Option<GqlError>
    decreases field, 1, 0
  {
    match field
    case Scalar(_, _) => if field.Key() in members then None else Some(FieldNotFound(field.Key()))
    case Object(name, _, fields) =>
      if name !in schema then Some(ObjectNotFound(name)) else FirstError(schema, schema[name].members, fields, 0)
  }
}
