/** The registered entities as queries read them: every read resets, joins and returns the stored instances in place. */
module EntityManagers {
  import opened EntityReads
  import opened EntitySpec
  import opened FieldValues
  import opened JsonValues
  import opened Options
  import opened Orders
  import G = GraphqlSpec

  /** A provider that an entity is linked to. */
  datatype ProviderLink = ProviderLink(provider: string, rule: LinkRule)

  function ToJson(value: FieldValue): Json {
    match value
    case StrValue(text) => JStr(text)
    case IntValue(_, n) => JInt(n)
    case DoubleValue(r) => JReal(r)
    case BoolValue(flag) => JBool(flag)
  }

  /** A returned node as a query reads it; `render` writes a hash in decimal digits. */
  function ToObject(hash: Hasher, render: int -> string, node: Node): G.Instance {
    G.Instance(render(node.Hash(hash)), map name | name in node.members :: ToJson(node.members[name]))
  }

  function ObjectsFrom(hash: Hasher, render: int -> string, list: seq<Instance>): seq<G.Instance> {
    if list == [] then []
    else
      var n := |list| - 1;
      var nodes := InKeyOrder(NodesOf(hash, list[n]));
      ObjectsFrom(hash, render, list[..n])
      + seq(|nodes|, i requires 0 <= i < |nodes| => ToObject(hash, render, nodes[i]))
  }

  /** What the nodes that a read returns show. */
  function Objects(hash: Hasher, render: int -> string, instances: map<int, Instance>): seq<G.Instance> {
    ObjectsFrom(hash, render, InKeyOrder(instances))
  }

  /** Providers some of which have been reset. */
  ghost predicate PartlyReset(before: seq<Provider>, after: seq<Provider>) {
    |after| == |before| && forall i | 0 <= i < |before| ::
      after[i].rule == before[i].rule
      && (after[i].instances == before[i].instances || after[i].instances == AllWithDefaults(before[i].instances))
  }

  lemma ResetSupplies(hash: Hasher, before: seq<Provider>, after: seq<Provider>)
    requires PartlyReset(before, after)
    ensures SuppliesOf(hash, after) == SuppliesOf(hash, before)
  {
    forall i | 0 <= i < |before|
      ensures SuppliesOf(hash, after)[i] == SuppliesOf(hash, before)[i]
    {
      DefaultsTwice(before[i].instances);
    }
  }

  /** A read comes to the same whichever of its providers have been reset. */
  lemma ResetReads(hash: Hasher, before: seq<Provider>, after: seq<Provider>, instances: map<int, Instance>)
    requires PartlyReset(before, after)
    ensures Read(hash, after, instances) == Read(hash, before, instances)
  {
    ResetSupplies(hash, before, after);
  }

  lemma ReadSettles(hash: Hasher, providers: seq<Provider>, instances: map<int, Instance>)
    requires Read(hash, providers, instances).Some?
    ensures Read(hash, providers, Read(hash, providers, instances).value) == Read(hash, providers, instances)
  {
    ReadTwice(hash, providers, instances);
    assert PartlyReset(providers, ProvidersAfter(providers));
    ResetReads(hash, providers, ProvidersAfter(providers), Read(hash, providers, instances).value);
  }

  /** What is registered, and the stored instances of entities and providers. */
  datatype Store = Store(
    hash: Hasher, render: int -> string, members: map<string, set<string>>, links: map<string, seq<ProviderLink>>,
    entities: map<string, map<int, Instance>>, providers: map<string, map<int, Instance>>)
  {
    predicate Linked() {
      && members.Keys == links.Keys == entities.Keys
      && forall name, i | name in links && 0 <= i < |links[name]| :: links[name][i].provider in providers
    }

    function ProvidersOf(name: string): seq<Provider>
      requires Linked() && name in members
    {
      var list := links[name];
      assert forall i | 0 <= i < |list| :: links[name][i].provider in providers;
      seq(|list|, i requires 0 <= i < |list| => Provider(list[i].rule, providers[list[i].provider]))
    }

    function ReadOf(name: string): Option<map<int, Instance>>
      requires Linked() && name in members
    {
      Read(hash, ProvidersOf(name), entities[name])
    }

    /** Every entity can be read: no unknown status is in force. */
    ghost predicate Readable() {
      Linked() && forall name | name in members :: ReadOf(name).Some?
    }

    /** What a read of each entity shows. */
    ghost function Snapshot(): G.Schema
      requires Readable()
    {
      map name | name in members :: G.Entity(members[name], Objects(hash, render, ReadOf(name).value))
    }

    /** The same for a store that may not be readable. */
    ghost function Shows(): Option<G.Schema> {
      if Readable() then Some(Snapshot()) else None
    }

    /** The providers after a read of an entity: those it asks have been reset. */
    function ProvidersRead(name: string): map<string, map<int, Instance>>
      requires Linked() && name in members
    {
      map p | p in providers ::
        if entities[name] != map[] && exists i :: 0 <= i < |links[name]| && links[name][i].provider == p
        then AllWithDefaults(providers[p]) else providers[p]
    }

    /** The store after `getInstances` of an entity. */
    function AfterRead(name: string): Store
      requires Linked() && name in members && ReadOf(name).Some?
    {
      this.(entities := entities[name := ReadOf(name).value], providers := ProvidersRead(name))
    }

    lemma ReadKeepsLinks(name: string, other: string)
      requires Linked() && name in members && ReadOf(name).Some? && other in members
      ensures AfterRead(name).Linked()
      ensures PartlyReset(ProvidersOf(other), AfterRead(name).ProvidersOf(other))
    {
      var after := AfterRead(name);
      assert after.providers.Keys == providers.Keys && after.entities.Keys == entities.Keys;
    }

    /** A read of one entity changes no later read of any entity. */
    lemma ReadKeepsReads(name: string, other: string)
      requires Linked() && name in members && ReadOf(name).Some? && other in members
      ensures AfterRead(name).Linked() && AfterRead(name).ReadOf(other) == ReadOf(other)
    {
      ReadKeepsLinks(name, other);
      ResetReads(hash, ProvidersOf(other), AfterRead(name).ProvidersOf(other), AfterRead(name).entities[other]);
      if other == name {
        ReadSettles(hash, ProvidersOf(name), entities[name]);
      }
    }

    lemma ReadKeepsSnapshot(name: string)
      requires Readable() && name in members
      ensures AfterRead(name).Readable() && AfterRead(name).Snapshot() == Snapshot()
    {
      ReadKeepsLinks(name, name);
      forall other | other in members
        ensures AfterRead(name).ReadOf(other) == ReadOf(other)
      {
        ReadKeepsReads(name, other);
      }
    }
  }

  /** The entities behind the queries; `schema` is what reading them shows, at any time. */
  class EntityManager {
    var store: Store
    ghost const schema: G.Schema

    /** `store.Shows() == Some(schema)`, in a form that tells the verifier so only where `Shows` is mentioned. */
    ghost predicate Valid()
      reads this
    {
      forall s: Store {:trigger s.Shows()} | s == store :: s.Shows() == Some(schema)
    }

    constructor (registered: Store)
      requires registered.Readable()
      ensures Valid() && store == registered && schema == registered.Snapshot()
    {
      store, schema := registered, registered.Snapshot();
    }

    predicate HasEntity(name: string)
      requires Valid()
      reads this
      ensures HasEntity(name) <==> name in schema
    {
      assert store.Shows() == Some(schema);
      name in store.members
    }

    predicate HasMember(name: string, member: string)
      requires Valid()
      reads this
      ensures HasMember(name, member) <==> name in schema && member in schema[name].members
    {
      assert store.Shows() == Some(schema);
      name in store.members && member in store.members[name]
    }

    /**
     `getInstances` of an entity: the stored instances are reset and joined in place and its providers are reset in
     place, yet every later read of every entity shows what it would have shown before.
     */
    method GetInstances(name: string) returns (instances: seq<G.Instance>)
      requires Valid() && name in schema
      modifies this
      ensures Valid() && instances == schema[name].instances
    {
      assert store.Shows() == Some(schema);
      store.ReadKeepsSnapshot(name);
      instances := Objects(store.hash, store.render, store.ReadOf(name).value);
      store := store.AfterRead(name);
    }
  }
}
