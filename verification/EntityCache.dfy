/**
 The shared, mutable instances of the entity cache. A field object belongs to one member of one instance; what a lookup
 returns for a missing member is one field object shared by all instances.
 */
module EntityCache {
  import opened EntitySpec
  import opened FieldValues
  import opened Options
  import opened Orders
  import opened Queries

  class FieldInstance {
    var value: FieldValue
    ghost const owner: DBusInstance?
    ghost const member: string

    constructor (initial: FieldValue, ghost inOwner: DBusInstance?, ghost inMember: string)
      ensures value == initial && owner == inOwner && member == inMember
    {
      value, owner, member := initial, inOwner, inMember;
    }

    method SetValue(newValue: FieldValue)
      modifies this`value
      ensures value == newValue
    {
      value := newValue;
    }
  }

  class DBusInstance {
    const query: Query
    const hash: Hasher
    const serviceName: string
    const objectPath: string
    const notAvailable: FieldInstance
    ghost const parent: DBusInstance?
    var memberInstances: map<string, FieldInstance>
    var complexInstances: map<int, DBusInstance>

    /** Every member has a field object of its own; the shared one is nobody's. */
    ghost predicate ValidNode()
      reads this`memberInstances
    {
      && notAvailable.owner == null
      && forall m | m in memberInstances :: memberInstances[m].owner == this && memberInstances[m].member == m
    }

    ghost function Fields(): set<FieldInstance>
      reads this`memberInstances
    {
      memberInstances.Values
    }

    ghost function NodeView(): Node
      reads this`memberInstances, memberInstances.Values
    {
      Node(serviceName, objectPath, map m | m in memberInstances :: memberInstances[m].value)
    }

    constructor (inQuery: Query, inHash: Hasher, service: string, path: string, sentinel: FieldInstance,
                 ghost inParent: DBusInstance?)
      requires sentinel.owner == null
      ensures query == inQuery && hash == inHash && serviceName == service && objectPath == path
      ensures notAvailable == sentinel && parent == inParent
      ensures ValidNode() && complexInstances == map[]
      ensures NodeView() == Node(service, path, map["__meta_field__object_path" := StrValue(path),
                                                    "__meta_field__object_service" := StrValue(service)])
      ensures forall f | f in Fields() :: fresh(f)
    {
      query, hash, serviceName, objectPath := inQuery, inHash, service, path;
      notAvailable, parent := sentinel, inParent;
      memberInstances, complexInstances := map[], map[];
      new;
      var ok := Supplement(META_OBJECT_PATH, StrValue(path));
      ok := Supplement(META_OBJECT_SERVICE, StrValue(service));
    }

    function GetHash(): int {
      hash(serviceName, objectPath)
    }

    /** A missing member is answered with the shared field object. */
    function GetField(member: string): FieldInstance
      reads this`memberInstances
    {
      if member in memberInstances then memberInstances[member] else notAvailable
    }

    predicate HasField(member: string)
      reads this`memberInstances
    {
      member in memberInstances
    }

    /** A result of `false` stands for the exception about a member that exists. */
    method Supplement(member: string, value: FieldValue) returns (ok: bool)
      requires ValidNode()
      modifies this`memberInstances
      ensures ValidNode() && ok == (member !in old(memberInstances))
      ensures ok ==> NodeView().members == old(NodeView()).members[member := value]
      ensures !ok ==> memberInstances == old(memberInstances)
    {
      if member in memberInstances {
        return false;
      }
      var field := new FieldInstance(value, this, member);
      memberInstances := memberInstances[member := field];
      return true;
    }

    method SupplementOrUpdate(member: string, value: FieldValue)
      requires ValidNode()
      modifies this`memberInstances, (set f: FieldInstance | f.owner == this)`value
      ensures ValidNode() && NodeView().members == old(NodeView()).members[member := value]
    {
      if HasField(member) {
        GetField(member).SetValue(value);
        return;
      }
      var ok := Supplement(member, value);
    }

    method SupplementDefaults(defaults: Members)
      requires ValidNode()
      modifies this`memberInstances, (set f: FieldInstance | f.owner == this)`value
      ensures ValidNode() && NodeView().members == old(NodeView()).members + defaults
    {
      var rest := defaults.Keys;
      ghost var before := NodeView().members;
      while rest != {}
        invariant ValidNode() && rest <= defaults.Keys
        invariant NodeView().members == before + (defaults - rest)
      {
        var member :| member in rest;
        SupplementOrUpdate(member, defaults[member]);
        DefaultStep(before, defaults, rest, member);
        rest := rest - {member};
      }
      assert defaults - {} == defaults;
    }

    // Children

    ghost predicate IsChild(child: DBusInstance, key: int)
      reads child`memberInstances, child`complexInstances
    {
      && child.parent == this && child != this
      && child.query == query && child.hash == hash && child.notAvailable == notAvailable
      && child.GetHash() == key && child.ValidNode() && child.complexInstances == map[]
    }

    ghost function Kids(): set<DBusInstance>
      reads this`complexInstances
    {
      set h | h in complexInstances :: complexInstances[h]
    }

    ghost predicate Valid()
      reads this`memberInstances, this`complexInstances
      reads Kids()`memberInstances, Kids()`complexInstances
    {
      ValidNode() && forall h | h in complexInstances :: IsChild(complexInstances[h], h)
    }

    ghost function ChildFields(): set<FieldInstance>
      reads this`complexInstances, Kids()`memberInstances
    {
      set c, f | c in Kids() && f in c.Fields() :: f
    }

    ghost function ChildViews(): map<int, Node>
      reads this`complexInstances, Kids()`memberInstances, ChildFields()
    {
      map h | h in complexInstances ::
        assert forall f | f in complexInstances[h].Fields() :: f in ChildFields();
        complexInstances[h].NodeView()
    }

    ghost function View(): Instance
      reads this`memberInstances, Fields()
      reads this`complexInstances, Kids()`memberInstances, ChildFields()
    {
      Instance(query, NodeView(), ChildViews())
    }

    /** The defaults of the query that found the instance. */
    method InitDefaultFieldsValue()
      requires Valid()
      modifies this`memberInstances, (set f: FieldInstance | f.owner == this)`value
      ensures Valid() && View() == WithDefaults(old(View()))
    {
      SupplementDefaults(query.defaults);
      forall h | h in complexInstances
        ensures complexInstances[h].NodeView() == old(complexInstances[h].NodeView())
      {
        assert complexInstances[h] in Kids();
      }
      assert ChildViews() == old(ChildViews());
    }

    /** A new instance of the same service, filled with scalars like any other. */
    method CreateChild(path: string, interface: string, properties: Properties)
      returns (child: DBusInstance, ok: bool)
      requires ValidNode() && !HasLists(properties)
      ensures fresh(child) && forall f | f in child.Fields() :: fresh(f)
      ensures IsChild(child, child.GetHash())
      ensures ok == NewChild(hash, query, serviceName, path, interface, properties).Some?
      ensures ok ==> child.NodeView() == NewChild(hash, query, serviceName, path, interface, properties).value
      decreases true, 0, 0
    {
      child := new DBusInstance(query, hash, serviceName, path, notAvailable, this);
      assert child.ChildViews() == map[];
      ghost var o := NewInstance(query, serviceName, path);
      FillThrough(hash, o, interface, properties);
      ok := child.FillMembers(interface, properties);
    }

    /** `insert_or_assign` of a child under its hash. */
    method AddChild(child: DBusInstance)
      requires Valid() && IsChild(child, child.GetHash())
      modifies this`complexInstances
      ensures Valid()
      ensures ChildViews() == old(ChildViews())[child.NodeView().Hash(hash) := child.NodeView()]
      ensures forall c | c in Kids() :: c in old(Kids()) || c == child
    {
      complexInstances := complexInstances[child.GetHash() := child];
    }

    method CaptureChild(path: string, interface: string, properties: Properties) returns (ok: bool)
      requires Valid() && !HasLists(properties)
      modifies this`complexInstances
      ensures Valid() && ok == NewChild(hash, query, serviceName, path, interface, properties).Some?
      ensures ok ==>
        ChildViews() == (var node := NewChild(hash, query, serviceName, path, interface, properties).value;
                         old(ChildViews())[node.Hash(hash) := node])
      ensures !ok ==> ChildViews() == old(ChildViews())
      ensures forall c | c in Kids() :: c in old(Kids()) || fresh(c)
      decreases true, 0, 1
    {
      var child;
      ghost var before := ChildViews();
      child, ok := CreateChild(path, interface, properties);
      assert ChildViews() == before;
      if ok {
        ghost var node := child.NodeView();
        AddChild(child);
        assert ChildViews() == before[node.Hash(hash) := node];
      }
    }

    /** A result of `false` stands for an exception of a formatter. */
    method CaptureDBusAssociations(interface: string, list: seq<Association>) returns (ok: bool)
      requires ValidNode()
      modifies this`complexInstances
      ensures Valid() && ok == Children(hash, query, serviceName, interface, list).Some?
      ensures ChildViews() == ChildrenUntil(hash, query, serviceName, interface, list)
      ensures forall c | c in Kids() :: fresh(c)
      decreases true, 0, 2
    {
      complexInstances := map[];
      assert ChildViews() == map[];
      for i := 0 to |list|
        invariant Valid()
        invariant Some(ChildViews()) == Children(hash, query, serviceName, interface, list[..i])
        invariant forall c | c in Kids() :: fresh(c)
      {
        ChildrenStep(hash, query, serviceName, interface, list, i);
        ok := CaptureChild(list[i].endpoint, interface, AssociationProperties(list[i]));
        if !ok {
          ChildrenStop(hash, query, serviceName, interface, list, i);
          return;
        }
      }
      assert list[..|list|] == list;
      ChildrenThrough(hash, query, serviceName, interface, list);
      return true;
    }

    /** Every element of a list of strings or doubles becomes a child; what was there before stays. */
    method CaptureComplexDBusProperty(member: string, list: seq<FieldValue>) returns (ok: bool)
      requires Valid()
      modifies this`complexInstances
      ensures Valid()
      ensures ok == WithValues(hash, query, serviceName, objectPath, member, list, old(ChildViews())).Some?
      ensures ChildViews() == ValuesUntil(hash, query, serviceName, objectPath, member, list, old(ChildViews()))
      ensures forall c | c in Kids() :: c in old(Kids()) || fresh(c)
      decreases true, 0, 2
    {
      ghost var before := ChildViews();
      for i := 0 to |list|
        invariant Valid()
        invariant Some(ChildViews()) == WithValues(hash, query, serviceName, objectPath, member, list[..i], before)
        invariant forall c | c in Kids() :: c in old(Kids()) || fresh(c)
      {
        ValuesStep(hash, query, serviceName, objectPath, member, list, before, i);
        ok := CaptureChild(objectPath, member, map[member := Scalar(list[i])]);
        if !ok {
          ValuesStop(hash, query, serviceName, objectPath, member, list, before, i);
          return;
        }
      }
      assert list[..|list|] == list;
      ValuesThrough(hash, query, serviceName, objectPath, member, list, before);
      return true;
    }

    /** `resolveDBusVariant` of a property value after `processFormatters`. */
    method ResolveDBusVariant(property: string, member: string, value: Variant) returns (ok: bool)
      requires Valid()
      modifies this`memberInstances, this`complexInstances, (set f: FieldInstance | f.owner == this)`value
      ensures Valid() && ok == FillMember(hash, old(View()), property, member, value).Some?
      ensures View() == MemberUntil(hash, old(View()), property, member, value)
      ensures value.Scalar? ==> complexInstances == old(complexInstances)
      ensures forall c | c in Kids() :: c in old(Kids()) || fresh(c)
      decreases !value.Scalar?, 1, 0
    {
      var formatted := query.Formatted(property, value);
      match formatted {
        case None =>
          return false;
        case Some(Scalar(v)) =>
          SupplementOrUpdate(member, v);
          forall h | h in complexInstances
            ensures complexInstances[h].NodeView() == old(complexInstances[h].NodeView())
          {
            assert complexInstances[h] in Kids();
          }
          assert ChildViews() == old(ChildViews());
          return true;
        case Some(Values(list)) =>
          ok := CaptureComplexDBusProperty(member, list);
        case Some(Associations(list)) =>
          ok := CaptureDBusAssociations(member, list);
      }
    }

    /** Fills the members a report of one interface bears on; `false` stands for an exception of a formatter. */
    method FillMembers(interface: string, properties: Properties) returns (ok: bool)
      requires Valid()
      modifies this`memberInstances, this`complexInstances, (set f: FieldInstance | f.owner == this)`value
      ensures Valid() && ok == Fill(hash, old(View()), interface, properties).Some?
      ensures View() == FillUntil(hash, old(View()), interface, properties)
      ensures !HasLists(properties) ==> complexInstances == old(complexInstances)
      ensures forall c | c in Kids() :: c in old(Kids()) || fresh(c)
      decreases HasLists(properties), 3, 0
    {
      var dict := query.PropertyMembers(interface);
      var keys := SortedStrings(dict.Keys);
      ghost var filled := Fill(hash, View(), interface, properties);
      ghost var reached := FillUntil(hash, View(), interface, properties);
      for i := 0 to |keys|
        invariant Valid()
        invariant FillFrom(hash, View(), dict, properties, keys, i) == filled
        invariant FillFromUntil(hash, View(), dict, properties, keys, i) == reached
        invariant !HasLists(properties) ==> complexInstances == old(complexInstances)
        invariant forall c | c in Kids() :: c in old(Kids()) || fresh(c)
      {
        assert keys[i] in keys;
        if keys[i] in properties {
          MemberEnds(hash, View(), keys[i], dict[keys[i]], properties[keys[i]]);
          ok := ResolveDBusVariant(keys[i], dict[keys[i]], properties[keys[i]]);
          if !ok {
            return;
          }
        }
      }
      return true;
    }
  }

  lemma ChildrenStep(hash: Hasher, query: Query, service: string, interface: string, list: seq<Association>, i: nat)
    requires i < |list| && Children(hash, query, service, interface, list[..i]).Some?
    ensures Children(hash, query, service, interface, list[..i + 1])
         == match Child(hash, query, service, interface, list[i]) {
              case None => None
              case Some(child) =>
                Some(Children(hash, query, service, interface, list[..i]).value[child.Hash(hash) := child]) }
  {
    assert list[..i + 1][..i] == list[..i];
  }

  lemma ValuesStep(hash: Hasher, query: Query, service: string, path: string, member: string, list: seq<FieldValue>,
                   children: map<int, Node>, i: nat)
    requires i < |list| && WithValues(hash, query, service, path, member, list[..i], children).Some?
    ensures WithValues(hash, query, service, path, member, list[..i + 1], children)
         == match NewChild(hash, query, service, path, member, map[member := Scalar(list[i])]) {
              case None => None
              case Some(child) =>
                Some(WithValues(hash, query, service, path, member, list[..i], children).value[
                       child.Hash(hash) := child]) }
  {
    assert list[..i + 1][..i] == list[..i];
  }

  lemma MemberEnds(hash: Hasher, o: Instance, property: string, member: string, value: Variant)
    ensures FillMember(hash, o, property, member, value).Some? ==>
      MemberUntil(hash, o, property, member, value) == FillMember(hash, o, property, member, value).value
  {
    if FillMember(hash, o, property, member, value).Some? {
      MemberThrough(hash, o, property, member, value);
    }
  }

  lemma ValuesFront(hash: Hasher, query: Query, service: string, path: string, member: string,
                    list: seq<FieldValue>, children: map<int, Node>)
    requires list != [] && WithValues(hash, query, service, path, member, list[..|list| - 1], children).None?
    ensures WithValues(hash, query, service, path, member, list, children).None?
    ensures ValuesUntil(hash, query, service, path, member, list, children)
         == ValuesUntil(hash, query, service, path, member, list[..|list| - 1], children)
  {
  }

  lemma ValuesLast(hash: Hasher, query: Query, service: string, path: string, member: string,
                   list: seq<FieldValue>, children: map<int, Node>)
    requires list != [] && WithValues(hash, query, service, path, member, list[..|list| - 1], children).Some?
    requires NewChild(hash, query, service, path, member, map[member := Scalar(list[|list| - 1])]).None?
    ensures WithValues(hash, query, service, path, member, list, children).None?
    ensures ValuesUntil(hash, query, service, path, member, list, children)
         == WithValues(hash, query, service, path, member, list[..|list| - 1], children).value
  {
  }

  lemma {:induction false} ValuesStop(hash: Hasher, query: Query, service: string, path: string, member: string,
                                      list: seq<FieldValue>, children: map<int, Node>, i: nat)
    requires i < |list| && NewChild(hash, query, service, path, member, map[member := Scalar(list[i])]).None?
    requires WithValues(hash, query, service, path, member, list[..i], children).Some?
    ensures WithValues(hash, query, service, path, member, list, children).None?
    ensures ValuesUntil(hash, query, service, path, member, list, children)
         == WithValues(hash, query, service, path, member, list[..i], children).value
  {
    var n := |list| - 1;
    if i < n {
      assert list[..n][..i] == list[..i] && list[..n][i] == list[i];
      ValuesStop(hash, query, service, path, member, list[..n], children, i);
      ValuesFront(hash, query, service, path, member, list, children);
    } else {
      ValuesLast(hash, query, service, path, member, list, children);
    }
  }

  lemma {:induction false} ChildrenStop(hash: Hasher, query: Query, service: string, interface: string,
                                        list: seq<Association>, i: nat)
    requires i < |list| && Child(hash, query, service, interface, list[i]).None?
    requires Children(hash, query, service, interface, list[..i]).Some?
    ensures Children(hash, query, service, interface, list).None?
    ensures ChildrenUntil(hash, query, service, interface, list)
         == Children(hash, query, service, interface, list[..i]).value
  {
    var n := |list| - 1;
    if i < n {
      assert list[..n][..i] == list[..i];
      ChildrenStop(hash, query, service, interface, list[..n], i);
    }
  }

  lemma DefaultStep(before: Members, defaults: Members, rest: set<string>, member: string)
    requires member in rest && rest <= defaults.Keys
    ensures (before + (defaults - rest))[member := defaults[member]] == before + (defaults - (rest - {member}))
  {
  }
}
