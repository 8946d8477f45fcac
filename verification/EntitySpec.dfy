/** What the operations of the entity cache compute, on values: the reference for the classes of `EntityCache`. */
module EntitySpec {
  import opened FieldValues
  import opened Options
  import opened Orders
  import opened Queries
  import opened Statuses

  /** The hash of an instance, from its service and its path. */
  type Hasher = (string, string) -> int

  datatype Node = Node(service: string, path: string, members: Members) {
    function Hash(hash: Hasher): int {
      hash(service, path)
    }
  }

  /** A cached instance; `children` are its complex instances by hash. */
  datatype Instance = Instance(query: Query, node: Node, children: map<int, Node>)

  function NewNode(service: string, path: string): Node {
    Node(service, path, map[META_OBJECT_PATH := StrValue(path), META_OBJECT_SERVICE := StrValue(service)])
  }

  function NewInstance(query: Query, service: string, path: string): Instance {
    Instance(query, NewNode(service, path), map[])
  }

  // Filling

  predicate HasLists(properties: Properties) {
    exists p :: p in properties && !properties[p].Scalar?
  }

  function AssociationProperties(a: Association): Properties {
    map["Source" := Scalar(StrValue(a.source)), "Destination" := Scalar(StrValue(a.destination)),
        "Endpoint" := Scalar(StrValue(a.endpoint))]
  }

  /**
   `resolveDBusVariant` of a formatted property: a scalar sets a member, associations replace the children, and every
   element of any other list is captured as a child.
   */
  function FillMember(hash: Hasher, o: Instance, property: string, member: string, value: Variant): Option<Instance>
    decreases !value.Scalar?, 1, 0
  {
    match o.query.Formatted(property, value)
    case None => None
    case Some(Scalar(v)) => Some(o.(node := o.node.(members := o.node.members[member := v])))
    case Some(Values(list)) =>
      (match WithValues(hash, o.query, o.node.service, o.node.path, member, list, o.children)
       case None => None
       case Some(children) => Some(o.(children := children)))
    case Some(Associations(list)) =>
      match Children(hash, o.query, o.node.service, member, list)
      case None => None
      case Some(children) => Some(o.(children := children))
  }

  /** The properties from position `i` of the dictionary on; an exception of a formatter ends the loop. */
  function FillFrom(hash: Hasher, o: Instance, dict: map<string, string>, properties: Properties, keys: seq<string>,
                    i: nat): Option<Instance>
    requires forall p | p in keys :: p in dict
    decreases HasLists(properties), 2, |keys| - i
  {
    if i >= |keys| then Some(o)
    else if keys[i] !in properties then FillFrom(hash, o, dict, properties, keys, i + 1)
    else match FillMember(hash, o, keys[i], dict[keys[i]], properties[keys[i]])
      case None => None
      case Some(next) => FillFrom(hash, next, dict, properties, keys, i + 1)
  }

  /** `fillMembers`; `None` stands for an exception. */
  function Fill(hash: Hasher, o: Instance, interface: string, properties: Properties): Option<Instance>
    decreases HasLists(properties), 3, 0
  {
    var dict := o.query.PropertyMembers(interface);
    FillFrom(hash, o, dict, properties, SortedStrings(dict.Keys), 0)
  }

  /** A new instance filled with scalars. */
  function NewChild(hash: Hasher, query: Query, service: string, path: string, interface: string,
                    properties: Properties): Option<Node>
    requires !HasLists(properties)
    decreases true, 0, 0
  {
    match Fill(hash, NewInstance(query, service, path), interface, properties)
    case None => None
    case Some(child) => Some(child.node)
  }

  function Child(hash: Hasher, query: Query, service: string, interface: string, a: Association): Option<Node>
    decreases true, 0, 1
  {
    NewChild(hash, query, service, a.endpoint, interface, AssociationProperties(a))
  }

  /** `captureComplexDBusProperty`: every child has the path of the instance itself, so the last one stays. */
  function WithValues(hash: Hasher, query: Query, service: string, path: string, member: string,
                      list: seq<FieldValue>, children: map<int, Node>): Option<map<int, Node>>
    decreases true, 0, |list| + 1
  {
    if list == [] then Some(children)
    else
      var n := |list| - 1;
      match WithValues(hash, query, service, path, member, list[..n], children)
      case None => None
      case Some(before) =>
        match NewChild(hash, query, service, path, member, map[member := Scalar(list[n])])
        case None => None
        case Some(child) => Some(before[child.Hash(hash) := child])
  }

  /** `captureDBusAssociations`: the last association of an endpoint replaces the earlier ones. */
  function Children(hash: Hasher, query: Query, service: string, interface: string, list: seq<Association>)
    : Option<map<int, Node>>
    decreases true, 0, |list| + 2
  {
    if list == [] then Some(map[])
    else
      var n := |list| - 1;
      match Children(hash, query, service, interface, list[..n])
      case None => None
      case Some(children) =>
        match Child(hash, query, service, interface, list[n])
        case None => None
        case Some(child) => Some(children[child.Hash(hash) := child])
  }

  // Fills that throw

  /** The children when an association is refused: those of the associations before it. */
  function ChildrenUntil(hash: Hasher, query: Query, service: string, interface: string, list: seq<Association>)
    : map<int, Node>
  {
    if list == [] then map[]
    else
      var n := |list| - 1;
      match Children(hash, query, service, interface, list[..n])
      case None => ChildrenUntil(hash, query, service, interface, list[..n])
      case Some(children) =>
        match Child(hash, query, service, interface, list[n])
        case None => children
        case Some(child) => children[child.Hash(hash) := child]
  }

  /** The children when an element of another list is refused. */
  function ValuesUntil(hash: Hasher, query: Query, service: string, path: string, member: string,
                       list: seq<FieldValue>, children: map<int, Node>): map<int, Node>
  {
    if list == [] then children
    else
      var n := |list| - 1;
      match WithValues(hash, query, service, path, member, list[..n], children)
      case None => ValuesUntil(hash, query, service, path, member, list[..n], children)
      case Some(before) =>
        match NewChild(hash, query, service, path, member, map[member := Scalar(list[n])])
        case None => before
        case Some(child) => before[child.Hash(hash) := child]
  }

  /** The instance after `resolveDBusVariant`, also if it throws. */
  function MemberUntil(hash: Hasher, o: Instance, property: string, member: string, value: Variant): Instance {
    match o.query.Formatted(property, value)
    case None => o
    case Some(Scalar(v)) => o.(node := o.node.(members := o.node.members[member := v]))
    case Some(Values(list)) =>
      o.(children := ValuesUntil(hash, o.query, o.node.service, o.node.path, member, list, o.children))
    case Some(Associations(list)) => o.(children := ChildrenUntil(hash, o.query, o.node.service, member, list))
  }

  function FillFromUntil(hash: Hasher, o: Instance, dict: map<string, string>, properties: Properties,
                         keys: seq<string>, i: nat): Instance
    requires forall p | p in keys :: p in dict
    decreases |keys| - i
  {
    if i >= |keys| then o
    else if keys[i] !in properties then FillFromUntil(hash, o, dict, properties, keys, i + 1)
    else match FillMember(hash, o, keys[i], dict[keys[i]], properties[keys[i]])
      case None => MemberUntil(hash, o, keys[i], dict[keys[i]], properties[keys[i]])
      case Some(next) => FillFromUntil(hash, next, dict, properties, keys, i + 1)
  }

  /** The instance after `fillMembers`: the properties are taken in the order of their names until one throws. */
  function FillUntil(hash: Hasher, o: Instance, interface: string, properties: Properties): Instance {
    var dict := o.query.PropertyMembers(interface);
    FillFromUntil(hash, o, dict, properties, SortedStrings(dict.Keys), 0)
  }

  lemma ChildrenThrough(hash: Hasher, query: Query, service: string, interface: string, list: seq<Association>)
    requires Children(hash, query, service, interface, list).Some?
    ensures ChildrenUntil(hash, query, service, interface, list)
         == Children(hash, query, service, interface, list).value
  {
  }

  lemma ValuesThrough(hash: Hasher, query: Query, service: string, path: string, member: string,
                      list: seq<FieldValue>, children: map<int, Node>)
    requires WithValues(hash, query, service, path, member, list, children).Some?
    ensures ValuesUntil(hash, query, service, path, member, list, children)
         == WithValues(hash, query, service, path, member, list, children).value
  {
  }

  lemma MemberThrough(hash: Hasher, o: Instance, property: string, member: string, value: Variant)
    requires FillMember(hash, o, property, member, value).Some?
    ensures MemberUntil(hash, o, property, member, value) == FillMember(hash, o, property, member, value).value
  {
    match o.query.Formatted(property, value)
    case Some(Values(list)) =>
      ValuesThrough(hash, o.query, o.node.service, o.node.path, member, list, o.children);
    case Some(Associations(list)) =>
      ChildrenThrough(hash, o.query, o.node.service, member, list);
    case _ =>
  }

  /** A fill that does not throw ends where the fill does. */
  lemma {:induction false} FillFromThrough(hash: Hasher, o: Instance, dict: map<string, string>,
                                           properties: Properties, keys: seq<string>, i: nat)
    requires (forall p | p in keys :: p in dict) && FillFrom(hash, o, dict, properties, keys, i).Some?
    ensures FillFromUntil(hash, o, dict, properties, keys, i) == FillFrom(hash, o, dict, properties, keys, i).value
    decreases |keys| - i
  {
    if i < |keys| {
      if keys[i] in properties {
        FillFromThrough(hash, FillMember(hash, o, keys[i], dict[keys[i]], properties[keys[i]]).value, dict, properties,
                        keys, i + 1);
      } else {
        FillFromThrough(hash, o, dict, properties, keys, i + 1);
      }
    }
  }

  lemma FillThrough(hash: Hasher, o: Instance, interface: string, properties: Properties)
    ensures Fill(hash, o, interface, properties).Some? ==>
      FillUntil(hash, o, interface, properties) == Fill(hash, o, interface, properties).value
  {
    var dict := o.query.PropertyMembers(interface);
    if Fill(hash, o, interface, properties).Some? {
      FillFromThrough(hash, o, dict, properties, SortedStrings(dict.Keys), 0);
    }
  }

  function WithDefaults(o: Instance): Instance {
    o.(node := o.node.(members := o.node.members + o.query.defaults))
  }

  // Link rules

  /** `Sensors::linkStatus`: only a supplement that names the target as causer raises its status. */
  function LinkStatus(supplement: Members, target: Members): Option<Members> {
    var path, causer := Field(target, META_OBJECT_PATH), Field(supplement, FIELD_CAUSER);
    var candidate, current := Field(supplement, FIELD_STATUS), Field(target, FIELD_STATUS);
    if !path.StrValue? || !causer.StrValue? || !candidate.StrValue? || !current.StrValue? then Some(target)
    else if path != causer then Some(target)
    else match HigherStatus(current.text, candidate.text)
      case None => None
      case Some(status) => Some(target[FIELD_STATUS := StrValue(status)])
  }

  datatype VersionPurpose = Bmc | Bios | Unknown

  function PurposeOf(text: string): VersionPurpose {
    if text == "xyz.openbmc_project.Software.Version.VersionPurpose.BMC" then Bmc
    else if text == "xyz.openbmc_project.Software.Version.VersionPurpose.Host" then Bios
    else Unknown
  }

  /** `Server::linkVersions`. */
  function LinkVersions(supplement: Members, target: Members): Option<Members> {
    var purpose := Field(supplement, FIELD_PURPOSE);
    if !purpose.StrValue? then Some(target)
    else match PurposeOf(purpose.text)
      case Bmc => Some(target[FIELD_VERSION_BMC := Field(supplement, FIELD_VERSION)])
      case Bios => Some(target[FIELD_VERSION_BIOS := Field(supplement, FIELD_VERSION)])
      case Unknown => Some(target)
  }

  datatype LinkRule = StatusRule | VersionsRule {
    function Apply(supplement: Members, target: Members): Option<Members> {
      match this
      case StatusRule => LinkStatus(supplement, target)
      case VersionsRule => LinkVersions(supplement, target)
    }
  }

  /** One provider's supplements, one after the other. */
  function Linked(rule: LinkRule, supplements: seq<Members>, target: Members): Option<Members> {
    if supplements == [] then Some(target)
    else
      var n := |supplements| - 1;
      match Linked(rule, supplements[..n], target)
      case None => None
      case Some(m) => rule.Apply(supplements[n], m)
  }

  /** The target where linking stops: after the last supplement, or before the first one that is refused. */
  function LinkedUntil(rule: LinkRule, supplements: seq<Members>, target: Members): Members {
    if supplements == [] then target
    else
      var n := |supplements| - 1;
      match Linked(rule, supplements[..n], target)
      case None => LinkedUntil(rule, supplements[..n], target)
      case Some(m) =>
        match rule.Apply(supplements[n], m)
        case None => m
        case Some(after) => after
  }

  // Reading

  /** The nodes `getInstances` returns for one instance: its children by hash, with itself under its own hash. */
  function NodesOf(hash: Hasher, o: Instance): map<int, Node> {
    o.children[o.node.Hash(hash) := o.node]
  }

  function MembersInOrder(nodes: map<int, Node>): seq<Members> {
    var ordered := InKeyOrder(nodes);
    seq(|ordered|, i requires 0 <= i < |ordered| => ordered[i].members)
  }

  function EmittedFrom(hash: Hasher, list: seq<Instance>): seq<Members> {
    if list == [] then []
    else
      var n := |list| - 1;
      EmittedFrom(hash, list[..n]) + MembersInOrder(NodesOf(hash, list[n]))
  }

  /** All returned nodes, instance by instance in the order of hashes. */
  function Emitted(hash: Hasher, instances: map<int, Instance>): seq<Members> {
    EmittedFrom(hash, InKeyOrder(instances))
  }

  function AllWithDefaults(instances: map<int, Instance>): map<int, Instance> {
    map h | h in instances :: WithDefaults(instances[h])
  }

  /** A provider has no providers of its own: reading it resets the defaults and returns its nodes. */
  function Supplements(hash: Hasher, provider: map<int, Instance>): seq<Members> {
    Emitted(hash, AllWithDefaults(provider))
  }

  datatype Provider = Provider(rule: LinkRule, instances: map<int, Instance>)

  /** What a provider brings to every node: a link rule and the members it is applied to, in order. */
  datatype Supply = Supply(rule: LinkRule, supplements: seq<Members>)

  function SuppliesOf(hash: Hasher, providers: seq<Provider>): seq<Supply> {
    seq(|providers|, i requires 0 <= i < |providers| =>
      Supply(providers[i].rule, Supplements(hash, providers[i].instances)))
  }

  /** All supplies of an entity, one after the other. */
  function Supplemented(supplies: seq<Supply>, target: Members): Option<Members> {
    if supplies == [] then Some(target)
    else
      var n := |supplies| - 1;
      match Supplemented(supplies[..n], target)
      case None => None
      case Some(m) => Linked(supplies[n].rule, supplies[n].supplements, m)
  }

  /** The target where joining stops. */
  function SupplementedUntil(supplies: seq<Supply>, target: Members): Members {
    if supplies == [] then target
    else
      var n := |supplies| - 1;
      match Supplemented(supplies[..n], target)
      case None => SupplementedUntil(supplies[..n], target)
      case Some(m) => LinkedUntil(supplies[n].rule, supplies[n].supplements, m)
  }

  /** Whether reading an instance succeeds. */
  predicate Reads(hash: Hasher, supplies: seq<Supply>, o: Instance) {
    forall h | h in NodesOf(hash, WithDefaults(o)) ::
      Supplemented(supplies, NodesOf(hash, WithDefaults(o))[h].members).Some?
  }

  /** Whether reading gets as far as node `h`: the nodes are joined by ascending hash until one throws. */
  predicate Reaches(hash: Hasher, supplies: seq<Supply>, o: Instance, h: int) {
    forall k | k in NodesOf(hash, WithDefaults(o)) && k < h ::
      Supplemented(supplies, NodesOf(hash, WithDefaults(o))[k].members).Some?
  }

  /** A node after it has been joined, as far as that goes. */
  function SupplementedNode(supplies: seq<Supply>, node: Node): Node {
    node.(members := SupplementedUntil(supplies, node.members))
  }

  /**
   An instance after a read, also one that throws at one of its nodes. A child under the instance's own hash is hidden
   by it and left alone.
   */
  function ReadOne(hash: Hasher, supplies: seq<Supply>, o: Instance): Instance {
    var d := WithDefaults(o);
    var own := d.node.Hash(hash);
    Instance(d.query, if Reaches(hash, supplies, o, own) then SupplementedNode(supplies, d.node) else d.node,
             map h | h in d.children ::
               if h == own || !Reaches(hash, supplies, o, h) then d.children[h]
               else SupplementedNode(supplies, d.children[h]))
  }

  predicate ReadsAll(hash: Hasher, supplies: seq<Supply>, instances: map<int, Instance>) {
    forall h | h in instances :: Reads(hash, supplies, instances[h])
  }

  /** The instances after `getInstances`: they are read by ascending hash until one throws. */
  function ReadUntil(hash: Hasher, supplies: seq<Supply>, instances: map<int, Instance>): map<int, Instance> {
    map h | h in instances ::
      if forall k | k in instances && k < h :: Reads(hash, supplies, instances[k])
      then ReadOne(hash, supplies, instances[h]) else instances[h]
  }

  /** The instances after a `getInstances` that succeeds; `None` stands for an exception. */
  function Read(hash: Hasher, providers: seq<Provider>, instances: map<int, Instance>): Option<map<int, Instance>> {
    var supplies := SuppliesOf(hash, providers);
    if ReadsAll(hash, supplies, instances) then Some(ReadUntil(hash, supplies, instances)) else None
  }

  lemma LinkedThrough(rule: LinkRule, supplements: seq<Members>, target: Members)
    requires Linked(rule, supplements, target).Some?
    ensures LinkedUntil(rule, supplements, target) == Linked(rule, supplements, target).value
  {
  }

  lemma SupplementedThrough(supplies: seq<Supply>, target: Members)
    requires Supplemented(supplies, target).Some?
    ensures SupplementedUntil(supplies, target) == Supplemented(supplies, target).value
  {
    if supplies != [] {
      var n := |supplies| - 1;
      LinkedThrough(supplies[n].rule, supplies[n].supplements, Supplemented(supplies[..n], target).value);
    }
  }

  /** A read that succeeds reaches every node. */
  lemma ReadsReach(hash: Hasher, supplies: seq<Supply>, o: Instance, h: int)
    requires Reads(hash, supplies, o)
    ensures Reaches(hash, supplies, o, h)
  {
  }

  lemma WithDefaultsTwice(o: Instance)
    ensures WithDefaults(WithDefaults(o)) == WithDefaults(o)
  {
    assert o.node.members + o.query.defaults + o.query.defaults == o.node.members + o.query.defaults;
  }
}
