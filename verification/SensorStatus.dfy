/** The status a sensor reports, from the history of association updates to the answer of a read. */
module SensorStatus {
  import opened CacheBatch
  import opened CacheChildren
  import opened EntityLinks
  import opened EntityReads
  import opened EntitySpec
  import opened FieldValues
  import opened Options
  import opened Orders
  import opened Queries
  import opened Statuses

  /** An object of the status provider with every update of its association list. */
  datatype StatusObject = StatusObject(service: string, path: string, updates: seq<seq<Association>>) {
    function Reports(): seq<Report> {
      seq(|updates|, i requires 0 <= i < |updates| =>
        Report(DEFINITION_INTERFACE, map["Associations" := Associations(updates[i])]))
    }

    /** The list in force. */
    function Latest(): seq<Association> {
      if updates == [] then [] else updates[|updates| - 1]
    }

    /** What the object says about the object at `path`; about itself it cannot say anything. */
    function SourceFor(target: string): Option<string> {
      if path == target then None else LastSource(Latest(), target)
    }
  }

  /** The source of the last association that ends at `endpoint`. */
  function LastSource(list: seq<Association>, endpoint: string): Option<string> {
    if list == [] then None
    else
      var n := |list| - 1;
      if list[n].endpoint == endpoint then Some(list[n].source) else LastSource(list[..n], endpoint)
  }

  function Endpoints(list: seq<Association>): set<string> {
    set i | 0 <= i < |list| :: list[i].endpoint
  }

  ghost predicate DistinctOn(hash: Hasher, service: string, paths: set<string>) {
    forall p, q | p in paths && q in paths && hash(service, p) == hash(service, q) :: p == q
  }

  /** An object and the endpoints in force have different hashes. */
  ghost predicate DistinctHashes(hash: Hasher, o: StatusObject) {
    DistinctOn(hash, o.service, Endpoints(o.Latest()) + {o.path})
  }

  lemma {:induction false} SourceHasEndpoint(list: seq<Association>, e: string)
    requires LastSource(list, e).Some?
    ensures e in Endpoints(list)
  {
    var n := |list| - 1;
    if list[n].endpoint != e {
      SourceHasEndpoint(list[..n], e);
      assert forall i | 0 <= i < n :: list[..n][i] == list[i];
    }
  }

  // One association

  /** A child carries the source as status and the endpoint as path and causer. */
  ghost predicate IsChild(node: Node, service: string, source: string, endpoint: string) {
    && node.service == service && node.path == endpoint
    && Field(node.members, FIELD_STATUS) == StrValue(source)
    && Field(node.members, FIELD_CAUSER) == StrValue(endpoint)
  }

  lemma ChildDictionary()
    ensures StatusQuery().PropertyMembers(FIELD_ASSOCIATIONS)
         == map["Source" := FIELD_STATUS, "Endpoint" := FIELD_CAUSER]
    ensures forall property, value: Variant :: StatusQuery().Formatted(property, value) == Some(value)
  {
    assert |DEFINITION_INTERFACE| != |FIELD_ASSOCIATIONS|;
  }

  lemma ChildFills(hash: Hasher, o: Instance, a: Association)
    requires o.query == StatusQuery()
    ensures Fill(hash, o, FIELD_ASSOCIATIONS, AssociationProperties(a)).Some?
  {
    ChildDictionary();
    FillSucceeds(hash, o, FIELD_ASSOCIATIONS, AssociationProperties(a));
  }

  lemma ChildFilled(hash: Hasher, o: Instance, a: Association, property: string, member: string)
    requires o.query == StatusQuery() && property in AssociationProperties(a)
    requires property in StatusQuery().PropertyMembers(FIELD_ASSOCIATIONS)
    requires StatusQuery().PropertyMembers(FIELD_ASSOCIATIONS)[property] == member
    ensures Fill(hash, o, FIELD_ASSOCIATIONS, AssociationProperties(a)).Some?
    ensures Scalar(Field(Fill(hash, o, FIELD_ASSOCIATIONS, AssociationProperties(a)).value.node.members, member))
         == AssociationProperties(a)[property]
  {
    ChildDictionary();
    StatusIsInjective();
    ChildFills(hash, o, a);
    OneMoreReport(hash, o, Report(FIELD_ASSOCIATIONS, AssociationProperties(a)), FIELD_ASSOCIATIONS, property);
  }

  lemma ChildOfAssociation(hash: Hasher, service: string, a: Association)
    ensures Child(hash, StatusQuery(), service, FIELD_ASSOCIATIONS, a).Some?
    ensures IsChild(Child(hash, StatusQuery(), service, FIELD_ASSOCIATIONS, a).value, service, a.source, a.endpoint)
  {
    var o := NewInstance(StatusQuery(), service, a.endpoint);
    ChildDictionary();
    ChildFilled(hash, o, a, "Source", FIELD_STATUS);
    ChildFilled(hash, o, a, "Endpoint", FIELD_CAUSER);
    var dict := o.query.PropertyMembers(FIELD_ASSOCIATIONS);
    FillKeepsIdentity(hash, o, dict, AssociationProperties(a), SortedStrings(dict.Keys), 0);
  }

  // One list

  /** The children of a list: for every endpoint the last association, and nothing else. */
  ghost predicate AreChildren(hash: Hasher, service: string, list: seq<Association>, children: map<int, Node>) {
    && (forall e :: LastSource(list, e).Some? ==>
          hash(service, e) in children && IsChild(children[hash(service, e)], service, LastSource(list, e).value, e))
    && (forall h | h in children :: exists e :: h == hash(service, e) && LastSource(list, e).Some?)
  }

  lemma {:induction false} ChildrenExist(hash: Hasher, service: string, list: seq<Association>)
    ensures Children(hash, StatusQuery(), service, FIELD_ASSOCIATIONS, list).Some?
  {
    if list != [] {
      ChildrenExist(hash, service, list[..|list| - 1]);
      ChildOfAssociation(hash, service, list[|list| - 1]);
    }
  }

  lemma {:induction false} ChildrenOfList(hash: Hasher, service: string, list: seq<Association>)
    requires DistinctOn(hash, service, Endpoints(list))
    ensures Children(hash, StatusQuery(), service, FIELD_ASSOCIATIONS, list).Some?
    ensures AreChildren(hash, service, list, Children(hash, StatusQuery(), service, FIELD_ASSOCIATIONS, list).value)
  {
    if list != [] {
      var n := |list| - 1;
      assert forall i | 0 <= i < n :: list[..n][i] == list[i];
      assert Endpoints(list[..n]) <= Endpoints(list);
      ChildrenOfList(hash, service, list[..n]);
      ChildOfAssociation(hash, service, list[n]);
      OneMoreChild(hash, service, list, Children(hash, StatusQuery(), service, FIELD_ASSOCIATIONS, list[..n]).value,
                   Child(hash, StatusQuery(), service, FIELD_ASSOCIATIONS, list[n]).value);
    }
  }

  lemma OneMoreChild(hash: Hasher, service: string, list: seq<Association>, children: map<int, Node>, child: Node)
    requires list != [] && DistinctOn(hash, service, Endpoints(list))
    requires AreChildren(hash, service, list[..|list| - 1], children)
    requires IsChild(child, service, list[|list| - 1].source, list[|list| - 1].endpoint)
    ensures AreChildren(hash, service, list, children[child.Hash(hash) := child])
  {
    var after := children[child.Hash(hash) := child];
    var last := list[|list| - 1].endpoint;
    forall e | LastSource(list, e).Some?
      ensures hash(service, e) in after && IsChild(after[hash(service, e)], service, LastSource(list, e).value, e)
    {
      SourceHasEndpoint(list, e);
      assert last in Endpoints(list);
    }
    forall h | h in after
      ensures exists e :: h == hash(service, e) && LastSource(list, e).Some?
    {
      if h == child.Hash(hash) {
        assert h == hash(service, last) && LastSource(list, last).Some?;
      } else {
        var e :| h == hash(service, e) && LastSource(list[..|list| - 1], e).Some?;
        assert LastSource(list, e).Some?;
      }
    }
  }

  // One provider object

  /** The instance of a provider object after its history. */
  function Reached(hash: Hasher, o: StatusObject): Option<Instance> {
    After(hash, NewInstance(StatusQuery(), o.service, o.path), o.Reports())
  }

  lemma FillSingle(hash: Hasher, o: Instance, property: string, member: string, value: Variant)
    ensures FillFrom(hash, o, map[property := member], map[property := value], [property], 0)
         == FillMember(hash, o, property, member, value)
  {
    var dict, properties := map[property := member], map[property := value];
    var filled := FillMember(hash, o, property, member, value);
    if filled.Some? {
      assert FillFrom(hash, filled.value, dict, properties, [property], 1) == filled;
    }
  }

  lemma DefinitionDictionary()
    ensures StatusQuery().PropertyMembers(DEFINITION_INTERFACE) == map["Associations" := FIELD_ASSOCIATIONS]
    ensures forall value: Variant :: StatusQuery().Formatted("Associations", value) == Some(value)
  {
    assert |DEFINITION_INTERFACE| != |FIELD_ASSOCIATIONS|;
  }

  lemma FillDefinition(hash: Hasher, before: Instance, value: Variant)
    requires before.query == StatusQuery()
    ensures Fill(hash, before, DEFINITION_INTERFACE, map["Associations" := value])
         == FillMember(hash, before, "Associations", FIELD_ASSOCIATIONS, value)
  {
    DefinitionDictionary();
    OnlyKey("Associations", FIELD_ASSOCIATIONS);
    FillSingle(hash, before, "Associations", FIELD_ASSOCIATIONS, value);
  }

  lemma UpdateReplacesChildren(hash: Hasher, before: Instance, list: seq<Association>)
    requires before.query == StatusQuery()
    requires Children(hash, StatusQuery(), before.node.service, FIELD_ASSOCIATIONS, list).Some?
    ensures Fill(hash, before, DEFINITION_INTERFACE, map["Associations" := Associations(list)])
         == Some(before.(
                   children := Children(hash, StatusQuery(), before.node.service, FIELD_ASSOCIATIONS, list).value))
  {
    FillDefinition(hash, before, Associations(list));
    DefinitionDictionary();
    ListReplacesChildren(hash, before, "Associations", FIELD_ASSOCIATIONS, list);
  }

  lemma ListReplacesChildren(hash: Hasher, before: Instance, property: string, member: string, list: seq<Association>)
    requires before.query.Formatted(property, Associations(list)) == Some(Associations(list))
    requires Children(hash, before.query, before.node.service, member, list).Some?
    ensures FillMember(hash, before, property, member, Associations(list))
         == Some(before.(children := Children(hash, before.query, before.node.service, member, list).value))
  {
  }

  lemma OnlyKey(key: string, value: string)
    ensures SortedStrings(map[key := value].Keys) == [key]
  {
    var keys := SortedStrings(map[key := value].Keys);
    assert |{key}| == 1 && map[key := value].Keys == {key};
    assert keys[0] in keys;
  }

  lemma {:induction false} ReachedExists(hash: Hasher, o: StatusObject)
    ensures Reached(hash, o).Some?
    ensures Reached(hash, o).value.query == StatusQuery() && Reached(hash, o).value.node == NewNode(o.service, o.path)
    ensures Some(Reached(hash, o).value.children)
         == Children(hash, StatusQuery(), o.service, FIELD_ASSOCIATIONS, o.Latest())
    decreases |o.updates|
  {
    if o.updates != [] {
      var n := |o.updates| - 1;
      var earlier := o.(updates := o.updates[..n]);
      ReachedExists(hash, earlier);
      ReachedStep(hash, o, earlier);
      ChildrenExist(hash, o.service, o.updates[n]);
      UpdateReplacesChildren(hash, Reached(hash, earlier).value, o.updates[n]);
    }
  }

  lemma ReachedStep(hash: Hasher, o: StatusObject, earlier: StatusObject)
    requires o.updates != [] && earlier == o.(updates := o.updates[..|o.updates| - 1])
    requires Reached(hash, earlier).Some?
    ensures Reached(hash, o)
         == Fill(hash, Reached(hash, earlier).value, DEFINITION_INTERFACE,
                 map["Associations" := Associations(o.Latest())])
  {
    assert Front(o.Reports()) == earlier.Reports();
  }

  lemma ReachedMeaning(hash: Hasher, o: StatusObject)
    requires DistinctHashes(hash, o)
    ensures Reached(hash, o).Some?
    ensures AreChildren(hash, o.service, o.Latest(), Reached(hash, o).value.children)
  {
    ReachedExists(hash, o);
    ChildrenOfList(hash, o.service, o.Latest());
  }

  lemma OwnNode(hash: Hasher, o: StatusObject)
    ensures Reached(hash, o).Some?
    ensures var d := WithDefaults(Reached(hash, o).value);
      && d.node.service == o.service && d.node.path == o.path && d.children == Reached(hash, o).value.children
      && Field(d.node.members, FIELD_CAUSER) == NOT_AVAILABLE
      && Field(d.node.members, FIELD_STATUS) == StrValue(STATUS_OK)
  {
    ReachedExists(hash, o);
    assert |FIELD_CAUSER| == |FIELD_STATUS| == 6 && |META_OBJECT_PATH| == 25 && |META_OBJECT_SERVICE| == 28;
    assert FIELD_CAUSER[0] == 'C' && FIELD_STATUS[0] == 'S';
  }

  // All provider objects

  /**
   An instance that has seen the updates of `o`, however often its defaults were reset in between: reading it shows
   what reading the instance after the updates alone would show.
   */
  ghost predicate ShowsHistory(hash: Hasher, o: StatusObject, instance: Instance) {
    Reached(hash, o).Some? && WithDefaults(instance) == WithDefaults(Reached(hash, o).value)
  }

  /** Instance `h` of the provider went through the history of object `h`, with any reads in between. */
  ghost predicate Histories(hash: Hasher, objects: map<int, StatusObject>, instances: map<int, Instance>) {
    instances.Keys == objects.Keys && forall h | h in objects :: ShowsHistory(hash, objects[h], instances[h])
  }

  /** A new instance has an empty history. */
  lemma NewShowsHistory(hash: Hasher, service: string, path: string)
    ensures ShowsHistory(hash, StatusObject(service, path, []), NewInstance(StatusQuery(), service, path))
  {
  }

  /** One more update, whenever it comes, is one more entry of the history. */
  lemma UpdateShowsHistory(hash: Hasher, o: StatusObject, instance: Instance, list: seq<Association>)
    requires ShowsHistory(hash, o, instance)
    ensures var updated := Fill(hash, instance, DEFINITION_INTERFACE, map["Associations" := Associations(list)]);
      updated.Some? && ShowsHistory(hash, o.(updates := o.updates + [list]), updated.value)
  {
    var later := o.(updates := o.updates + [list]);
    assert later.updates[..|later.updates| - 1] == o.updates;
    ReachedExists(hash, o);
    ReachedExists(hash, later);
    ReachedStep(hash, later, o);
    ChildrenExist(hash, o.service, list);
    assert instance.query == WithDefaults(instance).query == StatusQuery();
    assert instance.node.service == WithDefaults(instance).node.service == o.service;
    UpdateReplacesChildren(hash, instance, list);
    UpdateReplacesChildren(hash, Reached(hash, o).value, list);
  }

  /** Reading the provider resets its defaults and leaves every history as it is. */
  lemma ReadKeepsHistories(hash: Hasher, objects: map<int, StatusObject>, instances: map<int, Instance>,
                           served: map<int, Instance>)
    requires Histories(hash, objects, instances) && AllWithDefaults(served) == AllWithDefaults(instances)
    ensures Histories(hash, objects, served)
  {
    assert AllWithDefaults(served).Keys == served.Keys && AllWithDefaults(instances).Keys == instances.Keys;
    forall h | h in objects
      ensures WithDefaults(served[h]) == WithDefaults(instances[h])
    {
      assert AllWithDefaults(served)[h] == AllWithDefaults(instances)[h];
    }
  }

  ghost predicate AllDistinct(hash: Hasher, objects: map<int, StatusObject>) {
    forall h | h in objects :: DistinctHashes(hash, objects[h])
  }

  /** Histories of association updates never fail. */
  lemma HistoriesExist(hash: Hasher, objects: map<int, StatusObject>)
    ensures exists instances :: Histories(hash, objects, instances)
  {
    forall h | h in objects
      ensures Reached(hash, objects[h]).Some?
    {
      ReachedExists(hash, objects[h]);
    }
    var instances := map h | h in objects :: Reached(hash, objects[h]).value;
    assert Histories(hash, objects, instances);
  }

  /** A supplement that names the target is the child for it, or the object itself with the default status. */
  lemma SuppliedFor(hash: Hasher, o: StatusObject, target: string, x: Members)
    requires DistinctHashes(hash, o) && Reached(hash, o).Some?
    requires Supplies(hash, WithDefaults(Reached(hash, o).value), x) && Field(x, FIELD_CAUSER) == StrValue(target)
    ensures Field(x, FIELD_STATUS) == StrValue(STATUS_OK)
      || (o.SourceFor(target).Some? && Field(x, FIELD_STATUS) == StrValue(o.SourceFor(target).value))
  {
    ReachedMeaning(hash, o);
    OwnNode(hash, o);
    var d := WithDefaults(Reached(hash, o).value);
    var k :| k in NodesOf(hash, d) && NodesOf(hash, d)[k].members == x;
    if k != d.node.Hash(hash) {
      var e :| k == hash(o.service, e) && LastSource(o.Latest(), e).Some?;
      SourceHasEndpoint(o.Latest(), e);
      assert IsChild(d.children[k], o.service, LastSource(o.Latest(), e).value, e);
    }
  }

  ghost predicate SuppliesSource(hash: Hasher, o: Instance, target: string, source: string, x: Members) {
    Supplies(hash, o, x) && Field(x, FIELD_CAUSER) == StrValue(target) && Field(x, FIELD_STATUS) == StrValue(source)
  }

  lemma SourceIsSupplied(hash: Hasher, o: StatusObject, target: string)
    requires DistinctHashes(hash, o) && Reached(hash, o).Some? && o.SourceFor(target).Some?
    ensures exists x :: SuppliesSource(hash, WithDefaults(Reached(hash, o).value), target, o.SourceFor(target).value, x)
  {
    ReachedMeaning(hash, o);
    OwnNode(hash, o);
    var d := WithDefaults(Reached(hash, o).value);
    var k := hash(o.service, target);
    SourceHasEndpoint(o.Latest(), target);
    assert k in d.children && k != d.node.Hash(hash);
    assert NodesOf(hash, d)[k] == d.children[k];
    assert Supplies(hash, d, d.children[k].members);
    assert SuppliesSource(hash, d, target, o.SourceFor(target).value, d.children[k].members);
  }

  // The sensor

  ghost predicate Names(o: StatusObject, target: string, rank: Option<nat>) {
    o.SourceFor(target).Some? && Rank(o.SourceFor(target).value) == rank
  }

  /** No object brings a status without a rank for the target. */
  ghost predicate AllRanked(objects: map<int, StatusObject>, target: string) {
    forall h | h in objects :: !Names(objects[h], target, None)
  }

  /** The largest of `OK` and what the objects say about the target. */
  ghost predicate IsMaximum(objects: map<int, StatusObject>, target: string, rank: nat) {
    && (forall h, r: nat | h in objects && Names(objects[h], target, Some(r)) :: r <= rank)
    && (rank == 0 || exists h :: h in objects && Names(objects[h], target, Some(rank)))
  }

  /** The maximum in canonical spelling. */
  ghost predicate HasTop(objects: map<int, StatusObject>, target: string, status: FieldValue) {
    exists rank: nat | rank <= 2 :: IsMaximum(objects, target, rank) && status == StrValue(Spelling(rank))
  }

  // The same in words

  /** Association `i` is the last of the list that ends at `endpoint`. */
  ghost predicate IsLast(list: seq<Association>, i: int, endpoint: string) {
    0 <= i < |list| && list[i].endpoint == endpoint && forall j | i < j < |list| :: list[j].endpoint != endpoint
  }

  ghost predicate EndsWith(list: seq<Association>, endpoint: string, source: string) {
    exists i :: IsLast(list, i, endpoint) && list[i].source == source
  }

  /**
   `source` is in force for the object at `target`: the last update of `o` has it in the last association that ends
   there. About itself an object cannot say anything.
   */
  ghost predicate InForce(o: StatusObject, target: string, source: string) {
    o.path != target && o.updates != [] && EndsWith(o.updates[|o.updates| - 1], target, source)
  }

  ghost predicate AllKnown(objects: map<int, StatusObject>, target: string) {
    forall h, source | h in objects && InForce(objects[h], target, source) :: IsKnown(source)
  }

  /** Some source in force for the target is the given word. */
  ghost predicate Says(objects: map<int, StatusObject>, target: string, word: string) {
    exists h, source :: h in objects && InForce(objects[h], target, source) && Spells(source, word)
  }

  /** The worst of the sources in force, or `OK`. */
  ghost predicate Maximum(objects: map<int, StatusObject>, target: string, status: FieldValue) {
    status == StrValue(if Says(objects, target, "critical") then "Critical"
                       else if Says(objects, target, "warning") then "Warning"
                       else "OK")
  }

  lemma {:induction false} LastSourceInWords(list: seq<Association>, endpoint: string, source: string)
    ensures LastSource(list, endpoint) == Some(source)
       <==> EndsWith(list, endpoint, source)
  {
    if list != [] {
      var n := |list| - 1;
      LastSourceInWords(list[..n], endpoint, source);
      if list[n].endpoint == endpoint {
        assert IsLast(list, n, endpoint);
      } else {
        forall i
          ensures IsLast(list[..n], i, endpoint) <==> IsLast(list, i, endpoint)
        {
        }
      }
    }
  }

  lemma InForceIsSource(o: StatusObject, target: string, source: string)
    ensures InForce(o, target, source) <==> o.SourceFor(target) == Some(source)
  {
    LastSourceInWords(o.Latest(), target, source);
  }

  lemma RankedIsKnown(objects: map<int, StatusObject>, target: string)
    ensures AllRanked(objects, target) <==> AllKnown(objects, target)
  {
    forall h, source | h in objects && InForce(objects[h], target, source) && AllRanked(objects, target)
      ensures IsKnown(source)
    {
      InForceIsSource(objects[h], target, source);
      RankInWords(source);
      assert !Names(objects[h], target, None);
    }
    if h :| h in objects && Names(objects[h], target, None) {
      var source := objects[h].SourceFor(target).value;
      InForceIsSource(objects[h], target, source);
      RankInWords(source);
    }
  }

  lemma SaysIsNamed(objects: map<int, StatusObject>, target: string)
    ensures Says(objects, target, "critical") <==> exists h :: h in objects && Names(objects[h], target, Some(2))
    ensures Says(objects, target, "warning") <==> exists h :: h in objects && Names(objects[h], target, Some(1))
  {
    if Says(objects, target, "critical") {
      var h, source :| h in objects && InForce(objects[h], target, source) && Spells(source, "critical");
      InForceIsSource(objects[h], target, source);
      RankInWords(source);
      assert Names(objects[h], target, Some(2));
    }
    if Says(objects, target, "warning") {
      var h, source :| h in objects && InForce(objects[h], target, source) && Spells(source, "warning");
      InForceIsSource(objects[h], target, source);
      RankInWords(source);
      assert Names(objects[h], target, Some(1));
    }
    forall h | h in objects && objects[h].SourceFor(target).Some?
      ensures Names(objects[h], target, Some(2)) ==> Says(objects, target, "critical")
      ensures Names(objects[h], target, Some(1)) ==> Says(objects, target, "warning")
    {
      var source := objects[h].SourceFor(target).value;
      InForceIsSource(objects[h], target, source);
      RankInWords(source);
    }
  }

  lemma TopInWords(objects: map<int, StatusObject>, target: string, status: FieldValue)
    requires HasTop(objects, target, status)
    ensures Maximum(objects, target, status)
  {
    SaysIsNamed(objects, target);
  }

  function StatusLinks(hash: Hasher, instances: map<int, Instance>): seq<Link> {
    LinksOf(StatusRule, Supplements(hash, instances))
  }

  lemma LinkOf(rule: LinkRule, supplements: seq<Members>, l: Link)
    ensures l in LinksOf(rule, supplements) <==> l.rule == rule && l.supplement in supplements
  {
    if l.rule == rule && l.supplement in supplements {
      var i :| 0 <= i < |supplements| && supplements[i] == l.supplement;
      assert LinksOf(rule, supplements)[i] == l;
    }
  }

  lemma LinkSource(hash: Hasher, instances: map<int, Instance>, l: Link)
    ensures l in StatusLinks(hash, instances) <==>
      l.rule == StatusRule && exists h :: h in instances && Supplies(hash, WithDefaults(instances[h]), l.supplement)
  {
    LinkOf(StatusRule, Supplements(hash, instances), l);
    SupplementsMeaning(hash, instances, l.supplement);
  }

  lemma LinkFromObject(hash: Hasher, objects: map<int, StatusObject>, instances: map<int, Instance>, target: string,
                       l: Link)
    requires AllDistinct(hash, objects) && Histories(hash, objects, instances)
    requires l in StatusLinks(hash, instances) && Relevant(l, StrValue(target))
    ensures Candidate(l) == Some(0) || exists h :: h in objects && Names(objects[h], target, Candidate(l))
  {
    SpellingHasRank(0);
    LinkSource(hash, instances, l);
    var h :| h in instances && Supplies(hash, WithDefaults(instances[h]), l.supplement);
    SuppliedFor(hash, objects[h], target, l.supplement);
    if Candidate(l) != Some(0) {
      assert Names(objects[h], target, Candidate(l));
    }
  }

  lemma ObjectHasLink(hash: Hasher, objects: map<int, StatusObject>, instances: map<int, Instance>, target: string,
                      h: int, rank: Option<nat>)
    requires AllDistinct(hash, objects) && Histories(hash, objects, instances)
    requires h in objects && Names(objects[h], target, rank)
    ensures exists l :: l in StatusLinks(hash, instances) && Relevant(l, StrValue(target)) && Candidate(l) == rank
  {
    SourceIsSupplied(hash, objects[h], target);
    var x :| SuppliesSource(hash, WithDefaults(instances[h]), target, objects[h].SourceFor(target).value, x);
    var l := Link(StatusRule, x);
    LinkSource(hash, instances, l);
    assert Relevant(l, StrValue(target)) && Candidate(l) == rank;
  }

  /** In terms of the histories: when the fold succeeds, and what it yields. */
  lemma FoldIsMaximum(hash: Hasher, objects: map<int, StatusObject>, instances: map<int, Instance>, target: string)
    requires AllDistinct(hash, objects) && Histories(hash, objects, instances)
    ensures var status := StatusAfter(StatusLinks(hash, instances), StrValue(target), StrValue(STATUS_OK));
      && (status.Some? <==> AllKnown(objects, target))
      && (status.Some? ==> Maximum(objects, target, status.value))
  {
    var status := StatusAfter(StatusLinks(hash, instances), StrValue(target), StrValue(STATUS_OK));
    FoldIsTop(hash, objects, instances, target);
    RankedIsKnown(objects, target);
    if status.Some? {
      TopInWords(objects, target, status.value);
    }
  }

  lemma FoldIsTop(hash: Hasher, objects: map<int, StatusObject>, instances: map<int, Instance>, target: string)
    requires AllDistinct(hash, objects) && Histories(hash, objects, instances)
    ensures var status := StatusAfter(StatusLinks(hash, instances), StrValue(target), StrValue(STATUS_OK));
      && (status.Some? <==> AllRanked(objects, target))
      && (status.Some? ==> HasTop(objects, target, status.value))
  {
    var links, path := StatusLinks(hash, instances), StrValue(target);
    StatusIsJoin(links, path, 0);
    KnownLinks(hash, objects, instances, target);
    if StatusAfter(links, path, StrValue(STATUS_OK)).Some? {
      var rank: nat :| rank <= 2 && StatusAfter(links, path, StrValue(Spelling(0))) == Some(StrValue(Spelling(rank)))
        && IsJoin(links, path, Spelling(0), Spelling(rank));
      JoinIsMaximum(hash, objects, instances, target, rank);
    }
  }

  lemma KnownLinks(hash: Hasher, objects: map<int, StatusObject>, instances: map<int, Instance>, target: string)
    requires AllDistinct(hash, objects) && Histories(hash, objects, instances)
    ensures (forall l | l in StatusLinks(hash, instances) && Relevant(l, StrValue(target)) :: Candidate(l).Some?)
       <==> AllRanked(objects, target)
  {
    if l :| l in StatusLinks(hash, instances) && Relevant(l, StrValue(target)) && Candidate(l).None? {
      LinkFromObject(hash, objects, instances, target, l);
    }
    if h :| h in objects && Names(objects[h], target, None) {
      ObjectHasLink(hash, objects, instances, target, h, None);
    }
  }

  lemma JoinIsMaximum(hash: Hasher, objects: map<int, StatusObject>, instances: map<int, Instance>, target: string,
                      rank: nat)
    requires AllDistinct(hash, objects) && Histories(hash, objects, instances) && rank <= 2
    requires IsJoin(StatusLinks(hash, instances), StrValue(target), Spelling(0), Spelling(rank))
    ensures IsMaximum(objects, target, rank)
  {
    SpellingHasRank(0);
    SpellingHasRank(rank);
    forall h, r: nat | h in objects && Names(objects[h], target, Some(r))
      ensures r <= rank
    {
      ObjectHasLink(hash, objects, instances, target, h, Some(r));
    }
    if rank != 0 {
      var l :| l in StatusLinks(hash, instances) && Relevant(l, StrValue(target)) && Candidate(l) == Some(rank);
      LinkFromObject(hash, objects, instances, target, l);
    }
  }

  lemma {:induction false} NoVersions(supplements: seq<Members>)
    ensures Versions(LinksOf(StatusRule, supplements)) == map[]
  {
    if supplements != [] {
      var n := |supplements| - 1;
      assert LinksOf(StatusRule, supplements)[..n] == LinksOf(StatusRule, supplements[..n]);
      NoVersions(supplements[..n]);
    }
  }

  /** What the status provider brings to a read. */
  function StatusSupplies(hash: Hasher, instances: map<int, Instance>): seq<Supply> {
    [Supply(StatusRule, Supplements(hash, instances))]
  }

  lemma OneProvider(hash: Hasher, instances: map<int, Instance>)
    ensures SuppliesOf(hash, [Provider(StatusRule, instances)]) == StatusSupplies(hash, instances)
  {
  }

  lemma StatusAlone(links: seq<Link>, m: Members)
    requires FIELD_STATUS in m && Versions(links) == map[]
    ensures Fold(links, m)
         == match StatusAfter(links, Field(m, META_OBJECT_PATH), m[FIELD_STATUS]) {
              case None => None
              case Some(s) => Some(m[FIELD_STATUS := s]) }
  {
    FoldShape(links, m);
    NothingAdded(m);
  }

  /** Joining members with the status provider alone changes the status alone. */
  lemma JoinedStatus(hash: Hasher, instances: map<int, Instance>, m: Members)
    requires FIELD_STATUS in m
    ensures Supplemented(StatusSupplies(hash, instances), m)
         == match StatusAfter(StatusLinks(hash, instances), Field(m, META_OBJECT_PATH), m[FIELD_STATUS]) {
              case None => None
              case Some(s) => Some(m[FIELD_STATUS := s]) }
  {
    OneSupply(StatusSupplies(hash, instances)[0], m);
    SupplementedIsFold(StatusSupplies(hash, instances), m);
    NoVersions(Supplements(hash, instances));
    StatusAlone(StatusLinks(hash, instances), m);
  }

  lemma SingleNode(hash: Hasher, o: Instance)
    requires o.children == map[]
    ensures NodesOf(hash, WithDefaults(o))
         == map[WithDefaults(o).node.Hash(hash) := WithDefaults(o).node]
  {
  }

  lemma SingleRead(hash: Hasher, supplies: seq<Supply>, o: Instance)
    requires o.children == map[]
    ensures Reads(hash, supplies, o) <==> Supplemented(supplies, WithDefaults(o).node.members).Some?
    ensures Reads(hash, supplies, o) ==>
      Some(ReadOne(hash, supplies, o).node.members) == Supplemented(supplies, WithDefaults(o).node.members)
  {
    SingleNode(hash, o);
    var node := WithDefaults(o).node;
    var own := node.Hash(hash);
    assert own in NodesOf(hash, WithDefaults(o)) && NodesOf(hash, WithDefaults(o))[own] == node;
    if Supplemented(supplies, node.members).Some? {
      forall h | h in NodesOf(hash, WithDefaults(o))
        ensures Supplemented(supplies, NodesOf(hash, WithDefaults(o))[h].members).Some?
      {
        assert h == own;
      }
      ReadNodes(hash, supplies, o);
    }
  }

  /**
   End to end: after any history of association updates, reading a sensor at `target` succeeds exactly if every source
   in force for it is a known status, and then reports, in canonical spelling, the maximum of `OK` and those sources.
   */
  lemma SensorReportsMaximum(hash: Hasher, objects: map<int, StatusObject>, instances: map<int, Instance>,
                             sensor: Instance, target: string)
    requires AllDistinct(hash, objects) && Histories(hash, objects, instances)
    requires IsSensor(sensor, target)
    ensures var supplies := SuppliesOf(hash, [Provider(StatusRule, instances)]);
      && (Reads(hash, supplies, sensor) <==> AllKnown(objects, target))
      && (AllKnown(objects, target) ==>
            Maximum(objects, target, Field(ReadOne(hash, supplies, sensor).node.members, FIELD_STATUS)))
  {
    NotAVersion();
    var m := WithDefaults(sensor).node.members;
    assert m[FIELD_STATUS] == StrValue(STATUS_OK) && Field(m, META_OBJECT_PATH) == StrValue(target);
    OneProvider(hash, instances);
    SingleRead(hash, StatusSupplies(hash, instances), sensor);
    JoinedStatus(hash, instances, m);
    FoldIsMaximum(hash, objects, instances, target);
  }

  /** A sensor as the cache holds it: it has its path and no children. */
  ghost predicate IsSensor(sensor: Instance, path: string) {
    && sensor.query == SensorsQuery() && sensor.children == map[]
    && Field(sensor.node.members, META_OBJECT_PATH) == StrValue(path)
  }

  /** Joining never touches the path, not even when it throws. */
  lemma {:induction false} LinkedKeepsPath(rule: LinkRule, supplements: seq<Members>, m: Members)
    ensures Field(LinkedUntil(rule, supplements, m), META_OBJECT_PATH) == Field(m, META_OBJECT_PATH)
    ensures Linked(rule, supplements, m).Some? ==>
      Field(Linked(rule, supplements, m).value, META_OBJECT_PATH) == Field(m, META_OBJECT_PATH)
  {
    if supplements != [] {
      var n := |supplements| - 1;
      LinkedKeepsPath(rule, supplements[..n], m);
      if Linked(rule, supplements[..n], m).Some? {
        NotAVersion();
        ApplyShape(Link(rule, supplements[n]), Linked(rule, supplements[..n], m).value);
        VersionStepOnly(Link(rule, supplements[n]));
      }
    }
  }

  lemma {:induction false} SupplementedKeepsPath(supplies: seq<Supply>, m: Members)
    ensures Field(SupplementedUntil(supplies, m), META_OBJECT_PATH) == Field(m, META_OBJECT_PATH)
    ensures Supplemented(supplies, m).Some? ==>
      Field(Supplemented(supplies, m).value, META_OBJECT_PATH) == Field(m, META_OBJECT_PATH)
  {
    if supplies != [] {
      var n := |supplies| - 1;
      SupplementedKeepsPath(supplies[..n], m);
      if Supplemented(supplies[..n], m).Some? {
        LinkedKeepsPath(supplies[n].rule, supplies[n].supplements, Supplemented(supplies[..n], m).value);
      }
    }
  }

  /** A sensor that is read is a sensor afterwards, even if the read throws. */
  lemma ReadKeepsSensor(hash: Hasher, supplies: seq<Supply>, sensor: Instance, path: string)
    requires IsSensor(sensor, path)
    ensures IsSensor(ReadOne(hash, supplies, sensor), path)
  {
    NotAVersion();
    var m := WithDefaults(sensor).node.members;
    assert Field(m, META_OBJECT_PATH) == StrValue(path);
    SupplementedKeepsPath(supplies, m);
  }

  // What a sensor is after any history of its own

  lemma SensorMembers(interface: string, property: string)
    requires interface in SensorsQuery().dictionary && property in SensorsQuery().dictionary[interface]
    ensures SensorsQuery().dictionary[interface][property] != META_OBJECT_PATH
  {
    assert |META_OBJECT_PATH| == 25;
  }

  /** The properties that the query reads are scalars; whatever else is reported may be of any type. */
  ghost predicate UsesScalars(query: Query, reports: seq<Report>) {
    forall r, p | r in reports && p in r.properties && p in query.PropertyMembers(r.interface) ::
      r.properties[p].Scalar?
  }

  lemma {:induction false} HistoryKeepsChildren(hash: Hasher, o: Instance, reports: seq<Report>)
    requires After(hash, o, reports).Some? && UsesScalars(o.query, reports)
    ensures After(hash, o, reports).value.children == o.children
  {
    if reports != [] {
      assert forall r | r in Front(reports) :: r in reports;
      HistoryKeepsChildren(hash, o, Front(reports));
      HistoryKeepsIdentity(hash, o, Front(reports));
      var before, last := After(hash, o, Front(reports)).value, Last(reports);
      assert last in reports;
      var dict := before.query.PropertyMembers(last.interface);
      assert forall p | p in SortedStrings(dict.Keys) :: p in dict;
      ScalarsKeepChildren(hash, before, dict, last.properties, SortedStrings(dict.Keys), 0);
    }
  }

  /**
   Whatever an object with a sensor reports, association lists included, the sensor keeps its path and has no children
   as long as the properties in its dictionary are scalars: the end-to-end result applies to it.
   */
  lemma SensorStaysPlain(hash: Hasher, o: Instance, path: string, reports: seq<Report>)
    requires IsSensor(o, path) && After(hash, o, reports).Some? && UsesScalars(SensorsQuery(), reports)
    ensures IsSensor(After(hash, o, reports).value, path)
  {
    HistoryKeepsIdentity(hash, o, reports);
    HistoryKeepsChildren(hash, o, reports);
    forall i, p | i in o.query.dictionary && p in o.query.dictionary[i]
      ensures o.query.dictionary[i][p] != META_OBJECT_PATH
    {
      SensorMembers(i, p);
    }
    OtherMembersStay(hash, o, reports, META_OBJECT_PATH);
  }

  lemma {:induction false} FillKeepsSensor(hash: Hasher, o: Instance, path: string, dict: map<string, string>,
                                           properties: Properties, keys: seq<string>, i: nat)
    requires IsSensor(o, path)
    requires forall p | p in keys :: p in dict && dict[p] != META_OBJECT_PATH
    requires forall p | p in keys && p in properties :: properties[p].Scalar?
    ensures IsSensor(FillFromUntil(hash, o, dict, properties, keys, i), path)
    decreases |keys| - i
  {
    if i < |keys| {
      assert keys[i] in keys;
      if keys[i] in properties {
        var next := FillMember(hash, o, keys[i], dict[keys[i]], properties[keys[i]]);
        if next.Some? {
          FillKeepsSensor(hash, next.value, path, dict, properties, keys, i + 1);
        }
      } else {
        FillKeepsSensor(hash, o, path, dict, properties, keys, i + 1);
      }
    }
  }

  /** The same for a single report, also one that a formatter refuses. */
  lemma ReportKeepsSensor(hash: Hasher, o: Instance, path: string, r: Report)
    requires IsSensor(o, path) && UsesScalars(SensorsQuery(), [r])
    ensures IsSensor(FillUntil(hash, o, r.interface, r.properties), path)
  {
    var dict := o.query.PropertyMembers(r.interface);
    assert r in [r];
    forall p | p in SortedStrings(dict.Keys)
      ensures p in dict && dict[p] != META_OBJECT_PATH
    {
      SensorMembers(r.interface, p);
    }
    FillKeepsSensor(hash, o, path, dict, r.properties, SortedStrings(dict.Keys), 0);
  }

  lemma NewIsSensor(service: string, path: string)
    ensures IsSensor(NewInstance(SensorsQuery(), service, path), path)
  {
    assert |META_OBJECT_PATH| != |META_OBJECT_SERVICE|;
  }
}
