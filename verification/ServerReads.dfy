/** The servers as a query sees them: which versions they show, from the reports of the software objects on. */
module ServerReads {
  import opened CacheBatch
  import opened CacheFormats
  import opened Entities
  import opened EntityCache
  import opened EntityLinks
  import opened EntityReads
  import opened EntitySpec
  import opened EntityStores
  import opened FieldValues
  import opened Options
  import opened Orders
  import opened Queries
  import opened SensorStatus
  import opened ServerVersions

  /** A software object with everything reported about it. */
  datatype SoftwareObject = SoftwareObject(service: string, path: string, reports: seq<Report>) {
    function Latest(property: string): FieldValue {
      match LastScalar(reports, VERSION_INTERFACE, property)
      case None => NOT_AVAILABLE
      case Some(v) => v
    }

    function Purpose(): VersionPurpose {
      if Latest("Purpose").StrValue? then PurposeOf(Latest("Purpose").text) else Unknown
    }
  }

  /** The version of the last object with the given purpose. */
  function VersionFor(objects: seq<SoftwareObject>, purpose: VersionPurpose): Option<FieldValue> {
    if objects == [] then None
    else
      var n := |objects| - 1;
      if objects[n].Purpose() == purpose then Some(objects[n].Latest("Version"))
      else VersionFor(objects[..n], purpose)
  }

  // One software object

  ghost predicate ShowsReports(hash: Hasher, o: SoftwareObject, instance: Instance) {
    && UsesScalars(VersionQuery(), o.reports)
    && After(hash, NewInstance(VersionQuery(), o.service, o.path), o.reports) == Some(instance)
  }

  lemma NewShowsReports(hash: Hasher, service: string, path: string)
    ensures ShowsReports(hash, SoftwareObject(service, path, []), NewInstance(VersionQuery(), service, path))
  {
  }

  /** One more report, whenever it comes; there is no formatter to refuse it. */
  lemma ReportShowsReports(hash: Hasher, o: SoftwareObject, instance: Instance, r: Report)
    requires ShowsReports(hash, o, instance) && UsesScalars(VersionQuery(), [r])
    ensures ShowsReports(hash, WithReport(o, r), FillUntil(hash, instance, r.interface, r.properties))
  {
    var all, start := o.reports + [r], NewInstance(VersionQuery(), o.service, o.path);
    HistoryKeepsIdentity(hash, start, o.reports);
    FillSucceeds(hash, instance, r.interface, r.properties);
    assert r in [r];
    FillThrough(hash, instance, r.interface, r.properties);
    assert Front(all) == o.reports && Last(all) == r;
    forall s, p | s in all && p in s.properties && p in VersionQuery().PropertyMembers(s.interface)
      ensures s.properties[p].Scalar?
    {
      assert s in o.reports || s in [r];
    }
  }

  lemma VersionDictionary()
    ensures VERSION_INTERFACE in VersionQuery().dictionary
    ensures VersionQuery().dictionary[VERSION_INTERFACE] == map["Version" := FIELD_VERSION, "Purpose" := FIELD_PURPOSE]
    ensures forall property, value: Variant :: VersionQuery().Formatted(property, value) == Some(value)
    ensures FIELD_VERSION !in {META_OBJECT_PATH, META_OBJECT_SERVICE}
    ensures FIELD_PURPOSE !in {META_OBJECT_PATH, META_OBJECT_SERVICE}
  {
    assert |META_OBJECT_PATH| == 25 && |META_OBJECT_SERVICE| == 28 && |FIELD_VERSION| == 7 && |FIELD_PURPOSE| == 7;
  }

  lemma LatestIsHeld(hash: Hasher, o: SoftwareObject, instance: Instance, property: string, name: string)
    requires ShowsReports(hash, o, instance)
    requires (property == "Version" && name == FIELD_VERSION) || (property == "Purpose" && name == FIELD_PURPOSE)
    ensures Field(instance.node.members, name) == o.Latest(property)
  {
    var start := NewInstance(VersionQuery(), o.service, o.path);
    VersionDictionary();
    VersionIsInjective();
    MembersHoldLast(hash, start, o.reports, VERSION_INTERFACE, property);
    assert CacheBatch.HoldsLast(VersionQuery(), start.node.members, instance.node.members, o.reports,
                                VERSION_INTERFACE, property);
  }

  lemma SoftwareShows(hash: Hasher, o: SoftwareObject, instance: Instance)
    requires ShowsReports(hash, o, instance)
    ensures instance.query == VersionQuery() && instance.children == map[] && WithDefaults(instance) == instance
    ensures Field(instance.node.members, FIELD_VERSION) == o.Latest("Version")
    ensures Field(instance.node.members, FIELD_PURPOSE) == o.Latest("Purpose")
  {
    var start := NewInstance(VersionQuery(), o.service, o.path);
    HistoryKeepsIdentity(hash, start, o.reports);
    HistoryKeepsChildren(hash, start, o.reports);
    LatestIsHeld(hash, o, instance, "Version", FIELD_VERSION);
    LatestIsHeld(hash, o, instance, "Purpose", FIELD_PURPOSE);
    assert instance.node.members + map[] == instance.node.members;
  }

  // All software objects

  ghost predicate RemembersReports(hash: Hasher, objects: seq<SoftwareObject>, views: seq<Instance>) {
    |objects| == |views| && forall i | 0 <= i < |views| :: ShowsReports(hash, objects[i], views[i])
  }

  /** Without children and defaults the provider supplies the members of its instances in their order. */
  lemma {:induction false} EmittedPlain(hash: Hasher, objects: seq<SoftwareObject>, views: seq<Instance>)
    requires RemembersReports(hash, objects, views)
    ensures |EmittedFrom(hash, views)| == |views|
    ensures forall i | 0 <= i < |views| :: EmittedFrom(hash, views)[i] == views[i].node.members
  {
    if views != [] {
      var n := |views| - 1;
      EmittedPlain(hash, objects[..n], views[..n]);
      SoftwareShows(hash, objects[n], views[n]);
      OneNode(hash, views[n]);
    }
  }

  lemma OneNode(hash: Hasher, o: Instance)
    requires o.children == map[]
    ensures MembersInOrder(NodesOf(hash, o)) == [o.node.members]
  {
    var nodes := NodesOf(hash, o);
    assert nodes == map[o.node.Hash(hash) := o.node];
    assert nodes.Keys == {o.node.Hash(hash)};
    var keys := SortedInts(nodes.Keys);
    assert keys[0] in keys;
    InKeyOrderAt(nodes, 0);
  }

  lemma ResetIsSame(hash: Hasher, objects: seq<SoftwareObject>, views: seq<Instance>)
    requires RemembersReports(hash, objects, views)
    ensures AllReset(views) == views
  {
    forall i | 0 <= i < |views|
      ensures WithDefaults(views[i]) == views[i]
    {
      SoftwareShows(hash, objects[i], views[i]);
    }
  }

  function MemberOf(purpose: VersionPurpose): string
    requires purpose != Unknown
  {
    if purpose == Bmc then FIELD_VERSION_BMC else FIELD_VERSION_BIOS
  }

  lemma StepIs(o: SoftwareObject, members: Members, purpose: VersionPurpose)
    requires purpose != Unknown && Field(members, FIELD_VERSION) == o.Latest("Version")
    requires Field(members, FIELD_PURPOSE) == o.Latest("Purpose")
    ensures MemberOf(purpose) in VersionStep(Link(VersionsRule, members)) <==> o.Purpose() == purpose
    ensures o.Purpose() == purpose ==>
      VersionStep(Link(VersionsRule, members))[MemberOf(purpose)] == o.Latest("Version")
  {
    assert |FIELD_VERSION_BMC| != |FIELD_VERSION_BIOS|;
  }

  /** The versions that the software objects bring are those of the last object of each purpose. */
  lemma {:induction false} VersionsAre(objects: seq<SoftwareObject>, supplements: seq<Members>, purpose: VersionPurpose)
    requires purpose != Unknown && |supplements| == |objects|
    requires forall i | 0 <= i < |objects| ::
      Field(supplements[i], FIELD_VERSION) == objects[i].Latest("Version")
      && Field(supplements[i], FIELD_PURPOSE) == objects[i].Latest("Purpose")
    ensures var versions := Versions(LinksOf(VersionsRule, supplements));
      && (MemberOf(purpose) in versions <==> VersionFor(objects, purpose).Some?)
      && (MemberOf(purpose) in versions ==> Some(versions[MemberOf(purpose)]) == VersionFor(objects, purpose))
  {
    if objects != [] {
      var n := |objects| - 1;
      assert LinksOf(VersionsRule, supplements)[..n] == LinksOf(VersionsRule, supplements[..n]);
      VersionsAre(objects[..n], supplements[..n], purpose);
      StepIs(objects[n], supplements[n], purpose);
    }
  }

  lemma SignalRemembered(hash: Hasher, objects: seq<SoftwareObject>, views: seq<Instance>, i: nat, r: Report)
    requires RemembersReports(hash, objects, views) && i < |views| && UsesScalars(VersionQuery(), [r])
    ensures RemembersReports(hash, objects[i := WithReport(objects[i], r)],
                             views[i := FillUntil(hash, views[i], r.interface, r.properties)])
  {
    ReportShowsReports(hash, objects[i], views[i], r);
  }

  // One read

  // In the words of the reports

  /** The last thing reported for the property is `value`. */
  ghost predicate Reports(o: SoftwareObject, property: string, value: FieldValue) {
    exists n :: IsLatest(o.reports, n, "xyz.openbmc_project.Software.Version", property, value)
  }

  /** The object shows what it reported last, or `N/A` if it has not reported anything. */
  ghost predicate Shows(o: SoftwareObject, property: string, value: FieldValue) {
    Reports(o, property, value) || (value == StrValue("N/A") && forall v :: !Reports(o, property, v))
  }

  /** Object `i` is the last one that reports the purpose. */
  ghost predicate IsLastFor(objects: seq<SoftwareObject>, i: int, purpose: string) {
    && 0 <= i < |objects| && Reports(objects[i], "Purpose", StrValue(purpose))
    && forall j | i < j < |objects| :: !Reports(objects[j], "Purpose", StrValue(purpose))
  }

  /** What a read shows in `member`: the version of the last object with the purpose, or what was shown before. */
  ghost predicate ShowsVersion(objects: seq<SoftwareObject>, purpose: string, member: string, before: Members,
                               after: Members)
  {
    && (forall i | IsLastFor(objects, i, purpose) :: member in after && Shows(objects[i], "Version", after[member]))
    && ((forall i :: !IsLastFor(objects, i, purpose)) ==> SameAt(before, after, member))
  }

  /** A server after a read: the two versions are up to date and nothing else has changed. */
  ghost predicate IsUpToDate(objects: seq<SoftwareObject>, before: Instance, after: Instance) {
    && after.query == before.query && after.children == map[]
    && after.node.service == before.node.service && after.node.path == before.node.path
    && ShowsVersion(objects, "xyz.openbmc_project.Software.Version.VersionPurpose.BMC", "BmcVersion",
                    before.node.members, after.node.members)
    && ShowsVersion(objects, "xyz.openbmc_project.Software.Version.VersionPurpose.Host", "BiosVersion",
                    before.node.members, after.node.members)
    && forall name | name !in {"BmcVersion", "BiosVersion"} :: SameAt(before.node.members, after.node.members, name)
  }

  lemma LatestIsReported(o: SoftwareObject, property: string)
    ensures Shows(o, property, o.Latest(property))
    ensures forall v | Reports(o, property, v) :: v == o.Latest(property)
  {
    if LastScalar(o.reports, VERSION_INTERFACE, property).Some? {
      LastIsLatest(o.reports, VERSION_INTERFACE, property);
    }
    forall v | Reports(o, property, v)
      ensures LastScalar(o.reports, VERSION_INTERFACE, property) == Some(v)
    {
      var n :| IsLatest(o.reports, n, VERSION_INTERFACE, property, v);
      LatestIsLast(o.reports, n, VERSION_INTERFACE, property, v);
    }
  }

  function WordOf(purpose: VersionPurpose): string
    requires purpose != Unknown
  {
    if purpose == Bmc then "xyz.openbmc_project.Software.Version.VersionPurpose.BMC"
    else "xyz.openbmc_project.Software.Version.VersionPurpose.Host"
  }

  lemma PurposeIsReported(o: SoftwareObject, purpose: VersionPurpose)
    requires purpose != Unknown
    ensures o.Purpose() == purpose <==> Reports(o, "Purpose", StrValue(WordOf(purpose)))
  {
    LatestIsReported(o, "Purpose");
    assert |WordOf(Bmc)| == 55 && |WordOf(Bios)| == 56 && |"N/A"| == 3;
  }

  lemma {:induction false} VersionForLast(objects: seq<SoftwareObject>, purpose: VersionPurpose)
    requires purpose != Unknown
    ensures match VersionFor(objects, purpose)
      case None => forall i :: !IsLastFor(objects, i, WordOf(purpose))
      case Some(v) => exists i :: IsLastFor(objects, i, WordOf(purpose)) && v == objects[i].Latest("Version")
  {
    if objects != [] {
      var n := |objects| - 1;
      VersionForLast(objects[..n], purpose);
      PurposeIsReported(objects[n], purpose);
      if objects[n].Purpose() == purpose {
        assert IsLastFor(objects, n, WordOf(purpose));
      } else {
        forall i
          ensures IsLastFor(objects, i, WordOf(purpose)) <==> IsLastFor(objects[..n], i, WordOf(purpose))
        {
        }
      }
    }
  }

  lemma VersionInWords(objects: seq<SoftwareObject>, purpose: VersionPurpose, before: Members, after: Members)
    requires purpose != Unknown
    requires match VersionFor(objects, purpose)
      case None => SameAt(before, after, MemberOf(purpose))
      case Some(v) => MemberOf(purpose) in after && after[MemberOf(purpose)] == v
    ensures ShowsVersion(objects, WordOf(purpose), MemberOf(purpose), before, after)
  {
    VersionForLast(objects, purpose);
    if VersionFor(objects, purpose).Some? {
      var k :| IsLastFor(objects, k, WordOf(purpose))
        && VersionFor(objects, purpose) == Some(objects[k].Latest("Version"));
      LatestIsReported(objects[k], "Version");
      forall i | IsLastFor(objects, i, WordOf(purpose))
        ensures i == k
      {
      }
    }
  }

  ghost predicate IsServer(o: Instance) {
    o.query == ServerQuery() && o.children == map[]
  }

  ghost predicate AreServers(values: seq<Instance>) {
    forall i | 0 <= i < |values| :: IsServer(values[i])
  }

  lemma ServerIsRead(hash: Hasher, objects: seq<SoftwareObject>, supplements: seq<Members>, v: Instance)
    requires IsServer(v) && |supplements| == |objects|
    requires forall i | 0 <= i < |objects| ::
      Field(supplements[i], FIELD_VERSION) == objects[i].Latest("Version")
      && Field(supplements[i], FIELD_PURPOSE) == objects[i].Latest("Purpose")
    ensures Reads(hash, [Supply(VersionsRule, supplements)], v)
    ensures IsUpToDate(objects, v, ReadOne(hash, [Supply(VersionsRule, supplements)], v))
  {
    var supplies, m := [Supply(VersionsRule, supplements)], v.node.members;
    var versions := Versions(LinksOf(VersionsRule, supplements));
    assert m + map[] == m && WithDefaults(v) == v;
    JoinedVersions(supplements, m);
    SingleRead(hash, supplies, v);
    ReadNodes(hash, supplies, v);
    VersionsAre(objects, supplements, Bmc);
    VersionsAre(objects, supplements, Bios);
    VersionsOnly(LinksOf(VersionsRule, supplements));
    VersionUpToDate(objects, Bmc, m, versions);
    VersionUpToDate(objects, Bios, m, versions);
    OthersUpToDate(m, versions);
  }

  ghost predicate AreVersions(objects: seq<SoftwareObject>, versions: Members, purpose: VersionPurpose)
    requires purpose != Unknown
  {
    && (MemberOf(purpose) in versions <==> VersionFor(objects, purpose).Some?)
    && (MemberOf(purpose) in versions ==> Some(versions[MemberOf(purpose)]) == VersionFor(objects, purpose))
  }

  lemma VersionUpToDate(objects: seq<SoftwareObject>, purpose: VersionPurpose, m: Members, versions: Members)
    requires purpose != Unknown && AreVersions(objects, versions, purpose)
    ensures ShowsVersion(objects, WordOf(purpose), MemberOf(purpose), m, m + versions)
  {
    VersionInWords(objects, purpose, m, m + versions);
  }

  lemma OthersUpToDate(m: Members, versions: Members)
    requires versions.Keys <= {FIELD_VERSION_BMC, FIELD_VERSION_BIOS}
    ensures forall name | name !in {"BmcVersion", "BiosVersion"} :: SameAt(m, m + versions, name)
  {
  }

  ghost predicate Follows(servers: Entity, objects: seq<SoftwareObject>, values: seq<Instance>, views: seq<Instance>)
  {
    && servers.provider != null && servers.rule == VersionsRule && servers.provider.hash == servers.hash
    && RemembersReports(servers.hash, objects, views) && AreServers(values)
  }

  lemma ServersAreRead(servers: Entity, objects: seq<SoftwareObject>, values: seq<Instance>, views: seq<Instance>)
    requires Follows(servers, objects, values, views)
    ensures AllRead(servers.hash, servers.Supplies(views), values)
    ensures var after := ReadValues(servers.hash, servers.Supplies(views), values);
      forall i | 0 <= i < |values| :: IsUpToDate(objects, values[i], after[i])
  {
    var supplements := EmittedFrom(servers.hash, AllReset(views));
    ResetIsSame(servers.hash, objects, views);
    EmittedPlain(servers.hash, objects, views);
    forall i | 0 <= i < |objects|
      ensures Field(supplements[i], FIELD_VERSION) == objects[i].Latest("Version")
      ensures Field(supplements[i], FIELD_PURPOSE) == objects[i].Latest("Purpose")
    {
      SoftwareShows(servers.hash, objects[i], views[i]);
    }
    forall i | 0 <= i < |values|
      ensures Reads(servers.hash, servers.Supplies(views), values[i])
      ensures IsUpToDate(objects, values[i], ReadOne(servers.hash, servers.Supplies(views), values[i]))
    {
      ServerIsRead(servers.hash, objects, supplements, values[i]);
    }
    ReadToTheEnd(servers.hash, servers.Supplies(views), values);
  }

  lemma ServedIsSame(hash: Hasher, objects: seq<SoftwareObject>, views: seq<Instance>, served: seq<Instance>)
    requires RemembersReports(hash, objects, views) && AllReset(served) == AllReset(views)
    ensures served == views
  {
    assert |AllReset(served)| == |served| && |AllReset(views)| == |views|;
    forall i | 0 <= i < |served|
      ensures served[i] == views[i]
    {
      SoftwareShows(hash, objects[i], views[i]);
      assert AllReset(served)[i] == AllReset(views)[i];
      var m := served[i].node.members;
      assert served[i].query.defaults == map[] && m + map[] == m;
    }
  }

  /**
   Reading the servers never fails. Every server then shows, for either purpose, the version of the last software
   object, in the order of hashes, whose latest purpose it is; where there is none it shows what it showed before.
   */
  method GetServers(servers: Entity, ghost objects: seq<SoftwareObject>, ghost values: seq<Instance>,
                    ghost views: seq<Instance>)
    returns (ok: bool, result: seq<DBusInstance>, ghost after: seq<Instance>)
    requires servers.Valid() && Show(servers.order, values) && servers.Ready(views)
    requires Follows(servers, objects, values, views)
    modifies servers.ReadNodes()`memberInstances, (set f: FieldInstance | f.owner in servers.ReadNodes())`value
    modifies servers.notAvailable`value
    ensures servers.Valid() && Show(servers.order, after) && servers.Ready(views)
    ensures Follows(servers, objects, after, views) && |after| == |values|
    ensures ok && forall i | 0 <= i < |values| :: IsUpToDate(objects, values[i], after[i])
  {
    ServersAreRead(servers, objects, values, views);
    after := ReadValues(servers.hash, servers.Supplies(views), values);
    ghost var served;
    ok, result, served := servers.GetInstances(values, views);
    ServedIsSame(servers.hash, objects, views, served);
  }

  /** A signal about a software object. */
  method SignalSoftware(servers: Entity, o: DBusInstance, ghost i: nat, interface: string, properties: Properties,
                        ghost objects: seq<SoftwareObject>, ghost values: seq<Instance>, ghost views: seq<Instance>)
    returns (ghost later: seq<Instance>)
    requires servers.Valid() && Show(servers.order, values) && servers.Ready(views)
    requires Follows(servers, objects, values, views)
    requires i < |servers.provider.order| && servers.provider.order[i] == o
    requires UsesScalars(VersionQuery(), [Report(interface, properties)])
    modifies o`memberInstances, o`complexInstances, (set f: FieldInstance | f.owner == o)`value
    ensures servers.Valid() && Show(servers.order, values) && servers.Ready(later) && i < |objects|
    ensures Follows(servers, objects[i := WithReport(objects[i], Report(interface, properties))], values, later)
  {
    ghost var p: SupplementProvider := servers.provider;
    OrderIsSeparate(p.order, p.instances, p.hash, p.notAvailable);
    SignalRemembered(servers.hash, objects, views, i, Report(interface, properties));
    later := views[i := FillUntil(p.hash, views[i], interface, properties)];
    var ok := FillBeside(p.order, o, i, interface, properties, views, servers.order, values);
  }

  function WithReport(o: SoftwareObject, r: Report): SoftwareObject {
    o.(reports := o.reports + [r])
  }
}
