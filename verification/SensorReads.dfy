/**
 The sensors over whole runs: signals of the status provider and of the sensors themselves come in any order between
 the reads of queries, and every read answers what the histories say.
 */
module SensorReads {
  import opened Entities
  import opened EntityCache
  import opened EntitySpec
  import opened EntityStores
  import opened FieldValues
  import opened Orders
  import opened Queries
  import opened SensorStatus

  /** Every instance of the entity is a sensor at its own path. */
  ghost predicate AreSensors(order: seq<DBusInstance>, values: seq<Instance>) {
    |values| == |order| && forall i | 0 <= i < |values| :: IsSensor(values[i], order[i].objectPath)
  }

  /** Every instance of the status provider has seen the updates of its object. */
  ghost predicate Remembers(hash: Hasher, objects: seq<StatusObject>, views: seq<Instance>) {
    |objects| == |views| && forall i | 0 <= i < |views| :: ShowsHistory(hash, objects[i], views[i])
  }

  ghost predicate Distinct(hash: Hasher, objects: seq<StatusObject>) {
    forall i | 0 <= i < |objects| :: DistinctHashes(hash, objects[i])
  }

  ghost predicate Known(objects: seq<StatusObject>, path: string) {
    AllKnown(Indexed(objects), path)
  }

  /** What the status of the sensor at `path` has to be. */
  ghost predicate IsStatus(objects: seq<StatusObject>, path: string, status: FieldValue) {
    Maximum(Indexed(objects), path, status)
  }

  lemma HistoriesRemembered(hash: Hasher, objects: seq<StatusObject>, views: seq<Instance>)
    requires Remembers(hash, objects, views)
    ensures Histories(hash, Indexed(objects), Indexed(views))
    ensures Distinct(hash, objects) ==> AllDistinct(hash, Indexed(objects))
  {
  }

  /** A read of the provider, which may reset its defaults, forgets nothing. */
  lemma ReadRemembers(hash: Hasher, objects: seq<StatusObject>, views: seq<Instance>, served: seq<Instance>)
    requires Remembers(hash, objects, views) && AllReset(served) == AllReset(views)
    ensures Remembers(hash, objects, served)
  {
    assert |AllReset(served)| == |served| && |AllReset(views)| == |views|;
    forall i | 0 <= i < |served|
      ensures WithDefaults(served[i]) == WithDefaults(views[i])
    {
      assert AllReset(served)[i] == AllReset(views)[i];
    }
  }

  function Updated(o: StatusObject, list: seq<Association>): StatusObject {
    o.(updates := o.updates + [list])
  }

  /** An update is remembered, whenever it comes. */
  lemma UpdateRemembers(hash: Hasher, objects: seq<StatusObject>, views: seq<Instance>, i: nat, list: seq<Association>)
    requires Remembers(hash, objects, views) && i < |views|
    ensures Remembers(hash, objects[i := Updated(objects[i], list)],
                      views[i := FillUntil(hash, views[i], DEFINITION_INTERFACE, ListReport(list))])
  {
    UpdateShowsHistory(hash, objects[i], views[i], list);
    FillThrough(hash, views[i], DEFINITION_INTERFACE, ListReport(list));
  }

  function ListReport(list: seq<Association>): Properties {
    map["Associations" := Associations(list)]
  }

  // One read

  ghost predicate Tracks(sensors: Entity, objects: seq<StatusObject>, values: seq<Instance>, views: seq<Instance>)
    reads sensors
  {
    && sensors.provider != null && sensors.rule == StatusRule && sensors.provider.hash == sensors.hash
    && Remembers(sensors.hash, objects, views) && AreSensors(sensors.order, values)
  }

  lemma SuppliesOfProvider(sensors: Entity, views: seq<Instance>)
    requires sensors.provider != null && sensors.rule == StatusRule && sensors.provider.hash == sensors.hash
    ensures sensors.Supplies(views) == StatusSupplies(sensors.hash, Indexed(views))
  {
    IndexedInOrder(views);
    SuppliesReference(sensors.provider, StatusRule, Indexed(views));
    OneProvider(sensors.hash, Indexed(views));
  }

  lemma SensorIsRead(hash: Hasher, objects: seq<StatusObject>, views: seq<Instance>, sensor: Instance, path: string)
    requires Remembers(hash, objects, views) && Distinct(hash, objects) && IsSensor(sensor, path)
    ensures Reads(hash, StatusSupplies(hash, Indexed(views)), sensor) <==> Known(objects, path)
    ensures Known(objects, path) ==>
      IsStatus(objects, path,
               Field(ReadOne(hash, StatusSupplies(hash, Indexed(views)), sensor).node.members, FIELD_STATUS))
  {
    HistoriesRemembered(hash, objects, views);
    OneProvider(hash, Indexed(views));
    SensorReportsMaximum(hash, Indexed(objects), Indexed(views), sensor, path);
  }

  lemma SensorsSucceed(sensors: Entity, objects: seq<StatusObject>, values: seq<Instance>, views: seq<Instance>)
    requires Tracks(sensors, objects, values, views) && Distinct(sensors.hash, objects)
    ensures AllRead(sensors.hash, sensors.Supplies(views), values)
       <==> forall i | 0 <= i < |sensors.order| :: Known(objects, sensors.order[i].objectPath)
  {
    SuppliesOfProvider(sensors, views);
    forall i | 0 <= i < |values|
      ensures Reads(sensors.hash, sensors.Supplies(views), values[i])
         <==> Known(objects, sensors.order[i].objectPath)
    {
      SensorIsRead(sensors.hash, objects, views, values[i], sensors.order[i].objectPath);
    }
  }

  /** The sensors stay sensors, also if the read throws at one of them. */
  lemma SensorsStay(sensors: Entity, values: seq<Instance>, supplies: seq<Supply>)
    requires AreSensors(sensors.order, values)
    ensures AreSensors(sensors.order, ReadValues(sensors.hash, supplies, values))
  {
    forall i | 0 <= i < |values|
      ensures IsSensor(ReadValues(sensors.hash, supplies, values)[i], sensors.order[i].objectPath)
    {
      ReadKeepsSensor(sensors.hash, supplies, values[i], sensors.order[i].objectPath);
    }
  }

  lemma SensorShows(sensors: Entity, objects: seq<StatusObject>, values: seq<Instance>, views: seq<Instance>, i: nat)
    requires Tracks(sensors, objects, values, views) && Distinct(sensors.hash, objects) && i < |sensors.order|
    requires AllRead(sensors.hash, sensors.Supplies(views), values)
    requires Known(objects, sensors.order[i].objectPath)
    ensures IsStatus(objects, sensors.order[i].objectPath,
                     Field(ReadValues(sensors.hash, sensors.Supplies(views), values)[i].node.members, FIELD_STATUS))
  {
    ReadToTheEnd(sensors.hash, sensors.Supplies(views), values);
    SuppliesOfProvider(sensors, views);
    SensorIsRead(sensors.hash, objects, views, values[i], sensors.order[i].objectPath);
  }

  /** The values after a successful read show every sensor's status. */
  ghost predicate ShowStatus(order: seq<DBusInstance>, objects: seq<StatusObject>, values: seq<Instance>) {
    |values| == |order| && forall i | 0 <= i < |order| ::
      IsStatus(objects, order[i].objectPath, Field(values[i].node.members, FIELD_STATUS))
  }

  lemma SensorsShow(sensors: Entity, objects: seq<StatusObject>, values: seq<Instance>, views: seq<Instance>)
    requires Tracks(sensors, objects, values, views) && Distinct(sensors.hash, objects)
    requires AllRead(sensors.hash, sensors.Supplies(views), values)
    ensures ShowStatus(sensors.order, objects, ReadValues(sensors.hash, sensors.Supplies(views), values))
  {
    SensorsSucceed(sensors, objects, values, views);
    forall i | 0 <= i < |sensors.order|
      ensures IsStatus(objects, sensors.order[i].objectPath,
                       Field(ReadValues(sensors.hash, sensors.Supplies(views), values)[i].node.members, FIELD_STATUS))
    {
      SensorShows(sensors, objects, values, views, i);
    }
  }

  /** The instances themselves are among the nodes that a read returns. */
  lemma InstanceReturned(order: seq<DBusInstance>, i: nat)
    requires i < |order|
    ensures order[i] in InOrder(NodeMaps(order))
  {
    var maps, k := NodeMaps(order), order[i].GetHash();
    assert k in maps[i] && maps[i][k] == order[i];
    InOrderMeaning(maps, order[i]);
  }

  lemma InstancesReturned(order: seq<DBusInstance>)
    ensures forall i | 0 <= i < |order| :: order[i] in InOrder(NodeMaps(order))
  {
    forall i | 0 <= i < |order|
      ensures order[i] in InOrder(NodeMaps(order))
    {
      InstanceReturned(order, i);
    }
  }

  /** What one read comes to, in terms of the histories. */
  ghost predicate IsReadOf(sensors: Entity, objects: seq<StatusObject>, ok: bool, values: seq<Instance>)
    reads sensors
  {
    && (ok <==> forall i | 0 <= i < |sensors.order| :: Known(objects, sensors.order[i].objectPath))
    && (ok ==> ShowStatus(sensors.order, objects, values))
  }

  lemma ReadMeaning(sensors: Entity, objects: seq<StatusObject>, values: seq<Instance>, views: seq<Instance>)
    requires Tracks(sensors, objects, values, views) && Distinct(sensors.hash, objects)
    ensures IsReadOf(sensors, objects, AllRead(sensors.hash, sensors.Supplies(views), values),
                     ReadValues(sensors.hash, sensors.Supplies(views), values))
    ensures AreSensors(sensors.order, ReadValues(sensors.hash, sensors.Supplies(views), values))
  {
    SensorsSucceed(sensors, objects, values, views);
    if AllRead(sensors.hash, sensors.Supplies(views), values) {
      SensorsShow(sensors, objects, values, views);
    }
    SensorsStay(sensors, values, sensors.Supplies(views));
  }

  /**
   Reading the sensors succeeds exactly if every source in force for one of them is a known status. Every sensor is
   then returned, and its status is the maximum, in canonical spelling, of `OK` and the sources in force for its path.
   Whether it succeeds or throws, sensors and provider are as the next read or signal needs them.
   */
  method GetSensors(sensors: Entity, ghost objects: seq<StatusObject>, ghost values: seq<Instance>,
                    ghost views: seq<Instance>)
    returns (ok: bool, result: seq<DBusInstance>, ghost after: seq<Instance>, ghost served: seq<Instance>)
    requires sensors.Valid() && Show(sensors.order, values) && sensors.Ready(views)
    requires Tracks(sensors, objects, values, views) && Distinct(sensors.hash, objects)
    modifies sensors.ReadNodes()`memberInstances, (set f: FieldInstance | f.owner in sensors.ReadNodes())`value
    modifies sensors.notAvailable`value
    ensures sensors.Valid() && Show(sensors.order, after) && sensors.Ready(served)
    ensures Tracks(sensors, objects, after, served) && sensors.provider.order == old(sensors.provider.order)
    ensures IsReadOf(sensors, objects, ok, after)
    ensures ok ==> forall i | 0 <= i < |sensors.order| :: sensors.order[i] in result
  {
    ReadMeaning(sensors, objects, values, views);
    after := ReadValues(sensors.hash, sensors.Supplies(views), values);
    ok, result, served := sensors.GetInstances(values, views);
    ReadRemembers(sensors.hash, objects, views, served);
    InstancesReturned(sensors.order);
  }
}
