/** The status of a sensor in the answer to a query, from the association updates to the JSON. */
module QueryStatus {
  import opened EntityListings
  import opened EntityManagers
  import opened EntitySpec
  import opened FieldValues
  import opened JsonValues
  import opened Queries
  import opened SensorStatus
  import A = GraphqlAnswers
  import G = GraphqlSpec

  /** `name` is the entity of the sensors, and `provider`, its one provider, has seen the updates of `objects`. */
  ghost predicate ServesSensors(store: Store, name: string, provider: string, objects: map<int, StatusObject>) {
    && store.Linked() && name in store.members && store.links[name] == [ProviderLink(provider, StatusRule)]
    && provider in store.providers && Histories(store.hash, objects, store.providers[provider])
    && AllDistinct(store.hash, objects)
    && forall h | h in store.entities[name] ::
         IsSensor(store.entities[name][h], store.entities[name][h].node.path)
  }

  lemma OnlyProvider(store: Store, name: string, provider: string, objects: map<int, StatusObject>)
    requires ServesSensors(store, name, provider, objects)
    ensures store.ProvidersOf(name) == [Provider(StatusRule, store.providers[provider])]
  {
  }

  /** A read of one sensor of the store. */
  lemma SensorOfStore(store: Store, name: string, provider: string, objects: map<int, StatusObject>, h: int)
    requires ServesSensors(store, name, provider, objects) && h in store.entities[name]
    ensures var o, supplies := store.entities[name][h], SuppliesOf(store.hash, store.ProvidersOf(name));
      && (Reads(store.hash, supplies, o) <==> AllKnown(objects, o.node.path))
      && (AllKnown(objects, o.node.path) ==>
            Maximum(objects, o.node.path, Field(ReadOne(store.hash, supplies, o).node.members, FIELD_STATUS)))
  {
    var o := store.entities[name][h];
    OnlyProvider(store, name, provider, objects);
    SensorReportsMaximum(store.hash, objects, store.providers[provider], o, o.node.path);
  }

  /** The sensors can be read exactly if every source in force for one of them is known. */
  lemma SensorsAreReadable(store: Store, name: string, provider: string, objects: map<int, StatusObject>)
    requires ServesSensors(store, name, provider, objects)
    ensures store.ReadOf(name).Some? <==>
      forall h | h in store.entities[name] :: AllKnown(objects, store.entities[name][h].node.path)
  {
    forall h | h in store.entities[name]
      ensures Reads(store.hash, SuppliesOf(store.hash, store.ProvidersOf(name)), store.entities[name][h])
         <==> AllKnown(objects, store.entities[name][h].node.path)
    {
      SensorOfStore(store, name, provider, objects, h);
    }
  }

  /** What a read leaves of a sensor: its identity, no children, and the worst source in force as status. */
  lemma SensorAfterRead(store: Store, name: string, provider: string, objects: map<int, StatusObject>, h: int)
    requires ServesSensors(store, name, provider, objects) && store.ReadOf(name).Some? && h in store.entities[name]
    ensures var o := store.entities[name][h];
      && h in store.ReadOf(name).value
      && var r := store.ReadOf(name).value[h];
         && r.node.service == o.node.service && r.node.path == o.node.path && r.children == map[]
         && Maximum(objects, o.node.path, Field(r.node.members, FIELD_STATUS))
  {
    SensorsAreReadable(store, name, provider, objects);
    SensorOfStore(store, name, provider, objects, h);
  }

  /** The word a query shows for the sensor at `path`. */
  ghost function Word(objects: map<int, StatusObject>, path: string): (word: string)
    ensures word != "N/A"
  {
    if Says(objects, path, "critical") then "Critical" else if Says(objects, path, "warning") then "Warning" else "OK"
  }

  /** The snapshot of a query has an entry for every sensor, and its status is the worst source in force. */
  lemma SnapshotShowsStatus(store: Store, name: string, provider: string, objects: map<int, StatusObject>, h: int)
    requires ServesSensors(store, name, provider, objects) && store.Readable() && h in store.entities[name]
    ensures var node, shown := store.entities[name][h].node, store.Snapshot()[name].instances;
      exists i :: 0 <= i < |shown| && ShowsStatus(shown[i], store.render(store.hash(node.service, node.path)),
                                                  Word(objects, node.path))
  {
    SnapshotLists(store, name);
    SensorAfterRead(store, name, provider, objects, h);
    var instances, shown := store.ReadOf(name).value, store.Snapshot()[name].instances;
    var i := InstanceIsListed(store.hash, store.render, instances, shown, h);
    NodeShowsStatus(store.hash, store.render, shown[i], instances[h].node, Word(objects, instances[h].node.path));
  }

  ghost predicate ShowsStatus(shown: G.Instance, key: string, word: string) {
    shown.key == key && "Status" in shown.fields && shown.fields["Status"] == JStr(word)
  }

  lemma NodeShowsStatus(hash: Hasher, render: int -> string, shown: G.Instance, node: Node, word: string)
    requires ShowsNode(hash, render, shown, node) && Field(node.members, "Status") == StrValue(word) && word != "N/A"
    ensures ShowsStatus(shown, render(hash(node.service, node.path)), word)
  {
  }

  /**
   End to end: wherever a query asks for the status of the sensors, the object of every one of them reads `Critical`,
   `Warning` or `OK`, whichever is the worst of the sources in force for it.
   */
  lemma AnswerShowsStatus(schema: G.Schema, name: string, fields: seq<G.Field>, value: Json, k: int, i: int,
                          key: string, word: string)
    requires name in schema && A.IsAnswer(schema, name, fields, value)
    requires A.IsFirst(fields, k, "Status") && fields[k].Scalar?
    requires A.IsShown(schema[name].instances, i) && ShowsStatus(schema[name].instances[i], key, word)
    ensures var item := if |schema[name].instances| == 1 then value
                        else if value.JArr? && A.Place(schema[name].instances, i) < |value.items|
                        then value.items[A.Place(schema[name].instances, i)] else JNull;
      item.JObj? && "Status" in item.fields && item.fields["Status"] == JStr(word)
  {
  }
}
