/** Which nodes a read returns, in which order, and what a query sees of them. */
module EntityListings {
  import opened EntityManagers
  import opened EntitySpec
  import opened FieldValues
  import opened JsonValues
  import opened Orders
  import G = GraphqlSpec

  /** Where a node is: the hash of its instance and, within that, its own. */
  type Place = (int, int)

  /** Under `k` instance `h` has itself, if that is its own hash, or a child. */
  ghost predicate IsPlace(hash: Hasher, instances: map<int, Instance>, place: Place) {
    && place.0 in instances
    && var o := instances[place.0];
       place.1 == hash(o.node.service, o.node.path) || place.1 in o.children
  }

  /** A child under the instance's own hash is hidden by the instance. */
  ghost function NodeAt(hash: Hasher, instances: map<int, Instance>, place: Place): Node
    requires IsPlace(hash, instances, place)
  {
    var o := instances[place.0];
    if place.1 == hash(o.node.service, o.node.path) then o.node else o.children[place.1]
  }

  ghost predicate AllPlaces(hash: Hasher, instances: map<int, Instance>, places: seq<Place>) {
    forall i | 0 <= i < |places| :: IsPlace(hash, instances, places[i])
  }

  ghost predicate Before(a: Place, b: Place) {
    a.0 < b.0 || (a.0 == b.0 && a.1 < b.1)
  }

  /** All places, each once, by the hash of the instance and then the hash of the node. */
  ghost predicate AreThePlaces(hash: Hasher, instances: map<int, Instance>, places: seq<Place>) {
    && AllPlaces(hash, instances, places)
    && (forall place | IsPlace(hash, instances, place) :: place in places)
    && Ascend(places)
  }

  ghost predicate Ascend(places: seq<Place>) {
    forall i, j | 0 <= i < j < |places| :: Before(places[i], places[j])
  }

  /** A value as a query shows it. */
  ghost predicate Renders(value: FieldValue, json: Json) {
    && (forall text :: value == StrValue(text) ==> json == JStr(text))
    && (value.IntValue? ==> json == JInt(value.n))
    && (value.DoubleValue? ==> json == JReal(value.r))
    && (value.BoolValue? ==> json == JBool(value.flag))
  }

  /** A node as a query shows it: its hash, and all its members with their values. */
  ghost predicate ShowsNode(hash: Hasher, render: int -> string, shown: G.Instance, node: Node) {
    && shown.key == render(hash(node.service, node.path))
    && shown.fields.Keys == node.members.Keys
    && forall name | name in node.members :: Renders(node.members[name], shown.fields[name])
  }

  ghost predicate ShowsAt(hash: Hasher, render: int -> string, instances: map<int, Instance>, places: seq<Place>,
                          shown: seq<G.Instance>)
    requires AllPlaces(hash, instances, places)
  {
    |shown| == |places| && forall i | 0 <= i < |places| ::
      ShowsNode(hash, render, shown[i], NodeAt(hash, instances, places[i]))
  }

  ghost predicate HoldsAt(hash: Hasher, instances: map<int, Instance>, places: seq<Place>, members: seq<Members>)
    requires AllPlaces(hash, instances, places)
  {
    |members| == |places| && forall i | 0 <= i < |places| :: members[i] == NodeAt(hash, instances, places[i]).members
  }

  // The places of one instance

  ghost function PlacesOf(hash: Hasher, h: int, o: Instance): seq<Place> {
    var keys := SortedInts(NodesOf(hash, o).Keys);
    seq(|keys|, i requires 0 <= i < |keys| => (h, keys[i]))
  }

  lemma PlacesOfOne(hash: Hasher, instances: map<int, Instance>, h: int)
    requires h in instances
    ensures var places, nodes := PlacesOf(hash, h, instances[h]), InKeyOrder(NodesOf(hash, instances[h]));
      && |nodes| == |places| && Ascend(places)
      && (forall i | 0 <= i < |places| :: places[i].0 == h && IsPlace(hash, instances, places[i])
            && nodes[i] == NodeAt(hash, instances, places[i]))
      && (forall place | IsPlace(hash, instances, place) && place.0 == h :: place in places)
  {
    var o := instances[h];
    var places, keys := PlacesOf(hash, h, o), SortedInts(NodesOf(hash, o).Keys);
    forall i | 0 <= i < |places|
      ensures IsPlace(hash, instances, places[i])
      ensures InKeyOrder(NodesOf(hash, o))[i] == NodeAt(hash, instances, places[i])
    {
      InKeyOrderAt(NodesOf(hash, o), i);
    }
    forall place | IsPlace(hash, instances, place) && place.0 == h
      ensures place in places
    {
      assert place.1 in NodesOf(hash, o);
      var i :| 0 <= i < |keys| && keys[i] == place.1;
      assert places[i] == place;
    }
  }

  // The places of several instances

  ghost predicate AllIn(instances: map<int, Instance>, hashes: seq<int>) {
    forall i | 0 <= i < |hashes| :: hashes[i] in instances
  }

  ghost function PlacesFrom(hash: Hasher, instances: map<int, Instance>, hashes: seq<int>): seq<Place>
    requires AllIn(instances, hashes)
  {
    if hashes == [] then []
    else
      var n := |hashes| - 1;
      PlacesFrom(hash, instances, hashes[..n]) + PlacesOf(hash, hashes[n], instances[hashes[n]])
  }

  ghost function InstancesAt(instances: map<int, Instance>, hashes: seq<int>): seq<Instance>
    requires AllIn(instances, hashes)
  {
    seq(|hashes|, i requires 0 <= i < |hashes| => instances[hashes[i]])
  }

  lemma AscendConcat(a: seq<Place>, b: seq<Place>)
    requires Ascend(a) && Ascend(b) && forall x, y | x in a && y in b :: Before(x, y)
    ensures Ascend(a + b)
  {
    var all := a + b;
    forall i, j | 0 <= i < j < |all|
      ensures Before(all[i], all[j])
    {
      if i < |a| <= j {
        assert a[i] in a && b[j - |a|] in b;
      }
    }
  }

  /** Places of the given instances. */
  ghost predicate Within(hash: Hasher, instances: map<int, Instance>, hashes: seq<int>, places: seq<Place>) {
    forall place | place in places :: IsPlace(hash, instances, place) && place.0 in hashes
  }

  /** All of them. */
  ghost predicate Covers(hash: Hasher, instances: map<int, Instance>, hashes: seq<int>, places: seq<Place>) {
    forall place | IsPlace(hash, instances, place) && place.0 in hashes :: place in places
  }

  lemma OneMoreInstance(hash: Hasher, instances: map<int, Instance>, hashes: seq<int>, h: int, front: seq<Place>,
                        last: seq<Place>)
    requires h in instances && last == PlacesOf(hash, h, instances[h]) && forall k | k in hashes :: k < h
    requires Within(hash, instances, hashes, front) && Covers(hash, instances, hashes, front) && Ascend(front)
    ensures Within(hash, instances, hashes + [h], front + last)
    ensures Covers(hash, instances, hashes + [h], front + last) && Ascend(front + last)
  {
    PlacesOfOne(hash, instances, h);
    forall x, y | x in front && y in last
      ensures Before(x, y)
    {
      assert x.0 in hashes && y.0 == h;
    }
    AscendConcat(front, last);
  }

  ghost predicate Increasing(hashes: seq<int>) {
    forall i, j | 0 <= i < j < |hashes| :: hashes[i] < hashes[j]
  }

  lemma IncreasingFront(hashes: seq<int>, front: seq<int>, last: int)
    requires Increasing(hashes) && hashes == front + [last]
    ensures Increasing(front) && forall k | k in front :: k < last
  {
    forall i, j | 0 <= i < j < |front|
      ensures front[i] < front[j]
    {
      assert hashes[i] == front[i] && hashes[j] == front[j];
    }
    forall k | k in front
      ensures k < last
    {
      var i :| 0 <= i < |front| && front[i] == k;
      assert hashes[i] == k && hashes[|front|] == last;
    }
  }

  lemma {:induction false} PlacesFromMeaning(hash: Hasher, instances: map<int, Instance>, hashes: seq<int>)
    requires AllIn(instances, hashes) && Increasing(hashes)
    ensures Within(hash, instances, hashes, PlacesFrom(hash, instances, hashes))
    ensures Covers(hash, instances, hashes, PlacesFrom(hash, instances, hashes))
    ensures Ascend(PlacesFrom(hash, instances, hashes))
  {
    if hashes != [] {
      var n := |hashes| - 1;
      var front := hashes[..n];
      assert hashes == front + [hashes[n]];
      IncreasingFront(hashes, front, hashes[n]);
      PlacesFromMeaning(hash, instances, front);
      var first, last := PlacesFrom(hash, instances, front), PlacesOf(hash, hashes[n], instances[hashes[n]]);
      OneMoreInstance(hash, instances, front, hashes[n], first, last);
      assert PlacesFrom(hash, instances, hashes) == first + last;
    }
  }

  lemma NodeIsShown(hash: Hasher, render: int -> string, node: Node)
    ensures ShowsNode(hash, render, ToObject(hash, render, node), node)
  {
  }

  lemma ShowsConcat(hash: Hasher, render: int -> string, instances: map<int, Instance>, a: seq<Place>,
                    s: seq<G.Instance>, b: seq<Place>, t: seq<G.Instance>)
    requires AllPlaces(hash, instances, a) && AllPlaces(hash, instances, b)
    requires ShowsAt(hash, render, instances, a, s) && ShowsAt(hash, render, instances, b, t)
    ensures AllPlaces(hash, instances, a + b) && ShowsAt(hash, render, instances, a + b, s + t)
  {
  }

  /** What the nodes of the instances show. */
  lemma {:induction false} AllAreShown(hash: Hasher, render: int -> string, instances: map<int, Instance>,
                                       hashes: seq<int>)
    requires AllIn(instances, hashes)
    ensures AllPlaces(hash, instances, PlacesFrom(hash, instances, hashes))
    ensures ShowsAt(hash, render, instances, PlacesFrom(hash, instances, hashes),
                    ObjectsFrom(hash, render, InstancesAt(instances, hashes)))
  {
    if hashes != [] {
      var n := |hashes| - 1;
      var list := InstancesAt(instances, hashes);
      AllAreShown(hash, render, instances, hashes[..n]);
      assert list[..n] == InstancesAt(instances, hashes[..n]);
      var nodes := InKeyOrder(NodesOf(hash, list[n]));
      var shown := seq(|nodes|, i requires 0 <= i < |nodes| => ToObject(hash, render, nodes[i]));
      OneIsShown(hash, render, instances, hashes[n], nodes, shown);
      ShowsConcat(hash, render, instances, PlacesFrom(hash, instances, hashes[..n]),
                  ObjectsFrom(hash, render, list[..n]), PlacesOf(hash, hashes[n], list[n]), shown);
    }
  }

  lemma OneIsShown(hash: Hasher, render: int -> string, instances: map<int, Instance>, h: int, nodes: seq<Node>,
                   shown: seq<G.Instance>)
    requires h in instances && nodes == InKeyOrder(NodesOf(hash, instances[h])) && |shown| == |nodes|
    requires forall i | 0 <= i < |nodes| :: shown[i] == ToObject(hash, render, nodes[i])
    ensures AllPlaces(hash, instances, PlacesOf(hash, h, instances[h]))
    ensures ShowsAt(hash, render, instances, PlacesOf(hash, h, instances[h]), shown)
  {
    PlacesOfOne(hash, instances, h);
    forall i | 0 <= i < |nodes|
      ensures ShowsNode(hash, render, shown[i], nodes[i])
    {
      NodeIsShown(hash, render, nodes[i]);
    }
  }

  /** Members are emitted in the same order. */
  lemma {:induction false} AllAreEmitted(hash: Hasher, instances: map<int, Instance>, hashes: seq<int>)
    requires AllIn(instances, hashes)
    ensures AllPlaces(hash, instances, PlacesFrom(hash, instances, hashes))
    ensures HoldsAt(hash, instances, PlacesFrom(hash, instances, hashes),
                    EmittedFrom(hash, InstancesAt(instances, hashes)))
  {
    if hashes != [] {
      var n := |hashes| - 1;
      var list := InstancesAt(instances, hashes);
      AllAreEmitted(hash, instances, hashes[..n]);
      assert list[..n] == InstancesAt(instances, hashes[..n]);
      PlacesOfOne(hash, instances, hashes[n]);
      HoldsConcat(hash, instances, PlacesFrom(hash, instances, hashes[..n]), EmittedFrom(hash, list[..n]),
                  PlacesOf(hash, hashes[n], list[n]), MembersInOrder(NodesOf(hash, list[n])));
    }
  }

  lemma HoldsConcat(hash: Hasher, instances: map<int, Instance>, a: seq<Place>, s: seq<Members>, b: seq<Place>,
                    t: seq<Members>)
    requires AllPlaces(hash, instances, a) && AllPlaces(hash, instances, b)
    requires HoldsAt(hash, instances, a, s) && HoldsAt(hash, instances, b, t)
    ensures AllPlaces(hash, instances, a + b) && HoldsAt(hash, instances, a + b, s + t)
  {
  }

  // All places

  /** `shown` lists every node of the instances once, in their order, as it is. */
  ghost predicate Lists(hash: Hasher, render: int -> string, instances: map<int, Instance>, shown: seq<G.Instance>) {
    exists places :: AreThePlaces(hash, instances, places) && ShowsAt(hash, render, instances, places, shown)
  }

  ghost predicate ListsMembers(hash: Hasher, instances: map<int, Instance>, members: seq<Members>) {
    exists places :: AreThePlaces(hash, instances, places) && HoldsAt(hash, instances, places, members)
  }

  lemma TheseAreThePlaces(hash: Hasher, instances: map<int, Instance>, hashes: seq<int>)
    requires hashes == SortedInts(instances.Keys)
    ensures AllIn(instances, hashes) && AreThePlaces(hash, instances, PlacesFrom(hash, instances, hashes))
  {
    forall i | 0 <= i < |hashes|
      ensures hashes[i] in instances
    {
      assert hashes[i] in hashes;
    }
    PlacesFromMeaning(hash, instances, hashes);
    CoversAll(hash, instances, hashes, PlacesFrom(hash, instances, hashes));
  }

  lemma InstancesInOrder(instances: map<int, Instance>, hashes: seq<int>)
    requires hashes == SortedInts(instances.Keys) && AllIn(instances, hashes)
    ensures InstancesAt(instances, hashes) == InKeyOrder(instances)
  {
  }

  lemma CoversAll(hash: Hasher, instances: map<int, Instance>, hashes: seq<int>, places: seq<Place>)
    requires forall h | h in instances :: h in hashes
    requires Within(hash, instances, hashes, places) && Covers(hash, instances, hashes, places) && Ascend(places)
    ensures AreThePlaces(hash, instances, places)
  {
    forall i | 0 <= i < |places|
      ensures IsPlace(hash, instances, places[i])
    {
      assert places[i] in places;
    }
    forall place | IsPlace(hash, instances, place)
      ensures place in places
    {
      var h: int := place.0;
      assert h in instances && h in hashes;
    }
  }

  /** A read returns every instance and every child that is not hidden, by ascending hash, with all their members. */
  lemma EverythingIsListed(hash: Hasher, render: int -> string, instances: map<int, Instance>)
    ensures Lists(hash, render, instances, Objects(hash, render, instances))
    ensures ListsMembers(hash, instances, Emitted(hash, instances))
  {
    var hashes := SortedInts(instances.Keys);
    TheseAreThePlaces(hash, instances, hashes);
    InstancesInOrder(instances, hashes);
    AllAreShown(hash, render, instances, hashes);
    AllAreEmitted(hash, instances, hashes);
    assert AreThePlaces(hash, instances, PlacesFrom(hash, instances, hashes));
  }

  /** What a query sees of an entity is what a read of it returns, whatever the store. */
  lemma SnapshotLists(store: Store, name: string)
    requires store.Readable() && name in store.members
    ensures var entity := store.Snapshot()[name];
      entity.members == store.members[name]
      && Lists(store.hash, store.render, store.ReadOf(name).value, entity.instances)
  {
    EverythingIsListed(store.hash, store.render, store.ReadOf(name).value);
  }

  /** Every instance itself is listed. */
  lemma InstanceIsListed(hash: Hasher, render: int -> string, instances: map<int, Instance>, shown: seq<G.Instance>,
                         h: int) returns (i: nat)
    requires Lists(hash, render, instances, shown) && h in instances
    ensures i < |shown| && ShowsNode(hash, render, shown[i], instances[h].node)
  {
    var places :| AreThePlaces(hash, instances, places) && ShowsAt(hash, render, instances, places, shown);
    var node := instances[h].node;
    var place: Place := (h, hash(node.service, node.path));
    assert IsPlace(hash, instances, place) && NodeAt(hash, instances, place) == node;
    i :| 0 <= i < |places| && places[i] == place;
  }

  /** The defaults of the provider's instances have been set again. */
  ghost predicate IsReset(before: map<string, map<int, Instance>>, after: map<string, map<int, Instance>>, p: string) {
    && p in before && p in after && after[p].Keys == before[p].Keys
    && forall h | h in before[p] ::
         && after[p][h].children == before[p][h].children
         && after[p][h].node.members == before[p][h].node.members + before[p][h].query.defaults
  }

  /** A read works in place: what the store holds after it is what it shows. */
  lemma ReadIsInPlace(store: Store, name: string)
    requires store.Readable() && name in store.members
    ensures name in store.AfterRead(name).entities
    ensures Lists(store.hash, store.render, store.AfterRead(name).entities[name], store.Snapshot()[name].instances)
  {
    SnapshotLists(store, name);
  }

  lemma DefaultsAreSet(before: map<int, Instance>, h: int)
    requires h in before
    ensures AllWithDefaults(before)[h].children == before[h].children
    ensures AllWithDefaults(before)[h].node.members == before[h].node.members + before[h].query.defaults
  {
  }

  /** So does the reset of every provider that it asks. */
  lemma ProvidersAreReset(store: Store, name: string, i: nat)
    requires store.Readable() && name in store.members && i < |store.links[name]| && store.entities[name] != map[]
    ensures IsReset(store.providers, store.AfterRead(name).providers, store.links[name][i].provider)
  {
    var p := store.links[name][i].provider;
    assert store.ProvidersRead(name)[p] == AllWithDefaults(store.providers[p]);
    forall h | h in store.providers[p]
      ensures AllWithDefaults(store.providers[p])[h].children == store.providers[p][h].children
      ensures AllWithDefaults(store.providers[p])[h].node.members
           == store.providers[p][h].node.members + store.providers[p][h].query.defaults
    {
      DefaultsAreSet(store.providers[p], h);
    }
  }

  // How many there are

  function NodeHashes(hash: Hasher, o: Instance): set<int> {
    o.children.Keys + {hash(o.node.service, o.node.path)}
  }

  ghost function PlaceSet(hash: Hasher, instances: map<int, Instance>): set<Place> {
    set h, k | h in instances && k in NodeHashes(hash, instances[h]) :: (h, k)
  }

  lemma {:induction false} DistinctPlaces(places: seq<Place>)
    requires Ascend(places)
    ensures |set place | place in places| == |places|
  {
    if places != [] {
      var n := |places| - 1;
      DistinctPlaces(places[..n]);
      assert (set place | place in places) == (set place | place in places[..n]) + {places[n]};
      assert forall i | 0 <= i < n :: places[..n][i] == places[i] && Before(places[i], places[n]);
    }
  }

  lemma PlacesAsSet(hash: Hasher, instances: map<int, Instance>, places: seq<Place>)
    requires AreThePlaces(hash, instances, places)
    ensures (set place | place in places) == PlaceSet(hash, instances)
  {
    forall place | place in places
      ensures place in PlaceSet(hash, instances)
    {
      var (h, k) := place;
      assert IsPlace(hash, instances, place);
      assert k in NodeHashes(hash, instances[h]);
    }
  }

  /** There are as many entries as instances and visible children. */
  lemma ListedCount(hash: Hasher, render: int -> string, instances: map<int, Instance>, shown: seq<G.Instance>)
    requires Lists(hash, render, instances, shown)
    ensures |shown| == |PlaceSet(hash, instances)|
  {
    var places :| AreThePlaces(hash, instances, places) && ShowsAt(hash, render, instances, places, shown);
    DistinctPlaces(places);
    PlacesAsSet(hash, instances, places);
  }
}
