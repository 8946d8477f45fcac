/** The children of an instance filled by signals are those of one batch fill, too. */
module CacheChildren {
  import opened CacheBatch
  import opened EntitySpec
  import opened FieldValues
  import opened Options
  import opened Orders
  import opened Queries

  /** The latest association list reported as a property. */
  function LastList(reports: seq<Report>, interface: string, property: string): Option<seq<Association>> {
    if reports == [] then None
    else
      var r := Last(reports);
      if r.interface == interface && Listed(r.properties, property) then Some(r.properties[property].list)
      else LastList(Front(reports), interface, property)
  }

  predicate Listed(properties: Properties, property: string) {
    property in properties && properties[property].Associations?
  }

  /** All lists that the query reads are association lists and come as one property. */
  ghost predicate OnlyList(query: Query, reports: seq<Report>, interface: string, property: string) {
    forall r, p | r in reports && IsList(r.properties, p) && p in query.PropertyMembers(r.interface) ::
      r.interface == interface && p == property && Listed(r.properties, p)
  }

  predicate IsList(properties: Properties, property: string) {
    property in properties && !properties[property].Scalar?
  }

  // One fill

  lemma {:induction false} ScalarsKeepChildren(hash: Hasher, o: Instance, dict: map<string, string>,
                                               properties: Properties, keys: seq<string>, i: nat)
    requires forall p | p in keys :: p in dict
    requires forall j | i <= j < |keys| :: !IsList(properties, keys[j])
    requires FillFrom(hash, o, dict, properties, keys, i).Some?
    ensures FillFrom(hash, o, dict, properties, keys, i).value.children == o.children
    decreases |keys| - i
  {
    if i < |keys| {
      if keys[i] in properties {
        var next := FillMember(hash, o, keys[i], dict[keys[i]], properties[keys[i]]);
        ScalarsKeepChildren(hash, next.value, dict, properties, keys, i + 1);
      } else {
        ScalarsKeepChildren(hash, o, dict, properties, keys, i + 1);
      }
    }
  }

  lemma {:induction false} ListSetsChildren(hash: Hasher, o: Instance, dict: map<string, string>,
                                            properties: Properties, keys: seq<string>, i: nat, k: nat)
    requires forall p | p in keys :: p in dict
    requires i <= k < |keys| && Listed(properties, keys[k])
    requires forall j | i <= j < |keys| && j != k :: !IsList(properties, keys[j])
    requires FillFrom(hash, o, dict, properties, keys, i).Some?
    ensures Some(FillFrom(hash, o, dict, properties, keys, i).value.children)
         == Children(hash, o.query, o.node.service, dict[keys[k]], properties[keys[k]].list)
    decreases |keys| - i
  {
    if keys[i] !in properties {
      ListSetsChildren(hash, o, dict, properties, keys, i + 1, k);
    } else {
      var next := FillMember(hash, o, keys[i], dict[keys[i]], properties[keys[i]]).value;
      if i == k {
        ScalarsKeepChildren(hash, next, dict, properties, keys, i + 1);
      } else {
        ListSetsChildren(hash, next, dict, properties, keys, i + 1, k);
      }
    }
  }

  lemma OneMoreList(hash: Hasher, before: Instance, r: Report, interface: string, property: string)
    requires OnlyList(before.query, [r], interface, property)
    requires property in before.query.PropertyMembers(interface)
    requires Fill(hash, before, r.interface, r.properties).Some?
    ensures var after := Fill(hash, before, r.interface, r.properties).value;
      if r.interface == interface && Listed(r.properties, property)
      then Some(after.children) == Children(hash, before.query, before.node.service,
                                            before.query.PropertyMembers(interface)[property],
                                            r.properties[property].list)
      else after.children == before.children
  {
    var dict := before.query.PropertyMembers(r.interface);
    var keys := SortedStrings(dict.Keys);
    assert r in [r];
    assert forall j | 0 <= j < |keys| :: keys[j] in keys && keys[j] in dict;
    if r.interface == interface && Listed(r.properties, property) {
      assert property in keys;
      var k :| 0 <= k < |keys| && keys[k] == property;
      ListSetsChildren(hash, before, dict, r.properties, keys, 0, k);
    } else {
      ScalarsKeepChildren(hash, before, dict, r.properties, keys, 0);
    }
  }

  // Lists of strings and of doubles

  lemma NewChildIs(hash: Hasher, query: Query, service: string, path: string, interface: string,
                   properties: Properties)
    requires !HasLists(properties) && NewChild(hash, query, service, path, interface, properties).Some?
    ensures NewChild(hash, query, service, path, interface, properties).value.Hash(hash) == hash(service, path)
  {
    var o := NewInstance(query, service, path);
    var dict := query.PropertyMembers(interface);
    FillKeepsIdentity(hash, o, dict, properties, SortedStrings(dict.Keys), 0);
  }

  lemma UnderOne(m: map<int, Node>, h: int, node: Node)
    ensures m[h := node] - {h} == m - {h}
  {
  }

  lemma {:induction false} ValuesUnderOwnHash(hash: Hasher, query: Query, service: string, path: string,
                                              member: string, list: seq<FieldValue>, children: map<int, Node>)
    requires WithValues(hash, query, service, path, member, list, children).Some?
    ensures WithValues(hash, query, service, path, member, list, children).value - {hash(service, path)}
         == children - {hash(service, path)}
  {
    if list != [] {
      var n := |list| - 1;
      var child := map[member := Scalar(list[n])];
      ValuesUnderOwnHash(hash, query, service, path, member, list[..n], children);
      NewChildIs(hash, query, service, path, member, child);
      UnderOne(WithValues(hash, query, service, path, member, list[..n], children).value, hash(service, path),
               NewChild(hash, query, service, path, member, child).value);
    }
  }

  lemma OwnNodeHides(hash: Hasher, o: Instance, children: map<int, Node>)
    requires children - {o.node.Hash(hash)} == o.children - {o.node.Hash(hash)}
    ensures NodesOf(hash, o.(children := children)) == NodesOf(hash, o)
  {
    var own, a, b := o.node.Hash(hash), NodesOf(hash, o.(children := children)), NodesOf(hash, o);
    forall h
      ensures (h in a <==> h in b) && (h in a ==> a[h] == b[h])
    {
      if h != own {
        assert h in children <==> h in children - {own};
        assert h in o.children <==> h in o.children - {own};
      }
    }
    assert forall h | h in a :: h in b;
    assert forall h | h in b :: h in a;
  }

  /** What a list of strings or doubles adds is hidden by the instance itself: no read ever returns it. */
  lemma ValuesAreHidden(hash: Hasher, o: Instance, property: string, member: string, list: seq<FieldValue>)
    requires FillMember(hash, o, property, member, Values(list)).Some?
    ensures NodesOf(hash, FillMember(hash, o, property, member, Values(list)).value) == NodesOf(hash, o)
  {
    var after := WithValues(hash, o.query, o.node.service, o.node.path, member, list, o.children).value;
    ValuesUnderOwnHash(hash, o.query, o.node.service, o.node.path, member, list, o.children);
    OwnNodeHides(hash, o, after);
  }

  /** Only an association list changes the children that can be seen. */
  lemma {:induction false} OthersKeepVisible(hash: Hasher, o: Instance, dict: map<string, string>,
                                             properties: Properties, keys: seq<string>, i: nat)
    requires forall p | p in keys :: p in dict
    requires forall j | i <= j < |keys| :: !Listed(properties, keys[j])
    requires FillFrom(hash, o, dict, properties, keys, i).Some?
    ensures Visible(hash, o, FillFrom(hash, o, dict, properties, keys, i).value.children)
         == Visible(hash, o, o.children)
    decreases |keys| - i
  {
    if i < |keys| {
      if keys[i] in properties {
        MemberKeepsVisible(hash, o, keys[i], dict[keys[i]], properties[keys[i]]);
        OthersKeepVisible(hash, FillMember(hash, o, keys[i], dict[keys[i]], properties[keys[i]]).value, dict,
                          properties, keys, i + 1);
      } else {
        OthersKeepVisible(hash, o, dict, properties, keys, i + 1);
      }
    }
  }

  /** The children that the instance itself does not hide. */
  function Visible(hash: Hasher, o: Instance, children: map<int, Node>): map<int, Node> {
    children - {o.node.Hash(hash)}
  }

  lemma MemberKeepsVisible(hash: Hasher, o: Instance, property: string, member: string, value: Variant)
    requires !value.Associations? && FillMember(hash, o, property, member, value).Some?
    ensures var next := FillMember(hash, o, property, member, value).value;
      && next.node.service == o.node.service && next.node.path == o.node.path
      && Visible(hash, o, next.children) == Visible(hash, o, o.children)
  {
    if value.Values? {
      ValuesUnderOwnHash(hash, o.query, o.node.service, o.node.path, member, value.values, o.children);
    }
  }

  lemma {:induction false} ListSetsVisible(hash: Hasher, o: Instance, dict: map<string, string>,
                                           properties: Properties, keys: seq<string>, i: nat, k: nat)
    requires forall p | p in keys :: p in dict
    requires i <= k < |keys| && Listed(properties, keys[k])
    requires forall j | i <= j < |keys| && j != k :: !Listed(properties, keys[j])
    requires FillFrom(hash, o, dict, properties, keys, i).Some?
    ensures Children(hash, o.query, o.node.service, dict[keys[k]], properties[keys[k]].list).Some?
    ensures Visible(hash, o, FillFrom(hash, o, dict, properties, keys, i).value.children)
         == Visible(hash, o, Children(hash, o.query, o.node.service, dict[keys[k]], properties[keys[k]].list).value)
    decreases |keys| - i
  {
    if keys[i] !in properties {
      ListSetsVisible(hash, o, dict, properties, keys, i + 1, k);
    } else {
      var next := FillMember(hash, o, keys[i], dict[keys[i]], properties[keys[i]]).value;
      if i == k {
        OthersKeepVisible(hash, next, dict, properties, keys, i + 1);
      } else {
        MemberKeepsVisible(hash, o, keys[i], dict[keys[i]], properties[keys[i]]);
        ListSetsVisible(hash, next, dict, properties, keys, i + 1, k);
      }
    }
  }

  /** All association lists that the query reads come as one property; lists of strings and doubles may be anywhere. */
  ghost predicate OneSource(query: Query, reports: seq<Report>, interface: string, property: string) {
    forall r, p | r in reports && Listed(r.properties, p) && p in query.PropertyMembers(r.interface) ::
      r.interface == interface && p == property
  }

  lemma OneMoreVisible(hash: Hasher, before: Instance, r: Report, interface: string, property: string)
    requires OneSource(before.query, [r], interface, property)
    requires property in before.query.PropertyMembers(interface)
    requires Fill(hash, before, r.interface, r.properties).Some?
    ensures var after := Fill(hash, before, r.interface, r.properties).value;
      if r.interface == interface && Listed(r.properties, property)
      then var children := Children(hash, before.query, before.node.service,
                                    before.query.PropertyMembers(interface)[property], r.properties[property].list);
           children.Some? && Visible(hash, before, after.children) == Visible(hash, before, children.value)
      else Visible(hash, before, after.children) == Visible(hash, before, before.children)
  {
    var dict := before.query.PropertyMembers(r.interface);
    var keys := SortedStrings(dict.Keys);
    assert r in [r];
    assert forall j | 0 <= j < |keys| :: keys[j] in keys && keys[j] in dict;
    if r.interface == interface && Listed(r.properties, property) {
      assert property in keys;
      var k :| 0 <= k < |keys| && keys[k] == property;
      ListSetsVisible(hash, before, dict, r.properties, keys, 0, k);
    } else {
      OthersKeepVisible(hash, before, dict, r.properties, keys, 0);
    }
  }

  // Whole histories

  /** The visible children are those of the last association list alone. */
  lemma {:induction false} VisibleOfLastList(hash: Hasher, o: Instance, reports: seq<Report>, interface: string,
                                             property: string)
    requires OneSource(o.query, reports, interface, property) && property in o.query.PropertyMembers(interface)
    requires After(hash, o, reports).Some?
    ensures match LastList(reports, interface, property)
            case None => Visible(hash, o, After(hash, o, reports).value.children) == Visible(hash, o, o.children)
            case Some(list) =>
              var children := Children(hash, o.query, o.node.service, o.query.PropertyMembers(interface)[property],
                                       list);
              children.Some? &&
              Visible(hash, o, After(hash, o, reports).value.children) == Visible(hash, o, children.value)
  {
    if reports != [] {
      assert forall r | r in Front(reports) :: r in reports;
      VisibleOfLastList(hash, o, Front(reports), interface, property);
      HistoryKeepsIdentity(hash, o, Front(reports));
      assert Last(reports) in reports;
      OneMoreVisible(hash, After(hash, o, Front(reports)).value, Last(reports), interface, property);
    }
  }

  /** The children are those of the last list alone. */
  lemma {:induction false} ChildrenOfLastList(hash: Hasher, o: Instance, reports: seq<Report>, interface: string,
                                              property: string)
    requires OnlyList(o.query, reports, interface, property) && property in o.query.PropertyMembers(interface)
    requires After(hash, o, reports).Some?
    ensures Some(After(hash, o, reports).value.children)
         == match LastList(reports, interface, property) {
              case None => Some(o.children)
              case Some(list) =>
                Children(hash, o.query, o.node.service, o.query.PropertyMembers(interface)[property], list) }
  {
    if reports != [] {
      assert forall r | r in Front(reports) :: r in reports;
      ChildrenOfLastList(hash, o, Front(reports), interface, property);
      HistoryKeepsIdentity(hash, o, Front(reports));
      assert Last(reports) in reports;
      OneMoreList(hash, After(hash, o, Front(reports)).value, Last(reports), interface, property);
    }
  }

  // The batch

  /** A property that ever carries an association list carries one the last time it is reported. */
  ghost predicate ListsLast(reports: seq<Report>, interface: string, property: string) {
    forall r | r in reports && r.interface == interface && Listed(r.properties, property) ::
      Listed(Overlay(reports, interface), property)
  }

  lemma {:induction false} LastListIsReported(reports: seq<Report>, interface: string, property: string)
    requires LastList(reports, interface, property).Some?
    ensures exists r :: r in reports && r.interface == interface && Listed(r.properties, property)
  {
    var r := Last(reports);
    if r.interface == interface && Listed(r.properties, property) {
      assert r in reports;
    } else {
      LastListIsReported(Front(reports), interface, property);
      var s :| s in Front(reports) && s.interface == interface && Listed(s.properties, property);
      assert s in reports;
    }
  }

  lemma {:induction false} OverlaidList(reports: seq<Report>, interface: string, property: string)
    requires Listed(Overlay(reports, interface), property)
    ensures LastList(reports, interface, property) == Some(Overlay(reports, interface)[property].list)
  {
    var r := Last(reports);
    if r.interface != interface || property !in r.properties {
      OverlaidList(Front(reports), interface, property);
    }
  }

  lemma OverlayHoldsLastList(reports: seq<Report>, interface: string, property: string)
    requires ListsLast(reports, interface, property)
    ensures LastList(reports, interface, property)
         == if Listed(Overlay(reports, interface), property)
            then Some(Overlay(reports, interface)[property].list) else None
  {
    if Listed(Overlay(reports, interface), property) {
      OverlaidList(reports, interface, property);
    } else if LastList(reports, interface, property).Some? {
      LastListIsReported(reports, interface, property);
    }
  }

  lemma {:induction false} BatchHoldsList(reports: seq<Report>, interfaces: seq<string>, interface: string,
                                          property: string)
    ensures LastList(Batch(reports, interfaces), interface, property)
         == if interface in interfaces && Listed(Overlay(reports, interface), property)
            then Some(Overlay(reports, interface)[property].list) else None
  {
    if interfaces != [] {
      var n := |interfaces| - 1;
      assert interfaces == interfaces[..n] + [interfaces[n]];
      assert Front(Batch(reports, interfaces)) == Batch(reports, interfaces[..n]);
      BatchHoldsList(reports, interfaces[..n], interface, property);
    }
  }

  lemma BatchHasOnlyList(query: Query, reports: seq<Report>, interfaces: seq<string>, interface: string,
                         property: string)
    requires OnlyList(query, reports, interface, property)
    ensures OnlyList(query, Batch(reports, interfaces), interface, property)
  {
    forall r, p | r in Batch(reports, interfaces) && IsList(r.properties, p) && p in query.PropertyMembers(r.interface)
      ensures r.interface == interface && p == property && Listed(r.properties, p)
    {
      OverlayIsReported(reports, r.interface, p);
      var s :| s in reports && Carries(s, r.interface, p, Overlay(reports, r.interface)[p]);
    }
  }

  lemma BatchHasOneSource(query: Query, reports: seq<Report>, interfaces: seq<string>, interface: string,
                          property: string)
    requires OneSource(query, reports, interface, property)
    ensures OneSource(query, Batch(reports, interfaces), interface, property)
  {
    forall r, p | r in Batch(reports, interfaces) && Listed(r.properties, p) && p in query.PropertyMembers(r.interface)
      ensures r.interface == interface && p == property
    {
      OverlayIsReported(reports, r.interface, p);
      var s :| s in reports && Carries(s, r.interface, p, Overlay(reports, r.interface)[p]);
    }
  }

  lemma BatchHoldsLastList(reports: seq<Report>, interfaces: seq<string>, interface: string, property: string)
    requires ListsLast(reports, interface, property) && forall r | r in reports :: r.interface in interfaces
    ensures LastList(Batch(reports, interfaces), interface, property) == LastList(reports, interface, property)
  {
    OverlayHoldsLastList(reports, interface, property);
    BatchHoldsList(reports, interfaces, interface, property);
    if property in Overlay(reports, interface) {
      OverlayIsReported(reports, interface, property);
    }
  }

  /**
   Incremental equals batch, children included: where one property brings the association lists, an instance after any
   history shows, in all its nodes, what one fill per interface with the overlaid properties shows. Without lists of
   strings and doubles, whose children are hidden, the two instances are equal.
   */
  lemma IncrementalEqualsBatchWithChildren(hash: Hasher, o: Instance, reports: seq<Report>, interfaces: seq<string>,
                                           interface: string, property: string)
    requires Injective(o.query.dictionary) && ScalarsLast(o.query, reports) && ListsLast(reports, interface, property)
    requires OneSource(o.query, reports, interface, property) && property in o.query.PropertyMembers(interface)
    requires forall r | r in reports :: r.interface in interfaces
    requires After(hash, o, reports).Some?
    ensures After(hash, o, Batch(reports, interfaces)).Some?
    ensures NodesOf(hash, After(hash, o, reports).value)
         == NodesOf(hash, After(hash, o, Batch(reports, interfaces)).value)
    ensures OnlyList(o.query, reports, interface, property) ==>
      After(hash, o, Batch(reports, interfaces)) == After(hash, o, reports)
  {
    IncrementalEqualsBatch(hash, o, reports, interfaces);
    HistoryKeepsIdentity(hash, o, reports);
    HistoryKeepsIdentity(hash, o, Batch(reports, interfaces));
    BatchHoldsLastList(reports, interfaces, interface, property);
    BatchHasOneSource(o.query, reports, interfaces, interface, property);
    VisibleOfLastList(hash, o, reports, interface, property);
    VisibleOfLastList(hash, o, Batch(reports, interfaces), interface, property);
    var a, b := After(hash, o, reports).value, After(hash, o, Batch(reports, interfaces)).value;
    OwnNodeHides(hash, a, b.children);
    if OnlyList(o.query, reports, interface, property) {
      BatchHasOnlyList(o.query, reports, interfaces, interface, property);
      ChildrenOfLastList(hash, o, reports, interface, property);
      ChildrenOfLastList(hash, o, Batch(reports, interfaces), interface, property);
    }
  }
}
