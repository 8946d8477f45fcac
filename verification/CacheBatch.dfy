/** A cache filled incrementally by signals holds what one batch fill of the latest values would hold. */
module CacheBatch {
  import opened EntitySpec
  import opened FieldValues
  import opened Options
  import opened Orders
  import opened Queries

  /** The answer to a `GetAll` or a `PropertiesChanged` signal. */
  datatype Report = Report(interface: string, properties: Properties)

  function Front(reports: seq<Report>): seq<Report>
    requires reports != []
  {
    reports[..|reports| - 1]
  }

  function Last(reports: seq<Report>): Report
    requires reports != []
  {
    reports[|reports| - 1]
  }

  /** An instance after a history of reports; `None` stands for an exception. */
  function After(hash: Hasher, o: Instance, reports: seq<Report>): Option<Instance> {
    if reports == [] then Some(o)
    else match After(hash, o, Front(reports))
      case None => None
      case Some(before) => Fill(hash, before, Last(reports).interface, Last(reports).properties)
  }

  /** The latest scalar value reported for a property. */
  function LastScalar(reports: seq<Report>, interface: string, property: string): Option<FieldValue> {
    if reports == [] then None
    else
      var r := Last(reports);
      if r.interface == interface && property in r.properties && r.properties[property].Scalar?
      then Some(r.properties[property].value)
      else LastScalar(Front(reports), interface, property)
  }

  // One fill

  predicate Reported(properties: Properties, property: string) {
    property in properties && properties[property].Scalar?
  }

  lemma {:induction false} FillKeepsIdentity(hash: Hasher, o: Instance, dict: map<string, string>,
                                             properties: Properties, keys: seq<string>, i: nat)
    requires forall p | p in keys :: p in dict
    requires FillFrom(hash, o, dict, properties, keys, i).Some?
    ensures FillFrom(hash, o, dict, properties, keys, i).value.query == o.query
    ensures FillFrom(hash, o, dict, properties, keys, i).value.node.service == o.node.service
    ensures FillFrom(hash, o, dict, properties, keys, i).value.node.path == o.node.path
    decreases |keys| - i
  {
    if i < |keys| {
      if keys[i] in properties {
        var next := FillMember(hash, o, keys[i], dict[keys[i]], properties[keys[i]]);
        FillKeepsIdentity(hash, next.value, dict, properties, keys, i + 1);
      } else {
        FillKeepsIdentity(hash, o, dict, properties, keys, i + 1);
      }
    }
  }

  /** A member keeps its value if no remaining property that carries a scalar fills it. */
  lemma {:induction false} FillLeaves(hash: Hasher, o: Instance, dict: map<string, string>, properties: Properties,
                                      keys: seq<string>, i: nat, name: string)
    requires forall p | p in keys :: p in dict
    requires forall j | i <= j < |keys| && Reported(properties, keys[j]) :: dict[keys[j]] != name
    requires FillFrom(hash, o, dict, properties, keys, i).Some?
    ensures var after := FillFrom(hash, o, dict, properties, keys, i).value.node.members;
      (name in after <==> name in o.node.members) && (name in after ==> after[name] == o.node.members[name])
    decreases |keys| - i
  {
    if i < |keys| {
      if keys[i] in properties {
        var next := FillMember(hash, o, keys[i], dict[keys[i]], properties[keys[i]]);
        FillLeaves(hash, next.value, dict, properties, keys, i + 1, name);
      } else {
        FillLeaves(hash, o, dict, properties, keys, i + 1, name);
      }
    }
  }

  /** A member takes the value of the one property that fills it. */
  lemma {:induction false} FillSets(hash: Hasher, o: Instance, dict: map<string, string>, properties: Properties,
                                    keys: seq<string>, i: nat, k: nat)
    requires forall p | p in keys :: p in dict
    requires i <= k < |keys| && Reported(properties, keys[k])
    requires forall j | i <= j < |keys| && j != k :: dict[keys[j]] != dict[keys[k]]
    requires FillFrom(hash, o, dict, properties, keys, i).Some?
    ensures var after := FillFrom(hash, o, dict, properties, keys, i).value.node.members;
      dict[keys[k]] in after
      && o.query.Formatted(keys[k], properties[keys[k]]) == Some(Scalar(after[dict[keys[k]]]))
    decreases |keys| - i
  {
    if keys[i] !in properties {
      FillSets(hash, o, dict, properties, keys, i + 1, k);
    } else {
      var next := FillMember(hash, o, keys[i], dict[keys[i]], properties[keys[i]]);
      if i == k {
        FillLeaves(hash, next.value, dict, properties, keys, i + 1, dict[keys[k]]);
      } else {
        FillKeepsQuery(hash, o, keys[i], dict[keys[i]], properties[keys[i]]);
        FillSets(hash, next.value, dict, properties, keys, i + 1, k);
      }
    }
  }

  lemma FillKeepsQuery(hash: Hasher, o: Instance, property: string, member: string, value: Variant)
    requires FillMember(hash, o, property, member, value).Some?
    ensures FillMember(hash, o, property, member, value).value.query == o.query
  {
  }

  /** Whether setting a member succeeds: the formatters accept the value, also for the children of a list. */
  predicate Fillable(hash: Hasher, query: Query, service: string, path: string, property: string, member: string,
                     value: Variant)
  {
    match query.Formatted(property, value)
    case None => false
    case Some(Scalar(_)) => true
    case Some(Values(list)) => WithValues(hash, query, service, path, member, list, map[]).Some?
    case Some(Associations(list)) => Children(hash, query, service, member, list).Some?
  }

  lemma {:induction false} ValuesSucceed(hash: Hasher, query: Query, service: string, path: string, member: string,
                                         list: seq<FieldValue>, children: map<int, Node>)
    ensures WithValues(hash, query, service, path, member, list, children).Some?
       <==> WithValues(hash, query, service, path, member, list, map[]).Some?
  {
    if list != [] {
      ValuesSucceed(hash, query, service, path, member, list[..|list| - 1], children);
    }
  }

  lemma MemberSucceeds(hash: Hasher, o: Instance, property: string, member: string, value: Variant)
    ensures FillMember(hash, o, property, member, value).Some?
       <==> Fillable(hash, o.query, o.node.service, o.node.path, property, member, value)
    ensures FillMember(hash, o, property, member, value).Some? ==>
      var next := FillMember(hash, o, property, member, value).value;
      next.query == o.query && next.node.service == o.node.service && next.node.path == o.node.path
  {
    if value.Values? {
      ValuesSucceed(hash, o.query, o.node.service, o.node.path, member, value.values, o.children);
    }
  }

  lemma {:induction false} FillFromSucceeds(hash: Hasher, o: Instance, dict: map<string, string>,
                                            properties: Properties, keys: seq<string>, i: nat)
    requires forall p | p in keys :: p in dict
    ensures FillFrom(hash, o, dict, properties, keys, i).Some? <==>
      forall j | i <= j < |keys| && keys[j] in properties ::
        Fillable(hash, o.query, o.node.service, o.node.path, keys[j], dict[keys[j]], properties[keys[j]])
    decreases |keys| - i
  {
    if i < |keys| {
      if keys[i] in properties {
        var next := FillMember(hash, o, keys[i], dict[keys[i]], properties[keys[i]]);
        MemberSucceeds(hash, o, keys[i], dict[keys[i]], properties[keys[i]]);
        if next.Some? {
          FillFromSucceeds(hash, next.value, dict, properties, keys, i + 1);
        }
      } else {
        FillFromSucceeds(hash, o, dict, properties, keys, i + 1);
      }
    }
  }

  ghost predicate Accepted(hash: Hasher, query: Query, service: string, path: string, interface: string,
                           properties: Properties)
  {
    forall p | p in query.PropertyMembers(interface) && p in properties ::
      Fillable(hash, query, service, path, p, query.PropertyMembers(interface)[p], properties[p])
  }

  /** A fill succeeds exactly if every property it uses is accepted. */
  lemma FillSucceeds(hash: Hasher, o: Instance, interface: string, properties: Properties)
    ensures Fill(hash, o, interface, properties).Some?
       <==> Accepted(hash, o.query, o.node.service, o.node.path, interface, properties)
  {
    var dict := o.query.PropertyMembers(interface);
    var keys := SortedStrings(dict.Keys);
    FillFromSucceeds(hash, o, dict, properties, keys, 0);
    assert forall p | p in dict :: p in keys;
    assert forall j | 0 <= j < |keys| :: keys[j] in keys;
  }

  // Whole histories

  /** What a member filled by `property` of `interface` holds after a history that started from `initial`. */
  ghost predicate HoldsLast(query: Query, initial: Members, members: Members, reports: seq<Report>, interface: string,
                            property: string)
    requires interface in query.dictionary && property in query.dictionary[interface]
  {
    var name := query.dictionary[interface][property];
    match LastScalar(reports, interface, property)
    case None => SameAt(initial, members, name)
    case Some(v) => name in members && query.Formatted(property, Scalar(v)) == Some(Scalar(members[name]))
  }

  ghost predicate SameAt(a: Members, b: Members, name: string) {
    (name in a <==> name in b) && (name in a ==> a[name] == b[name])
  }

  lemma {:induction false} HistoryKeepsIdentity(hash: Hasher, o: Instance, reports: seq<Report>)
    requires After(hash, o, reports).Some?
    ensures After(hash, o, reports).value.query == o.query
    ensures After(hash, o, reports).value.node.service == o.node.service
    ensures After(hash, o, reports).value.node.path == o.node.path
  {
    if reports != [] {
      HistoryKeepsIdentity(hash, o, Front(reports));
      var before := After(hash, o, Front(reports)).value;
      var dict := before.query.PropertyMembers(Last(reports).interface);
      FillKeepsIdentity(hash, before, dict, Last(reports).properties, SortedStrings(dict.Keys), 0);
    }
  }

  ghost predicate AllAccepted(hash: Hasher, query: Query, service: string, path: string, reports: seq<Report>) {
    forall r | r in reports :: Accepted(hash, query, service, path, r.interface, r.properties)
  }

  lemma OneMoreAccepted(hash: Hasher, query: Query, service: string, path: string, reports: seq<Report>)
    requires reports != []
    ensures AllAccepted(hash, query, service, path, reports)
       <==> AllAccepted(hash, query, service, path, Front(reports))
            && Accepted(hash, query, service, path, Last(reports).interface, Last(reports).properties)
  {
    assert reports == Front(reports) + [Last(reports)];
  }

  /** A history succeeds exactly if each of its reports does; in particular the order of reports does not matter. */
  lemma {:induction false} HistorySucceeds(hash: Hasher, o: Instance, reports: seq<Report>)
    ensures After(hash, o, reports).Some? <==> AllAccepted(hash, o.query, o.node.service, o.node.path, reports)
  {
    if reports != [] {
      HistorySucceeds(hash, o, Front(reports));
      OneMoreAccepted(hash, o.query, o.node.service, o.node.path, reports);
      if After(hash, o, Front(reports)).Some? {
        HistoryKeepsIdentity(hash, o, Front(reports));
        FillSucceeds(hash, After(hash, o, Front(reports)).value, Last(reports).interface, Last(reports).properties);
      }
    }
  }

  /** With an injective dictionary every filled member holds the formatted latest value of its property. */
  lemma {:induction false} MembersHoldLast(hash: Hasher, o: Instance, reports: seq<Report>, interface: string,
                                           property: string)
    requires Injective(o.query.dictionary) && After(hash, o, reports).Some?
    requires interface in o.query.dictionary && property in o.query.dictionary[interface]
    ensures HoldsLast(o.query, o.node.members, After(hash, o, reports).value.node.members, reports, interface, property)
  {
    if reports != [] {
      MembersHoldLast(hash, o, Front(reports), interface, property);
      HistoryKeepsIdentity(hash, o, Front(reports));
      OneMoreReport(hash, After(hash, o, Front(reports)).value, Last(reports), interface, property);
    }
  }

  lemma OneMoreReport(hash: Hasher, before: Instance, r: Report, interface: string, property: string)
    requires Injective(before.query.dictionary)
    requires interface in before.query.dictionary && property in before.query.dictionary[interface]
    requires Fill(hash, before, r.interface, r.properties).Some?
    ensures var after := Fill(hash, before, r.interface, r.properties).value.node.members;
      var name := before.query.dictionary[interface][property];
      if r.interface == interface && Reported(r.properties, property)
      then name in after && before.query.Formatted(property, r.properties[property]) == Some(Scalar(after[name]))
      else SameAt(before.node.members, after, name)
  {
    var dict := before.query.PropertyMembers(r.interface);
    var keys := SortedStrings(dict.Keys);
    if r.interface == interface && Reported(r.properties, property) {
      assert property in keys;
      var k :| 0 <= k < |keys| && keys[k] == property;
      forall j | 0 <= j < |keys| && j != k
        ensures dict[keys[j]] != dict[keys[k]]
      {
        OnlyProperty(before.query.dictionary, interface, property, interface, keys[j]);
      }
      FillSets(hash, before, dict, r.properties, keys, 0, k);
    } else {
      forall j | 0 <= j < |keys| && Reported(r.properties, keys[j])
        ensures dict[keys[j]] != before.query.dictionary[interface][property]
      {
        assert keys[j] in keys;
        OnlyProperty(before.query.dictionary, interface, property, r.interface, keys[j]);
      }
      FillLeaves(hash, before, dict, r.properties, keys, 0, before.query.dictionary[interface][property]);
    }
  }

  lemma OnlyProperty(d: Dictionary, i: string, p: string, j: string, q: string)
    requires Injective(d) && i in d && p in d[i] && j in d && q in d[j] && (i != j || p != q)
    ensures d[i][p] != d[j][q]
  {
  }

  /** A member that no property fills never changes. */
  lemma {:induction false} OtherMembersStay(hash: Hasher, o: Instance, reports: seq<Report>, name: string)
    requires After(hash, o, reports).Some?
    requires forall i, p | i in o.query.dictionary && p in o.query.dictionary[i] :: o.query.dictionary[i][p] != name
    ensures SameAt(o.node.members, After(hash, o, reports).value.node.members, name)
  {
    if reports != [] {
      OtherMembersStay(hash, o, Front(reports), name);
      HistoryKeepsIdentity(hash, o, Front(reports));
      var before := After(hash, o, Front(reports)).value;
      var dict := before.query.PropertyMembers(Last(reports).interface);
      var keys := SortedStrings(dict.Keys);
      forall j | 0 <= j < |keys|
        ensures dict[keys[j]] != name
      {
        assert keys[j] in keys;
      }
      FillLeaves(hash, before, dict, Last(reports).properties, keys, 0, name);
    }
  }

  lemma SameEverywhere(a: Members, b: Members)
    requires forall name :: SameAt(a, b, name)
    ensures a == b
  {
    assert forall name | name in a :: SameAt(a, b, name);
    assert forall name | name in b :: SameAt(a, b, name);
  }

  /** Two histories with the same latest values leave the same members. */
  lemma SameLastSameMembers(hash: Hasher, o: Instance, a: seq<Report>, b: seq<Report>)
    requires Injective(o.query.dictionary) && After(hash, o, a).Some? && After(hash, o, b).Some?
    requires forall i, p | p in o.query.PropertyMembers(i) :: LastScalar(a, i, p) == LastScalar(b, i, p)
    ensures After(hash, o, a).value.node == After(hash, o, b).value.node
  {
    var d := o.query.dictionary;
    var m, n := After(hash, o, a).value.node.members, After(hash, o, b).value.node.members;
    forall name
      ensures SameAt(m, n, name)
    {
      if i, p :| i in d && p in d[i] && d[i][p] == name {
        assert p in o.query.PropertyMembers(i);
        MembersHoldLast(hash, o, a, i, p);
        MembersHoldLast(hash, o, b, i, p);
        assert HoldsLast(o.query, o.node.members, m, a, i, p) && HoldsLast(o.query, o.node.members, n, b, i, p);
      } else {
        OtherMembersStay(hash, o, a, name);
        OtherMembersStay(hash, o, b, name);
      }
    }
    SameEverywhere(m, n);
    HistoryKeepsIdentity(hash, o, a);
    HistoryKeepsIdentity(hash, o, b);
  }

  // The batch

  /** The properties of one interface, later reports overriding earlier ones. */
  function Overlay(reports: seq<Report>, interface: string): Properties {
    if reports == [] then map[]
    else
      var before := Overlay(Front(reports), interface);
      if Last(reports).interface == interface then before + Last(reports).properties else before
  }

  /** One report per interface, with all of its latest properties. */
  function Batch(reports: seq<Report>, interfaces: seq<string>): seq<Report> {
    seq(|interfaces|, i requires 0 <= i < |interfaces| => Report(interfaces[i], Overlay(reports, interfaces[i])))
  }

  /** A property that the query reads and that ever carries a scalar carries one the last time it is reported. */
  ghost predicate ScalarsLast(query: Query, reports: seq<Report>) {
    forall r, p | r in reports && p in query.PropertyMembers(r.interface) && Reported(r.properties, p) ::
      Reported(Overlay(reports, r.interface), p)
  }

  /** The type of a property does not change, as long as its D-Bus signature is fixed. */
  ghost predicate FixedTypes(reports: seq<Report>) {
    forall r, s, p |
      r in reports && s in reports && r.interface == s.interface && p in r.properties && p in s.properties ::
      r.properties[p].Scalar? == s.properties[p].Scalar?
  }

  predicate Carries(r: Report, interface: string, property: string, value: Variant) {
    r.interface == interface && property in r.properties && r.properties[property] == value
  }

  lemma {:induction false} OverlayIsReported(reports: seq<Report>, interface: string, property: string)
    requires property in Overlay(reports, interface)
    ensures exists r :: r in reports && Carries(r, interface, property, Overlay(reports, interface)[property])
  {
    var r := Last(reports);
    if r.interface == interface && property in r.properties {
      assert r in reports && Carries(r, interface, property, r.properties[property]);
    } else {
      OverlayIsReported(Front(reports), interface, property);
      var s :| s in Front(reports) && Carries(s, interface, property, Overlay(Front(reports), interface)[property]);
      assert s in reports;
    }
  }

  lemma {:induction false} ReportedIsOverlaid(reports: seq<Report>, r: Report, property: string)
    requires r in reports && property in r.properties
    ensures property in Overlay(reports, r.interface)
  {
    if Last(reports) != r {
      assert reports == Front(reports) + [Last(reports)];
      ReportedIsOverlaid(Front(reports), r, property);
    }
  }

  /** Fixed types are enough. */
  lemma FixedTypesAreLast(query: Query, reports: seq<Report>)
    requires FixedTypes(reports)
    ensures ScalarsLast(query, reports)
  {
    forall r, p | r in reports && p in query.PropertyMembers(r.interface) && Reported(r.properties, p)
      ensures Reported(Overlay(reports, r.interface), p)
    {
      ReportedIsOverlaid(reports, r, p);
      OverlayIsReported(reports, r.interface, p);
      var s :| s in reports && Carries(s, r.interface, p, Overlay(reports, r.interface)[p]);
    }
  }

  lemma {:induction false} LastScalarIsReported(reports: seq<Report>, interface: string, property: string)
    requires LastScalar(reports, interface, property).Some?
    ensures exists r :: r in reports && r.interface == interface && Reported(r.properties, property)
  {
    var r := Last(reports);
    if r.interface == interface && Reported(r.properties, property) {
      assert r in reports;
    } else {
      LastScalarIsReported(Front(reports), interface, property);
      var s :| s in Front(reports) && s.interface == interface && Reported(s.properties, property);
      assert s in reports;
    }
  }

  lemma {:induction false} OverlaidScalar(reports: seq<Report>, interface: string, property: string)
    requires Reported(Overlay(reports, interface), property)
    ensures LastScalar(reports, interface, property) == Some(Overlay(reports, interface)[property].value)
  {
    var r := Last(reports);
    if r.interface != interface || property !in r.properties {
      OverlaidScalar(Front(reports), interface, property);
    }
  }

  lemma OverlayHoldsLast(query: Query, reports: seq<Report>, interface: string, property: string)
    requires ScalarsLast(query, reports) && property in query.PropertyMembers(interface)
    ensures LastScalar(reports, interface, property)
         == if Reported(Overlay(reports, interface), property)
            then Some(Overlay(reports, interface)[property].value) else None
  {
    if Reported(Overlay(reports, interface), property) {
      OverlaidScalar(reports, interface, property);
    } else if LastScalar(reports, interface, property).Some? {
      LastScalarIsReported(reports, interface, property);
    }
  }

  lemma {:induction false} BatchHoldsOverlay(reports: seq<Report>, interfaces: seq<string>, interface: string,
                                             property: string)
    ensures LastScalar(Batch(reports, interfaces), interface, property)
         == if interface in interfaces && Reported(Overlay(reports, interface), property)
            then Some(Overlay(reports, interface)[property].value) else None
  {
    if interfaces != [] {
      var n := |interfaces| - 1;
      assert interfaces == interfaces[..n] + [interfaces[n]];
      assert Front(Batch(reports, interfaces)) == Batch(reports, interfaces[..n]);
      BatchHoldsOverlay(reports, interfaces[..n], interface, property);
    }
  }

  lemma BatchSucceeds(hash: Hasher, o: Instance, reports: seq<Report>, interfaces: seq<string>)
    requires After(hash, o, reports).Some?
    ensures After(hash, o, Batch(reports, interfaces)).Some?
  {
    HistorySucceeds(hash, o, reports);
    HistorySucceeds(hash, o, Batch(reports, interfaces));
    forall r | r in Batch(reports, interfaces)
      ensures Accepted(hash, o.query, o.node.service, o.node.path, r.interface, r.properties)
    {
      forall p | p in o.query.PropertyMembers(r.interface) && p in r.properties
        ensures Fillable(hash, o.query, o.node.service, o.node.path, p, o.query.PropertyMembers(r.interface)[p],
                         r.properties[p])
      {
        OverlayIsReported(reports, r.interface, p);
      }
    }
  }

  /**
   Incremental equals batch: an instance after any history of reports has the fields of one filled once per interface,
   in any order of interfaces, with the overlaid properties.
   */
  lemma IncrementalEqualsBatch(hash: Hasher, o: Instance, reports: seq<Report>, interfaces: seq<string>)
    requires Injective(o.query.dictionary) && ScalarsLast(o.query, reports)
    requires forall r | r in reports :: r.interface in interfaces
    requires After(hash, o, reports).Some?
    ensures After(hash, o, Batch(reports, interfaces)).Some?
    ensures After(hash, o, reports).value.node == After(hash, o, Batch(reports, interfaces)).value.node
  {
    BatchSucceeds(hash, o, reports, interfaces);
    forall i, p | p in o.query.PropertyMembers(i)
      ensures LastScalar(reports, i, p) == LastScalar(Batch(reports, interfaces), i, p)
    {
      OverlayHoldsLast(o.query, reports, i, p);
      BatchHoldsOverlay(reports, interfaces, i, p);
      if p in Overlay(reports, i) {
        OverlayIsReported(reports, i, p);
      }
    }
    SameLastSameMembers(hash, o, reports, Batch(reports, interfaces));
  }
}
