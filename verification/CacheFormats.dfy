/** What the formatters of a query do to the values it caches. */
module CacheFormats {
  import opened CacheBatch
  import opened CacheChildren
  import opened EntitySpec
  import opened FieldValues
  import opened Options
  import opened Orders
  import opened Queries

  /** The formatters of a property, in the order in which they are applied. */
  function FormattersOf(query: Query, property: string): seq<Formatter> {
    if property in query.formatters then query.formatters[property] else []
  }

  /** Every value of the chain but the first is what the formatter at its place makes of the one before it. */
  ghost predicate IsChain(formatters: seq<Formatter>, chain: seq<FieldValue>) {
    && 1 <= |chain| <= |formatters| + 1
    && forall k | 1 <= k < |chain| :: formatters[k - 1](chain[k - 1]) == Some(chain[k])
  }

  /** The chain that starts with `value` runs through all formatters and ends with `result`. */
  ghost predicate Yields(formatters: seq<Formatter>, value: FieldValue, result: FieldValue) {
    exists chain :: IsChain(formatters, chain) && |chain| == |formatters| + 1
      && chain[0] == value && chain[|formatters|] == result
  }

  ghost predicate BreaksAfter(formatters: seq<Formatter>, value: FieldValue, chain: seq<FieldValue>) {
    && IsChain(formatters, chain) && |chain| <= |formatters| && chain[0] == value
    && formatters[|chain| - 1](chain[|chain| - 1]) == None
  }

  /** The chain that starts with `value` ends at a formatter that refuses. */
  ghost predicate Breaks(formatters: seq<Formatter>, value: FieldValue) {
    exists chain :: BreaksAfter(formatters, value, chain)
  }

  lemma ChainGrows(formatters: seq<Formatter>, value: FieldValue, next: FieldValue, chain: seq<FieldValue>)
    requires formatters != [] && formatters[0](value) == Some(next)
    requires IsChain(formatters[1..], chain) && chain[0] == next
    ensures IsChain(formatters, [value] + chain)
  {
    var all := [value] + chain;
    forall k | 1 <= k < |all|
      ensures formatters[k - 1](all[k - 1]) == Some(all[k])
    {
      if k > 1 {
        assert formatters[1..][k - 2] == formatters[k - 1];
      }
    }
  }

  /** Formatting follows the chain: to its end, or to the formatter that refuses. */
  lemma {:induction false} FormatIsChain(formatters: seq<Formatter>, value: FieldValue)
    ensures Format(formatters, 0, value).None? ==> Breaks(formatters, value)
    ensures Format(formatters, 0, value).Some? ==> Yields(formatters, value, Format(formatters, 0, value).value)
  {
    if formatters == [] {
      assert IsChain(formatters, [value]);
    } else {
      FormatRest(formatters, 1, formatters[0](value));
      if formatters[0](value).None? {
        assert BreaksAfter(formatters, value, [value]);
      } else {
        var next := formatters[0](value).value;
        FormatIsChain(formatters[1..], next);
        if Format(formatters[1..], 0, next).None? {
          var chain :| BreaksAfter(formatters[1..], next, chain);
          ChainGrows(formatters, value, next, chain);
          assert BreaksAfter(formatters, value, [value] + chain);
        } else {
          var chain :| IsChain(formatters[1..], chain) && |chain| == |formatters| && chain[0] == next
            && chain[|formatters| - 1] == Format(formatters[1..], 0, next).value;
          ChainGrows(formatters, value, next, chain);
          assert ([value] + chain)[|formatters|] == chain[|formatters| - 1];
        }
      }
    }
  }

  lemma {:induction false} FormatTail(formatters: seq<Formatter>, i: nat, value: FieldValue)
    requires 1 <= i <= |formatters|
    ensures Format(formatters, i, value) == Format(formatters[1..], i - 1, value)
    decreases |formatters| - i
  {
    if i < |formatters| {
      assert formatters[1..][i - 1] == formatters[i];
      var next := formatters[i](value);
      if next.Some? {
        FormatTail(formatters, i + 1, next.value);
      }
    }
  }

  lemma FormatRest(formatters: seq<Formatter>, i: nat, next: Option<FieldValue>)
    requires 1 <= i <= |formatters|
    ensures next.Some? ==> Format(formatters, i, next.value) == Format(formatters[1..], i - 1, next.value)
  {
    if next.Some? {
      FormatTail(formatters, i, next.value);
    }
  }

  /** A chain cannot both run through and break. */
  lemma ChainsAgree(formatters: seq<Formatter>, a: seq<FieldValue>, b: seq<FieldValue>, k: nat)
    requires IsChain(formatters, a) && IsChain(formatters, b) && a[0] == b[0] && k < |a| && k < |b|
    ensures a[k] == b[k]
  {
    if k > 0 {
      ChainsAgree(formatters, a, b, k - 1);
    }
  }

  lemma YieldsOrBreaks(formatters: seq<Formatter>, value: FieldValue, result: FieldValue)
    requires Yields(formatters, value, result)
    ensures !Breaks(formatters, value)
  {
    var chain :| IsChain(formatters, chain) && |chain| == |formatters| + 1
      && chain[0] == value && chain[|formatters|] == result;
    if broken :| BreaksAfter(formatters, value, broken) {
      var k := |broken| - 1;
      ChainsAgree(formatters, chain, broken, k);
      assert formatters[k](chain[k]) == Some(chain[k + 1]);
    }
  }

  /** A scalar is formatted to the end of its chain and refused exactly if the chain breaks. */
  lemma FormattedIsChain(query: Query, property: string, value: FieldValue)
    ensures query.Formatted(property, Scalar(value)).None? <==> Breaks(FormattersOf(query, property), value)
    ensures query.Formatted(property, Scalar(value)).Some? ==>
      query.Formatted(property, Scalar(value)).value.Scalar?
      && Yields(FormattersOf(query, property), value, query.Formatted(property, Scalar(value)).value.value)
  {
    FormatIsChain(FormattersOf(query, property), value);
    var formatted := Format(FormattersOf(query, property), 0, value);
    if formatted.Some? {
      YieldsOrBreaks(FormattersOf(query, property), value, formatted.value);
    }
  }

  // The value of a member

  /** Report `n` is the last one of the interface that carries a scalar for the property, and it carries `value`. */
  ghost predicate IsLatest(reports: seq<Report>, n: int, interface: string, property: string, value: FieldValue) {
    && 0 <= n < |reports| && Carries(reports[n], interface, property, Scalar(value))
    && forall k | n < k < |reports| && reports[k].interface == interface && property in reports[k].properties ::
         !reports[k].properties[property].Scalar?
  }

  lemma {:induction false} LatestIsLast(reports: seq<Report>, n: int, interface: string, property: string,
                                        value: FieldValue)
    requires IsLatest(reports, n, interface, property, value)
    ensures LastScalar(reports, interface, property) == Some(value)
  {
    if n < |reports| - 1 {
      assert IsLatest(Front(reports), n, interface, property, value);
      LatestIsLast(Front(reports), n, interface, property, value);
    }
  }

  lemma {:induction false} NoneIsLast(reports: seq<Report>, interface: string, property: string)
    requires forall r | r in reports && r.interface == interface && property in r.properties ::
      !r.properties[property].Scalar?
    ensures LastScalar(reports, interface, property) == None
  {
    if reports != [] {
      assert Last(reports) in reports && forall r | r in Front(reports) :: r in reports;
      NoneIsLast(Front(reports), interface, property);
    }
  }

  /** Some report carries the last scalar. */
  lemma {:induction false} LastIsLatest(reports: seq<Report>, interface: string, property: string)
    requires LastScalar(reports, interface, property).Some?
    ensures exists n :: IsLatest(reports, n, interface, property, LastScalar(reports, interface, property).value)
  {
    var n := |reports| - 1;
    var value := LastScalar(reports, interface, property).value;
    if Carries(reports[n], interface, property, Scalar(value)) {
      assert IsLatest(reports, n, interface, property, value);
    } else {
      LastIsLatest(Front(reports), interface, property);
      var k :| IsLatest(Front(reports), k, interface, property, value);
      assert IsLatest(reports, k, interface, property, value);
    }
  }

  /**
   After any history that does not throw a member holds the end of the chain that its formatters make of the last
   scalar reported for its property.
   */
  lemma MemberIsEndOfChain(hash: Hasher, o: Instance, reports: seq<Report>, n: int, interface: string,
                           property: string, value: FieldValue)
    requires Injective(o.query.dictionary) && After(hash, o, reports).Some?
    requires interface in o.query.dictionary && property in o.query.dictionary[interface]
    requires IsLatest(reports, n, interface, property, value)
    ensures var members := After(hash, o, reports).value.node.members;
      var name := o.query.dictionary[interface][property];
      name in members && Yields(FormattersOf(o.query, property), value, members[name])
  {
    MembersHoldLast(hash, o, reports, interface, property);
    LatestIsLast(reports, n, interface, property, value);
    assert HoldsLast(o.query, o.node.members, After(hash, o, reports).value.node.members, reports, interface,
                     property);
    FormattedIsChain(o.query, property, value);
  }

  /** A member for whose property no scalar was reported is as it was at first. */
  lemma UnreportedStays(hash: Hasher, o: Instance, reports: seq<Report>, interface: string, property: string)
    requires Injective(o.query.dictionary) && After(hash, o, reports).Some?
    requires interface in o.query.dictionary && property in o.query.dictionary[interface]
    requires forall r | r in reports && r.interface == interface && property in r.properties ::
      !r.properties[property].Scalar?
    ensures SameAt(o.node.members, After(hash, o, reports).value.node.members, o.query.dictionary[interface][property])
  {
    MembersHoldLast(hash, o, reports, interface, property);
    NoneIsLast(reports, interface, property);
  }

  // Refusal

  /** The strings that an association becomes. */
  ghost predicate Says(a: Association, property: string, text: string) {
    || (property == "Source" && text == a.source)
    || (property == "Destination" && text == a.destination)
    || (property == "Endpoint" && text == a.endpoint)
  }

  ghost predicate RefusesAssociation(query: Query, member: string, a: Association) {
    exists property, text :: property in query.PropertyMembers(member) && Says(a, property, text)
      && Breaks(FormattersOf(query, property), StrValue(text))
  }

  ghost predicate RefusesValue(query: Query, member: string, v: FieldValue) {
    member in query.PropertyMembers(member) && Breaks(FormattersOf(query, member), v)
  }

  ghost predicate RefusesSome(query: Query, member: string, list: seq<FieldValue>) {
    exists v :: v in list && RefusesValue(query, member, v)
  }

  /**
   A value that is refused: a scalar whose chain breaks, a list whose property has formatters, or a list one of whose
   elements would be refused as a property of a child.
   */
  ghost predicate Refuses(query: Query, property: string, member: string, value: Variant) {
    match value
    case Scalar(v) => Breaks(FormattersOf(query, property), v)
    case Values(list) =>
      FormattersOf(query, property) != [] || RefusesSome(query, member, list)
    case Associations(list) =>
      FormattersOf(query, property) != [] || exists a :: a in list && RefusesAssociation(query, member, a)
  }

  lemma ScalarIsRefused(hash: Hasher, query: Query, service: string, path: string, property: string, member: string,
                        v: FieldValue)
    ensures Fillable(hash, query, service, path, property, member, Scalar(v))
       <==> !Breaks(FormattersOf(query, property), v)
  {
    FormattedIsChain(query, property, v);
  }

  /** A property of a child whose chain breaks. */
  ghost predicate IsBroken(query: Query, member: string, properties: Properties, p: string) {
    && p in query.PropertyMembers(member) && p in properties && properties[p].Scalar?
    && Breaks(FormattersOf(query, p), properties[p].value)
  }

  /** A child with scalars alone is refused exactly if the chain of one of its properties breaks. */
  lemma ChildIsRefused(hash: Hasher, query: Query, service: string, path: string, member: string,
                       properties: Properties)
    requires !HasLists(properties)
    ensures NewChild(hash, query, service, path, member, properties).None?
       <==> exists p :: IsBroken(query, member, properties, p)
  {
    FillSucceeds(hash, NewInstance(query, service, path), member, properties);
    ScalarsAccepted(hash, query, service, path, member, properties);
  }

  lemma ScalarsAccepted(hash: Hasher, query: Query, service: string, path: string, member: string,
                        properties: Properties)
    requires !HasLists(properties)
    ensures Accepted(hash, query, service, path, member, properties)
       <==> !exists p :: IsBroken(query, member, properties, p)
  {
    var dict := query.PropertyMembers(member);
    if p :| IsBroken(query, member, properties, p) {
      ScalarIsRefused(hash, query, service, path, p, dict[p], properties[p].value);
    }
    if p :| p in dict && p in properties && !Fillable(hash, query, service, path, p, dict[p], properties[p]) {
      assert properties[p].Scalar?;
      ScalarIsRefused(hash, query, service, path, p, dict[p], properties[p].value);
      assert IsBroken(query, member, properties, p);
    }
  }

  lemma AssociationSays(a: Association, p: string, text: string)
    ensures Says(a, p, text) <==> p in AssociationProperties(a) && AssociationProperties(a)[p] == Scalar(StrValue(text))
    ensures p in AssociationProperties(a) ==>
      AssociationProperties(a)[p].Scalar? && AssociationProperties(a)[p].value.StrValue?
  {
    assert |"Source"| == 6 && |"Destination"| == 11 && |"Endpoint"| == 8;
  }

  lemma AssociationIsBroken(query: Query, member: string, a: Association)
    ensures (exists p :: IsBroken(query, member, AssociationProperties(a), p)) <==> RefusesAssociation(query, member, a)
  {
    if p :| IsBroken(query, member, AssociationProperties(a), p) {
      AssociationSays(a, p, AssociationProperties(a)[p].value.text);
    }
    if RefusesAssociation(query, member, a) {
      var p, text :| p in query.PropertyMembers(member) && Says(a, p, text)
        && Breaks(FormattersOf(query, p), StrValue(text));
      AssociationSays(a, p, text);
      assert IsBroken(query, member, AssociationProperties(a), p);
    }
  }

  lemma AssociationIsRefused(hash: Hasher, query: Query, service: string, member: string, a: Association)
    ensures Child(hash, query, service, member, a).None? <==> RefusesAssociation(query, member, a)
  {
    ChildIsRefused(hash, query, service, a.endpoint, member, AssociationProperties(a));
    AssociationIsBroken(query, member, a);
  }

  lemma {:induction false} ChildrenAreRefused(hash: Hasher, query: Query, service: string, member: string,
                                              list: seq<Association>)
    ensures Children(hash, query, service, member, list).None? <==>
      exists a :: a in list && RefusesAssociation(query, member, a)
  {
    if list != [] {
      var n := |list| - 1;
      ChildrenAreRefused(hash, query, service, member, list[..n]);
      AssociationIsRefused(hash, query, service, member, list[n]);
      assert list == list[..n] + [list[n]];
    }
  }

  lemma ValueIsRefused(hash: Hasher, query: Query, service: string, path: string, member: string, v: FieldValue)
    ensures NewChild(hash, query, service, path, member, map[member := Scalar(v)]).None?
       <==> RefusesValue(query, member, v)
  {
    var properties := map[member := Scalar(v)];
    ChildIsRefused(hash, query, service, path, member, properties);
    assert forall p | IsBroken(query, member, properties, p) :: p == member;
    assert RefusesValue(query, member, v) <==> IsBroken(query, member, properties, member);
  }

  lemma OneMoreValue(query: Query, member: string, list: seq<FieldValue>)
    requires list != []
    ensures RefusesSome(query, member, list) <==>
      RefusesSome(query, member, list[..|list| - 1]) || RefusesValue(query, member, list[|list| - 1])
  {
    assert list == list[..|list| - 1] + [list[|list| - 1]];
  }

  lemma {:induction false} ValuesAreRefused(hash: Hasher, query: Query, service: string, path: string, member: string,
                                            list: seq<FieldValue>)
    ensures WithValues(hash, query, service, path, member, list, map[]).None? <==>
      RefusesSome(query, member, list)
  {
    if list != [] {
      var n := |list| - 1;
      ValuesAreRefused(hash, query, service, path, member, list[..n]);
      ValueIsRefused(hash, query, service, path, member, list[n]);
      OneMoreValue(query, member, list);
    }
  }

  lemma MemberIsRefused(hash: Hasher, query: Query, service: string, path: string, property: string, member: string,
                        value: Variant)
    ensures Fillable(hash, query, service, path, property, member, value) <==> !Refuses(query, property, member, value)
  {
    match value
    case Scalar(v) => ScalarIsRefused(hash, query, service, path, property, member, v);
    case Values(list) => ValuesAreRefused(hash, query, service, path, member, list);
    case Associations(list) => ChildrenAreRefused(hash, query, service, member, list);
  }

  /** A report throws exactly if one of the values it brings for the dictionary is refused. */
  lemma ReportIsRefused(hash: Hasher, o: Instance, interface: string, properties: Properties)
    ensures Fill(hash, o, interface, properties).None? <==>
      exists p :: p in o.query.PropertyMembers(interface) && p in properties
        && Refuses(o.query, p, o.query.PropertyMembers(interface)[p], properties[p])
  {
    FillSucceeds(hash, o, interface, properties);
    var dict := o.query.PropertyMembers(interface);
    forall p | p in dict && p in properties
      ensures Fillable(hash, o.query, o.node.service, o.node.path, p, dict[p], properties[p])
         <==> !Refuses(o.query, p, dict[p], properties[p])
    {
      MemberIsRefused(hash, o.query, o.node.service, o.node.path, p, dict[p], properties[p]);
    }
  }

  // What is captured of a list of strings or doubles

  /** A child that one scalar is captured as: it has the path of the instance and the formatted value. */
  ghost predicate Captures(query: Query, service: string, path: string, member: string, value: FieldValue,
                           child: Node)
  {
    && child.service == service && child.path == path
    && (member in query.PropertyMembers(member) ==>
          query.PropertyMembers(member)[member] in child.members
          && Yields(FormattersOf(query, member), value, child.members[query.PropertyMembers(member)[member]]))
  }

  lemma OneIsCaptured(hash: Hasher, query: Query, service: string, path: string, member: string, value: FieldValue)
    requires Injective(query.dictionary)
    requires NewChild(hash, query, service, path, member, map[member := Scalar(value)]).Some?
    ensures Captures(query, service, path, member, value,
                     NewChild(hash, query, service, path, member, map[member := Scalar(value)]).value)
  {
    var o, properties := NewInstance(query, service, path), map[member := Scalar(value)];
    var dict := query.PropertyMembers(member);
    FillKeepsIdentity(hash, o, dict, properties, SortedStrings(dict.Keys), 0);
    if member in dict {
      OneMoreReport(hash, o, Report(member, properties), member, member);
      FormattedIsChain(query, member, value);
    }
  }

  /** The last value of a list is what stays, under the hash of the instance; the other children stay as they are. */
  lemma ValuesAreCaptured(hash: Hasher, query: Query, service: string, path: string, member: string,
                          list: seq<FieldValue>, children: map<int, Node>)
    requires Injective(query.dictionary) && list != []
    requires WithValues(hash, query, service, path, member, list, children).Some?
    ensures var after := WithValues(hash, query, service, path, member, list, children).value;
      && after.Keys == children.Keys + {hash(service, path)}
      && Captures(query, service, path, member, list[|list| - 1], after[hash(service, path)])
      && forall h | h in children && h != hash(service, path) :: after[h] == children[h]
  {
    var n := |list| - 1;
    ValuesUnderOwnHash(hash, query, service, path, member, list[..n], children);
    NewChildIs(hash, query, service, path, member, map[member := Scalar(list[n])]);
    OneIsCaptured(hash, query, service, path, member, list[n]);
    SetUnder(WithValues(hash, query, service, path, member, list[..n], children).value, children, hash(service, path),
             NewChild(hash, query, service, path, member, map[member := Scalar(list[n])]).value);
  }

  lemma SetUnder(before: map<int, Node>, children: map<int, Node>, own: int, child: Node)
    requires before - {own} == children - {own}
    ensures before[own := child].Keys == children.Keys + {own}
    ensures forall h | h in children && h != own :: before[own := child][h] == children[h]
  {
    forall h
      ensures h in before - {own} <==> h in before && h != own
      ensures h in children - {own} <==> h in children && h != own
    {
    }
    forall h | h in children && h != own
      ensures h in before && before[h] == children[h]
    {
      assert (before - {own})[h] == (children - {own})[h];
    }
  }

  // The shipped formatters

  lemma OneFormatter(formatter: Formatter, value: FieldValue, result: FieldValue)
    ensures Yields([formatter], value, result) <==> formatter(value) == Some(result)
    ensures Breaks([formatter], value) <==> formatter(value) == None
  {
    if formatter(value) == None {
      assert BreaksAfter([formatter], value, [value]);
    } else {
      var chain := [value, formatter(value).value];
      assert IsChain([formatter], chain) && chain[1] == formatter(value).value;
    }
    if Breaks([formatter], value) {
      var chain :| BreaksAfter([formatter], value, chain);
    }
  }

  /** How a sensor shows a unit. */
  ghost predicate ShowsUnit(unit: string, shown: string) {
    && (unit == "xyz.openbmc_project.Sensor.Value.Unit.DegreesC" ==> shown == "\U{00B0}C")
    && (unit == "xyz.openbmc_project.Sensor.Value.Unit.Volts" ==> shown == "Volts")
    && (unit == "xyz.openbmc_project.Sensor.Value.Unit.RPMS" ==> shown == "RPM")
    && (unit == "xyz.openbmc_project.Sensor.Value.Unit.Meters" ==> shown == "Meters")
    && (unit == "xyz.openbmc_project.Sensor.Value.Unit.Amperes" ==> shown == "Amperes")
    && (unit == "xyz.openbmc_project.Sensor.Value.Unit.Watts" ==> shown == "Watts")
    && (unit == "xyz.openbmc_project.Sensor.Value.Unit.Joules" ==> shown == "Joules")
    && (unit == "xyz.openbmc_project.Sensor.Value.Unit.Percent" ==> shown == "%")
    && (!IsUnit(unit) ==> shown == "Unit")
  }

  ghost predicate IsUnit(unit: string) {
    unit in {"xyz.openbmc_project.Sensor.Value.Unit.DegreesC", "xyz.openbmc_project.Sensor.Value.Unit.Volts",
             "xyz.openbmc_project.Sensor.Value.Unit.RPMS", "xyz.openbmc_project.Sensor.Value.Unit.Meters",
             "xyz.openbmc_project.Sensor.Value.Unit.Amperes", "xyz.openbmc_project.Sensor.Value.Unit.Watts",
             "xyz.openbmc_project.Sensor.Value.Unit.Joules", "xyz.openbmc_project.Sensor.Value.Unit.Percent"}
  }

  lemma UnitLengths()
    ensures |"xyz.openbmc_project.Sensor.Value.Unit.DegreesC"| == 46
    ensures |"xyz.openbmc_project.Sensor.Value.Unit.Volts"| == |"xyz.openbmc_project.Sensor.Value.Unit.Watts"| == 43
    ensures |"xyz.openbmc_project.Sensor.Value.Unit.RPMS"| == 42
    ensures |"xyz.openbmc_project.Sensor.Value.Unit.Meters"| == |"xyz.openbmc_project.Sensor.Value.Unit.Joules"| == 44
    ensures |"xyz.openbmc_project.Sensor.Value.Unit.Amperes"| == |"xyz.openbmc_project.Sensor.Value.Unit.Percent"| == 45
  {
  }

  lemma UnitsDiffer()
    ensures "xyz.openbmc_project.Sensor.Value.Unit.Volts" != "xyz.openbmc_project.Sensor.Value.Unit.Watts"
    ensures "xyz.openbmc_project.Sensor.Value.Unit.Meters" != "xyz.openbmc_project.Sensor.Value.Unit.Joules"
    ensures "xyz.openbmc_project.Sensor.Value.Unit.Amperes" != "xyz.openbmc_project.Sensor.Value.Unit.Percent"
  {
    assert "xyz.openbmc_project.Sensor.Value.Unit.Volts"[38] == 'V';
    assert "xyz.openbmc_project.Sensor.Value.Unit.Watts"[38] == 'W';
    assert "xyz.openbmc_project.Sensor.Value.Unit.Meters"[38] == 'M';
    assert "xyz.openbmc_project.Sensor.Value.Unit.Joules"[38] == 'J';
    assert "xyz.openbmc_project.Sensor.Value.Unit.Amperes"[38] == 'A';
    assert "xyz.openbmc_project.Sensor.Value.Unit.Percent"[38] == 'P';
  }

  lemma UnitIsShown(unit: string)
    ensures ShowsUnit(unit, if unit in SENSOR_UNITS then SENSOR_UNITS[unit] else "Unit")
  {
    UnitLengths();
    UnitsDiffer();
  }

  lemma UnitIsFormatted(unit: string, result: FieldValue)
    requires Yields([FormatSensorUnit], StrValue(unit), result)
    ensures result.StrValue? && ShowsUnit(unit, result.text)
  {
    OneFormatter(FormatSensorUnit, StrValue(unit), result);
    UnitIsShown(unit);
  }

  /** A sensor shows the label of the last unit it reported. */
  lemma SensorShowsUnit(hash: Hasher, o: Instance, reports: seq<Report>, n: int, unit: string)
    requires o.query == SensorsQuery() && After(hash, o, reports).Some?
    requires IsLatest(reports, n, "xyz.openbmc_project.Sensor.Value", "Unit", StrValue(unit))
    ensures var shown := Field(After(hash, o, reports).value.node.members, "Unit");
      shown.StrValue? && ShowsUnit(unit, shown.text)
  {
    SensorsIsInjective();
    MemberIsEndOfChain(hash, o, reports, n, "xyz.openbmc_project.Sensor.Value", "Unit", StrValue(unit));
    assert FormattersOf(o.query, "Unit") == [FormatSensorUnit];
    UnitIsFormatted(unit, After(hash, o, reports).value.node.members["Unit"]);
  }

  /** Chassis type 23 is a rack mount. */
  lemma ChassisShowsType(hash: Hasher, o: Instance, reports: seq<Report>, n: int, code: string)
    requires o.query == ChassisQuery() && After(hash, o, reports).Some?
    requires IsLatest(reports, n, "com.yadro.Platform", "ChassisType", StrValue(code))
    ensures Field(After(hash, o, reports).value.node.members, "Type")
         == StrValue(if code == "23" then "Rack Mount" else "Other")
  {
    ChassisIsInjective();
    MemberIsEndOfChain(hash, o, reports, n, "com.yadro.Platform", "ChassisType", StrValue(code));
    OneFormatter(FormatChassisType, StrValue(code), After(hash, o, reports).value.node.members["Type"]);
  }

  /** A unit or a chassis type that is no string is refused, and nothing else is. */
  lemma StringsAreRequired(query: Query, property: string, value: FieldValue)
    requires query == SensorsQuery() || query == ChassisQuery()
    ensures Breaks(FormattersOf(query, property), value) <==>
      !value.StrValue? && property == if query == SensorsQuery() then "Unit" else "ChassisType"
  {
    FormattedIsChain(query, property, value);
  }

  // Which member shows which property

  /** Without formatters a member shows the last value of its property as it is. */
  lemma ShowsAsReported(hash: Hasher, o: Instance, reports: seq<Report>, n: int, interface: string, property: string,
                        value: FieldValue)
    requires Injective(o.query.dictionary) && After(hash, o, reports).Some?
    requires interface in o.query.dictionary && property in o.query.dictionary[interface]
    requires IsLatest(reports, n, interface, property, value) && FormattersOf(o.query, property) == []
    ensures var members, name := After(hash, o, reports).value.node.members, o.query.dictionary[interface][property];
      name in members && members[name] == value
  {
    MemberIsEndOfChain(hash, o, reports, n, interface, property, value);
  }

  /** The sources of a sensor's readings and thresholds. */
  ghost predicate IsSensorSource(interface: string, property: string, member: string) {
    match interface
    case "xyz.openbmc_project.Sensor.Value" => property == "Value" && member == "Reading"
    case "xyz.openbmc_project.Sensor.Threshold.Warning" =>
      (property == "WarningLow" && member == "LowWarning") || (property == "WarningHigh" && member == "HighWarning")
    case "xyz.openbmc_project.Sensor.Threshold.Critical" =>
      (property == "CriticalLow" && member == "LowCritical") || (property == "CriticalHigh" && member == "HighCritical")
    case _ => false
  }

  lemma SensorSource(interface: string, property: string, member: string)
    requires IsSensorSource(interface, property, member)
    ensures interface in SensorsQuery().dictionary && property in SensorsQuery().dictionary[interface]
    ensures SensorsQuery().dictionary[interface][property] == member && property != "Unit"
  {
  }

  lemma SensorShowsReadings(hash: Hasher, o: Instance, reports: seq<Report>, n: int, interface: string,
                            property: string, member: string, value: FieldValue)
    requires o.query == SensorsQuery() && After(hash, o, reports).Some?
    requires IsSensorSource(interface, property, member) && IsLatest(reports, n, interface, property, value)
    ensures Field(After(hash, o, reports).value.node.members, member) == value
  {
    SensorSource(interface, property, member);
    SensorsIsInjective();
    ShowsAsReported(hash, o, reports, n, interface, property, value);
  }

  /** What the dictionaries of servers and baseboards read: the asset decorator, and the item itself. */
  ghost predicate IsItemSource(item: string, interface: string, property: string) {
    || (interface == "xyz.openbmc_project.Inventory.Decorator.Asset"
        && property in {"Manufacturer", "Model", "SerialNumber", "PartNumber"})
    || (interface == item && property in {"Name", "Type"})
  }

  lemma ServerSource(interface: string, property: string)
    requires IsItemSource("xyz.openbmc_project.Inventory.Item.Chassis", interface, property)
    ensures interface in ServerQuery().dictionary && property in ServerQuery().dictionary[interface]
    ensures ServerQuery().dictionary[interface][property] == property
  {
  }

  lemma BaseboardSource(interface: string, property: string)
    requires IsItemSource("xyz.openbmc_project.Inventory.Item.Board", interface, property)
    ensures interface in BaseboardQuery().dictionary && property in BaseboardQuery().dictionary[interface]
    ensures BaseboardQuery().dictionary[interface][property] == property
  {
  }

  lemma ServerShowsAssets(hash: Hasher, o: Instance, reports: seq<Report>, n: int, interface: string,
                          property: string, value: FieldValue)
    requires o.query == ServerQuery() && After(hash, o, reports).Some?
    requires IsItemSource("xyz.openbmc_project.Inventory.Item.Chassis", interface, property)
    requires IsLatest(reports, n, interface, property, value)
    ensures Field(After(hash, o, reports).value.node.members, property) == value
  {
    ServerSource(interface, property);
    ServerIsInjective();
    ShowsAsReported(hash, o, reports, n, interface, property, value);
  }

  lemma BaseboardShowsAssets(hash: Hasher, o: Instance, reports: seq<Report>, n: int, interface: string,
                             property: string, value: FieldValue)
    requires o.query == BaseboardQuery() && After(hash, o, reports).Some?
    requires IsItemSource("xyz.openbmc_project.Inventory.Item.Board", interface, property)
    requires IsLatest(reports, n, interface, property, value)
    ensures Field(After(hash, o, reports).value.node.members, property) == value
  {
    BaseboardSource(interface, property);
    BaseboardIsInjective();
    ShowsAsReported(hash, o, reports, n, interface, property, value);
  }

  ghost predicate IsChassisSource(interface: string, property: string, member: string) {
    || (interface == "com.yadro.Platform" && property == "ChassisPartNumber" && member == "PartNumber")
    || (interface == "xyz.openbmc_project.Inventory.Decorator.Asset" && property == member == "Manufacturer")
  }

  lemma ChassisShowsAssets(hash: Hasher, o: Instance, reports: seq<Report>, n: int, interface: string,
                           property: string, member: string, value: FieldValue)
    requires o.query == ChassisQuery() && After(hash, o, reports).Some?
    requires IsChassisSource(interface, property, member) && IsLatest(reports, n, interface, property, value)
    ensures Field(After(hash, o, reports).value.node.members, member) == value
  {
    ChassisIsInjective();
    ShowsAsReported(hash, o, reports, n, interface, property, value);
  }
}
