/** Runs of the server as far as the status of sensors goes: signals and reads in any order. */
module SensorRuns {
  import opened CacheBatch
  import opened Entities
  import opened EntityCache
  import opened EntitySpec
  import opened EntityStores
  import opened FieldValues
  import opened LinkRules
  import opened Queries
  import opened SensorReads
  import opened SensorStatus

  /** A signal about an object of the status provider. */
  method SignalStatus(sensors: Entity, o: DBusInstance, ghost i: nat, list: seq<Association>,
                      ghost objects: seq<StatusObject>, ghost values: seq<Instance>, ghost views: seq<Instance>)
    returns (ghost later: seq<Instance>)
    requires sensors.Valid() && Show(sensors.order, values) && sensors.Ready(views)
    requires Tracks(sensors, objects, values, views) && i < |sensors.provider.order| && sensors.provider.order[i] == o
    modifies o`memberInstances, o`complexInstances, (set f: FieldInstance | f.owner == o)`value
    ensures sensors.Valid() && Show(sensors.order, values) && sensors.Ready(later) && i < |objects|
    ensures Tracks(sensors, objects[i := Updated(objects[i], list)], values, later)
  {
    ghost var p: SupplementProvider := sensors.provider;
    OrderIsSeparate(p.order, p.instances, p.hash, p.notAvailable);
    UpdateRemembers(sensors.hash, objects, views, i, list);
    later := views[i := FillUntil(p.hash, views[i], DEFINITION_INTERFACE, ListReport(list))];
    var ok := FillBeside(p.order, o, i, DEFINITION_INTERFACE, ListReport(list), views,
                         sensors.order, values);
  }

  /** A signal about a sensor; a formatter may refuse it. */
  method SignalSensor(sensors: Entity, o: DBusInstance, ghost i: nat, interface: string, properties: Properties,
                      ghost objects: seq<StatusObject>, ghost values: seq<Instance>, ghost views: seq<Instance>)
    returns (ghost later: seq<Instance>)
    requires sensors.Valid() && Show(sensors.order, values) && sensors.Ready(views)
    requires Tracks(sensors, objects, values, views) && i < |sensors.order| && sensors.order[i] == o
    requires UsesScalars(SensorsQuery(), [Report(interface, properties)])
    modifies o`memberInstances, o`complexInstances, (set f: FieldInstance | f.owner == o)`value
    ensures sensors.Valid() && Show(sensors.order, later) && sensors.Ready(views)
    ensures Tracks(sensors, objects, later, views)
  {
    ghost var p: SupplementProvider := sensors.provider;
    OrderIsSeparate(sensors.order, sensors.instances, sensors.hash, sensors.notAvailable);
    ReportKeepsSensor(sensors.hash, values[i], o.objectPath, Report(interface, properties));
    later := values[i := FillUntil(sensors.hash, values[i], interface, properties)];
    var ok := FillBeside(sensors.order, o, i, interface, properties, values, p.order, views);
  }

  // Events

  datatype Event =
    | StatusSignal(index: nat, list: seq<Association>)
    | SensorSignal(index: nat, interface: string, properties: Properties)
    | Query

  datatype Answer =
    | Nothing
    | Refused
    | Statuses(statuses: seq<FieldValue>)

  /** The histories after some events: the signals of the status provider, whatever came in between. */
  function ObjectsAfter(objects: seq<StatusObject>, events: seq<Event>): seq<StatusObject> {
    if events == [] then objects
    else
      var n := |events| - 1;
      AfterEvent(ObjectsAfter(objects, events[..n]), events[n])
  }

  function AfterEvent(objects: seq<StatusObject>, event: Event): seq<StatusObject> {
    match event
    case StatusSignal(i, list) => if i < |objects| then objects[i := Updated(objects[i], list)] else objects
    case _ => objects
  }

  /** A query is refused exactly if a source in force for one of the sensors is unknown. */
  ghost predicate IsAnswer(order: seq<DBusInstance>, objects: seq<StatusObject>, answer: Answer) {
    if forall i | 0 <= i < |order| :: Known(objects, order[i].objectPath)
    then
      && answer.Statuses? && |answer.statuses| == |order|
      && forall i | 0 <= i < |order| :: IsStatus(objects, order[i].objectPath, answer.statuses[i])
    else answer.Refused?
  }

  ghost predicate Admissible(event: Event) {
    event.SensorSignal? ==> UsesScalars(SensorsQuery(), [Report(event.interface, event.properties)])
  }

  /** The status fields of the sensors. */
  function StatusFields(order: seq<DBusInstance>): (statuses: seq<FieldValue>)
    reads (set o | o in order)`memberInstances, FieldsIn(order), set o | o in order :: o.notAvailable
    ensures |statuses| == |order|
  {
    if order == [] then []
    else
      var n := |order| - 1;
      var o := order[n];
      assert o in order;
      assert forall f | f in o.Fields() :: f in FieldsIn(order);
      assert o.HasField(FIELD_STATUS) ==> o.GetField(FIELD_STATUS) in o.Fields();
      StatusFields(order[..n]) + [o.GetField(FIELD_STATUS).value]
  }

  lemma {:induction false} StatusFieldsShow(order: seq<DBusInstance>, values: seq<Instance>)
    requires AllValid(order) && Show(order, values)
    requires forall o | o in order :: o.notAvailable.value == NOT_AVAILABLE
    ensures forall i | 0 <= i < |order| :: StatusFields(order)[i] == Field(values[i].node.members, FIELD_STATUS)
  {
    if order != [] {
      var n := |order| - 1;
      assert forall i | 0 <= i < n :: order[..n][i] == order[i];
      StatusFieldsShow(order[..n], values[..n]);
      assert order[n] in order;
      FieldIsView(order[n], FIELD_STATUS);
    }
  }

  ghost function Tops(sensors: Entity): set<DBusInstance>
    reads sensors, sensors.provider
  {
    (set o | o in sensors.order) + sensors.ProviderNodes()
  }

  /** Sensors have no children: a read touches the instances alone. */
  lemma ReadsTops(sensors: Entity, values: seq<Instance>)
    requires Show(sensors.order, values) && AreSensors(sensors.order, values)
    ensures sensors.ReadNodes() == Tops(sensors)
  {
    forall i | 0 <= i < |sensors.order|
      ensures sensors.order[i].Kids() == {}
    {
      assert sensors.order[i].View() == values[i];
      assert sensors.order[i].ChildViews() == map[];
      assert sensors.order[i].complexInstances.Keys == sensors.order[i].ChildViews().Keys;
    }
  }

  method Answered(sensors: Entity, ghost objects: seq<StatusObject>, ghost values: seq<Instance>,
                  ghost views: seq<Instance>)
    returns (answer: Answer, ghost after: seq<Instance>, ghost served: seq<Instance>)
    requires sensors.Valid() && Show(sensors.order, values) && sensors.Ready(views)
    requires Tracks(sensors, objects, values, views) && Distinct(sensors.hash, objects)
    modifies sensors.ReadNodes()`memberInstances, (set f: FieldInstance | f.owner in sensors.ReadNodes())`value
    modifies sensors.notAvailable`value
    ensures sensors.Valid() && Show(sensors.order, after) && sensors.Ready(served)
    ensures Tracks(sensors, objects, after, served) && IsAnswer(sensors.order, objects, answer)
  {
    var ok, result;
    ok, result, after, served := GetSensors(sensors, objects, values, views);
    if ok {
      StatusFieldsShow(sensors.order, after);
      answer := Statuses(StatusFields(sensors.order));
    } else {
      answer := Refused;
    }
  }

  method Perform(sensors: Entity, event: Event, ghost objects: seq<StatusObject>, ghost values: seq<Instance>,
                 ghost views: seq<Instance>)
    returns (answer: Answer, ghost after: seq<Instance>, ghost served: seq<Instance>)
    requires sensors.Valid() && Show(sensors.order, values) && sensors.Ready(views)
    requires Tracks(sensors, objects, values, views) && Distinct(sensors.hash, objects) && Admissible(event)
    modifies Tops(sensors)`memberInstances, Tops(sensors)`complexInstances
    modifies (set f: FieldInstance | f.owner in Tops(sensors))`value, sensors.notAvailable`value
    ensures sensors.Valid() && Show(sensors.order, after) && sensors.Ready(served)
    ensures Tracks(sensors, AfterEvent(objects, event), after, served)
    ensures event.Query? ==> IsAnswer(sensors.order, objects, answer)
  {
    answer, after, served := Nothing, values, views;
    match event {
      case StatusSignal(i, list) =>
        if i < |sensors.provider.order| {
          served := SignalStatus(sensors, sensors.provider.order[i], i, list, objects, values, views);
        }
      case SensorSignal(i, interface, properties) =>
        if i < |sensors.order| {
          after := SignalSensor(sensors, sensors.order[i], i, interface, properties, objects, values, views);
        }
      case Query =>
        ReadsTops(sensors, values);
        answer, after, served := Answered(sensors, objects, values, views);
    }
  }

  /**
   In every run of signals and queries, in any order, every query is answered as the histories up to it say: the status
   of a sensor is the maximum of `OK` and the sources in force for its path, or some source in force is unknown and the
   query is refused. Earlier queries, refused ones included, and signals that a formatter refuses leave no trace.
   */
  method Serve(sensors: Entity, events: seq<Event>, ghost objects: seq<StatusObject>, ghost values: seq<Instance>,
               ghost views: seq<Instance>) returns (answers: seq<Answer>)
    requires sensors.Valid() && Show(sensors.order, values) && sensors.Ready(views)
    requires Tracks(sensors, objects, values, views)
    requires forall k | 0 <= k <= |events| :: Distinct(sensors.hash, ObjectsAfter(objects, events[..k]))
    requires forall event | event in events :: Admissible(event)
    modifies Tops(sensors)`memberInstances, Tops(sensors)`complexInstances
    modifies (set f: FieldInstance | f.owner in Tops(sensors))`value, sensors.notAvailable`value
    ensures |answers| == |events| && AllAnswered(sensors.order, objects, events, answers)
  {
    answers := [];
    ghost var after, served, order := values, views, sensors.order;
    for k := 0 to |events|
      invariant sensors.Valid() && Show(sensors.order, after) && sensors.Ready(served) && sensors.order == order
      invariant Tracks(sensors, ObjectsAfter(objects, events[..k]), after, served)
      invariant |answers| == k && AllAnswered(order, objects, events, answers)
    {
      var answer;
      OneMoreEvent(objects, events, k);
      assert events[k] in events;
      answer, after, served := Perform(sensors, events[k], ObjectsAfter(objects, events[..k]), after, served);
      OneMoreAnswer(order, Befores(objects, events), events, answers, answer);
      answers := answers + [answer];
    }
  }

  /** The histories before each event. */
  ghost function Befores(objects: seq<StatusObject>, events: seq<Event>): seq<seq<StatusObject>> {
    seq(|events|, k requires 0 <= k < |events| => ObjectsAfter(objects, events[..k]))
  }

  ghost predicate AnsweredAs(order: seq<DBusInstance>, befores: seq<seq<StatusObject>>, events: seq<Event>,
                             answers: seq<Answer>)
    requires |befores| == |events|
  {
    |answers| <= |events| && forall k | 0 <= k < |answers| && events[k].Query? ::
      IsAnswer(order, befores[k], answers[k])
  }

  /** Every query so far is answered as the histories up to it say. */
  ghost predicate AllAnswered(order: seq<DBusInstance>, objects: seq<StatusObject>, events: seq<Event>,
                              answers: seq<Answer>)
  {
    AnsweredAs(order, Befores(objects, events), events, answers)
  }

  lemma OneMoreAnswer(order: seq<DBusInstance>, befores: seq<seq<StatusObject>>, events: seq<Event>,
                      answers: seq<Answer>, answer: Answer)
    requires |befores| == |events| && |answers| < |events| && AnsweredAs(order, befores, events, answers)
    requires events[|answers|].Query? ==> IsAnswer(order, befores[|answers|], answer)
    ensures AnsweredAs(order, befores, events, answers + [answer])
  {
  }

  lemma OneMoreEvent(objects: seq<StatusObject>, events: seq<Event>, k: nat)
    requires k < |events|
    ensures ObjectsAfter(objects, events[..k + 1]) == AfterEvent(ObjectsAfter(objects, events[..k]), events[k])
  {
    assert events[..k + 1][..k] == events[..k];
  }
}
