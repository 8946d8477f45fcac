/** Entities and supplement providers: the stores of shared instances and how `getInstances` joins them. */
module EntityStores {
  import opened EntityCache
  import opened EntitySpec
  import opened FieldValues
  import opened LinkRules
  import opened Options
  import opened Orders

  // Separation

  /** Nothing an instance shows belongs to another node, unless that node is one of its children. */
  lemma ViewApart(a: DBusInstance, node: DBusInstance)
    requires a.Valid() && node != a && node.parent != a
    ensures node !in a.Kids()
    ensures forall f | f in a.Fields() || f in a.ChildFields() :: f.owner != node && f.owner != null
  {
    forall c | c in a.Kids()
      ensures c != node && c.ValidNode()
    {
      var k :| k in a.complexInstances && a.complexInstances[k] == c;
      assert a.IsChild(c, k);
    }
  }

  // A list of instances

  ghost function FieldsIn(nodes: seq<DBusInstance>): set<FieldInstance>
    reads (set n | n in nodes)`memberInstances
  {
    set n, f | n in nodes && f in n.Fields() :: f
  }

  ghost function KidsIn(tops: seq<DBusInstance>): set<DBusInstance>
    reads (set o | o in tops)`complexInstances
  {
    set o, c | o in tops && c in o.Kids() :: c
  }

  ghost predicate Separate(tops: seq<DBusInstance>) {
    && (forall i | 0 <= i < |tops| :: tops[i].parent == null)
    && (forall i, j | 0 <= i < j < |tops| :: tops[i] != tops[j])
  }

  ghost predicate AllValid(tops: seq<DBusInstance>)
    reads (set o | o in tops)`memberInstances, (set o | o in tops)`complexInstances
    reads (set o, c | o in tops && c in o.Kids() :: c)`memberInstances
    reads (set o, c | o in tops && c in o.Kids() :: c)`complexInstances
  {
    forall i | 0 <= i < |tops| :: tops[i].Valid()
  }

  method ResetOne(ghost tops: seq<DBusInstance>, o: DBusInstance)
    requires o in tops && Separate(tops) && AllValid(tops)
    modifies o`memberInstances, (set f: FieldInstance | f.owner == o)`value
    ensures AllValid(tops) && o.View() == WithDefaults(old(o.View()))
    ensures forall j | 0 <= j < |tops| && tops[j] != o :: tops[j].View() == old(tops[j].View())
  {
    forall j | 0 <= j < |tops| && tops[j] != o
      ensures o !in tops[j].Kids()
      ensures forall f | f in tops[j].Fields() || f in tops[j].ChildFields() :: f.owner != o
    {
      ViewApart(tops[j], o);
    }
    o.InitDefaultFieldsValue();
  }

  method FillOneOf(ghost tops: seq<DBusInstance>, o: DBusInstance, interface: string, properties: Properties)
    returns (ok: bool)
    requires o in tops && Separate(tops) && AllValid(tops)
    modifies o`memberInstances, o`complexInstances, (set f: FieldInstance | f.owner == o)`value
    ensures AllValid(tops) && o.View() == FillUntil(o.hash, old(o.View()), interface, properties)
    ensures ok == Fill(o.hash, old(o.View()), interface, properties).Some?
    ensures forall j | 0 <= j < |tops| && tops[j] != o :: tops[j].View() == old(tops[j].View())
    ensures forall c | c in o.Kids() :: c in old(o.Kids()) || fresh(c)
  {
    forall j | 0 <= j < |tops| && tops[j] != o
      ensures o !in tops[j].Kids()
      ensures forall f | f in tops[j].Fields() || f in tops[j].ChildFields() :: f.owner != o
    {
      ViewApart(tops[j], o);
    }
    ok := o.FillMembers(interface, properties);
    forall j | 0 <= j < |tops| && tops[j] != o
      ensures tops[j].Valid() && tops[j].View() == old(tops[j].View())
    {
    }
  }

  ghost function FieldsBeneath(tops: seq<DBusInstance>): set<FieldInstance>
    reads (set o | o in tops)`complexInstances
    reads (set o, c | o in tops && c in o.Kids() :: c)`memberInstances
  {
    set o, f | o in tops && f in o.ChildFields() :: f
  }

  /** The instances show these values, position by position. */
  ghost predicate Show(tops: seq<DBusInstance>, views: seq<Instance>)
    reads (set o | o in tops)`memberInstances, (set o | o in tops)`complexInstances
    reads (set o, c | o in tops && c in o.Kids() :: c)`memberInstances, FieldsIn(tops), FieldsBeneath(tops)
  {
    |tops| == |views| && forall i | 0 <= i < |tops| ::
      assert (forall f | f in tops[i].Fields() :: f in FieldsIn(tops))
        && (forall f | f in tops[i].ChildFields() :: f in FieldsBeneath(tops));
      tops[i].View() == views[i]
  }

  /** A signal: one instance of a list is filled, also if that throws. */
  method FillInstance(ghost tops: seq<DBusInstance>, o: DBusInstance, ghost i: nat, interface: string,
                      properties: Properties, ghost views: seq<Instance>) returns (ok: bool)
    requires i < |tops| && tops[i] == o && Separate(tops) && AllValid(tops) && Show(tops, views)
    modifies o`memberInstances, o`complexInstances, (set f: FieldInstance | f.owner == o)`value
    ensures AllValid(tops) && Show(tops, views[i := FillUntil(o.hash, views[i], interface, properties)])
    ensures ok == Fill(o.hash, views[i], interface, properties).Some?
  {
    ok := FillOneOf(tops, o, interface, properties);
  }

  /** The same with other instances beside them, which keep showing what they show. */
  method FillBeside(ghost tops: seq<DBusInstance>, o: DBusInstance, ghost i: nat, interface: string,
                    properties: Properties, ghost views: seq<Instance>, ghost others: seq<DBusInstance>,
                    ghost shown: seq<Instance>) returns (ok: bool)
    requires i < |tops| && tops[i] == o && Separate(tops) && AllValid(tops) && Show(tops, views)
    requires AllValid(others) && Show(others, shown) && forall x | x in others :: x != o
    modifies o`memberInstances, o`complexInstances, (set f: FieldInstance | f.owner == o)`value
    ensures AllValid(tops) && Show(tops, views[i := FillUntil(o.hash, views[i], interface, properties)])
    ensures AllValid(others) && Show(others, shown)
    ensures ok == Fill(o.hash, views[i], interface, properties).Some?
  {
    forall j | 0 <= j < |others|
      ensures others[j] != o && o !in others[j].Kids()
      ensures forall f | f in others[j].Fields() || f in others[j].ChildFields() :: f.owner != o
    {
      assert others[j] in others;
      ViewApart(others[j], o);
    }
    ok := FillInstance(tops, o, i, interface, properties, views);
    forall j | 0 <= j < |others|
      ensures others[j].Valid() && others[j].View() == old(others[j].View())
    {
    }
  }

  function ResetBefore(views: seq<Instance>, i: nat): seq<Instance> {
    seq(|views|, j requires 0 <= j < |views| => if j < i then WithDefaults(views[j]) else views[j])
  }

  // The nodes of a list of instances

  /** What `getInstances` walks through for one instance: its children and, under its own hash, itself. */
  function NodeMap(o: DBusInstance): map<int, DBusInstance>
    reads o`complexInstances
  {
    o.complexInstances[o.GetHash() := o]
  }

  ghost predicate AreNodeMaps(tops: seq<DBusInstance>, maps: seq<map<int, DBusInstance>>)
    reads (set o | o in tops)`complexInstances
  {
    |maps| == |tops| && forall i | 0 <= i < |tops| :: maps[i] == NodeMap(tops[i])
  }

  ghost function NodeMaps(tops: seq<DBusInstance>): (maps: seq<map<int, DBusInstance>>)
    reads (set o | o in tops)`complexInstances
    ensures AreNodeMaps(tops, maps)
  {
    if tops == [] then []
    else
      assert tops[|tops| - 1] in tops;
      NodeMaps(tops[..|tops| - 1]) + [NodeMap(tops[|tops| - 1])]
  }

  /** The first `n` lists, one after the other. */
  function Chained(lists: seq<seq<DBusInstance>>, n: nat): seq<DBusInstance>
    requires n <= |lists|
  {
    if n == 0 then [] else Chained(lists, n - 1) + lists[n - 1]
  }

  lemma {:induction false} InChained(lists: seq<seq<DBusInstance>>, n: nat, x: DBusInstance)
    requires n <= |lists|
    ensures x in Chained(lists, n) <==> exists i :: 0 <= i < n && x in lists[i]
  {
    if n > 0 {
      InChained(lists, n - 1, x);
    }
  }

  function NodeLists(maps: seq<map<int, DBusInstance>>): seq<seq<DBusInstance>> {
    seq(|maps|, i requires 0 <= i < |maps| => InKeyOrder(maps[i]))
  }

  /** The nodes instance by instance, each time in the order of hashes. */
  function InOrder(maps: seq<map<int, DBusInstance>>): seq<DBusInstance> {
    Chained(NodeLists(maps), |maps|)
  }

  /** What the loop collects at instance `i`: `parts` is the result before and after, `list` what is appended. */
  ghost predicate IsPart(parts: seq<seq<DBusInstance>>, maps: seq<map<int, DBusInstance>>, i: nat)
    requires i < |maps| && i + 1 < |parts|
  {
    parts[i + 1] == parts[i] + InKeyOrder(maps[i])
  }

  function Parts(lists: seq<seq<DBusInstance>>): (parts: seq<seq<DBusInstance>>)
    ensures |parts| == |lists| + 1
  {
    seq(|lists| + 1, i requires 0 <= i <= |lists| => Chained(lists, i))
  }

  lemma PartAt(lists: seq<seq<DBusInstance>>, i: nat)
    requires i <= |lists|
    ensures Parts(lists)[i] == Chained(lists, i)
  {
  }

  lemma ChainedStep(lists: seq<seq<DBusInstance>>, i: nat)
    requires i < |lists|
    ensures Chained(lists, i + 1) == Chained(lists, i) + lists[i]
  {
  }

  lemma ListAt(maps: seq<map<int, DBusInstance>>, i: nat)
    requires i < |maps|
    ensures NodeLists(maps)[i] == InKeyOrder(maps[i])
  {
  }

  lemma PartIs(maps: seq<map<int, DBusInstance>>, i: nat)
    requires i < |maps|
    ensures IsPart(Parts(NodeLists(maps)), maps, i)
  {
    var lists := NodeLists(maps);
    PartAt(lists, i);
    PartAt(lists, i + 1);
    ChainedStep(lists, i);
    ListAt(maps, i);
  }

  lemma PartsAre(maps: seq<map<int, DBusInstance>>)
    ensures Parts(NodeLists(maps))[0] == [] && Parts(NodeLists(maps))[|maps|] == InOrder(maps)
    ensures forall i | 0 <= i < |maps| :: IsPart(Parts(NodeLists(maps)), maps, i)
  {
    PartAt(NodeLists(maps), 0);
    PartAt(NodeLists(maps), |maps|);
    forall i | 0 <= i < |maps|
      ensures IsPart(Parts(NodeLists(maps)), maps, i)
    {
      PartIs(maps, i);
    }
  }

  /** The nodes hold these members, position by position. */
  ghost predicate Hold(nodes: seq<DBusInstance>, members: seq<Members>)
    reads (set n | n in nodes)`memberInstances, FieldsIn(nodes)
  {
    |nodes| == |members| && forall i | 0 <= i < |nodes| ::
      assert forall f | f in nodes[i].Fields() :: f in FieldsIn(nodes);
      nodes[i].NodeView().members == members[i]
  }

  lemma HoldBoth(a: seq<DBusInstance>, b: seq<DBusInstance>, x: seq<Members>, y: seq<Members>)
    requires Hold(a, x) && Hold(b, y)
    ensures Hold(a + b, x + y)
  {
  }

  lemma NodesHold(o: DBusInstance)
    ensures Hold(InKeyOrder(NodeMap(o)), MembersInOrder(NodesOf(o.hash, o.View())))
  {
    var nodes, shown := NodeMap(o), NodesOf(o.hash, o.View());
    assert nodes.Keys == shown.Keys;
    forall i | 0 <= i < |SortedInts(nodes.Keys)|
      ensures InKeyOrder(nodes)[i].NodeView() == InKeyOrder(shown)[i]
    {
      InKeyOrderAt(nodes, i);
      InKeyOrderAt(shown, i);
    }
  }

  lemma EmittedStep(hash: Hasher, views: seq<Instance>, n: nat)
    requires n < |views|
    ensures EmittedFrom(hash, views[..n + 1])
         == EmittedFrom(hash, views[..n]) + MembersInOrder(NodesOf(hash, views[n]))
  {
    assert views[..n + 1][..n] == views[..n];
  }

  lemma HoldOneMore(lists: seq<seq<DBusInstance>>, views: seq<Instance>, hash: Hasher, n: nat)
    requires |views| == |lists| && n < |lists|
    requires Hold(Chained(lists, n), EmittedFrom(hash, views[..n]))
    requires Hold(lists[n], MembersInOrder(NodesOf(hash, views[n])))
    ensures Hold(Chained(lists, n + 1), EmittedFrom(hash, views[..n + 1]))
  {
    EmittedStep(hash, views, n);
    ChainedStep(lists, n);
    HoldBoth(Chained(lists, n), lists[n], EmittedFrom(hash, views[..n]), MembersInOrder(NodesOf(hash, views[n])));
  }

  ghost predicate AllHold(lists: seq<seq<DBusInstance>>, views: seq<Instance>, hash: Hasher)
    requires |views| == |lists|
    reads set l, n | l in lists && n in l :: n
    reads set l, n, f | l in lists && n in l && f in n.Fields() :: f
  {
    forall i | 0 <= i < |lists| :: Hold(lists[i], MembersInOrder(NodesOf(hash, views[i])))
  }

  lemma {:induction false} EmittedUpTo(lists: seq<seq<DBusInstance>>, views: seq<Instance>, hash: Hasher, n: nat)
    requires |views| == |lists| && n <= |lists| && AllHold(lists, views, hash)
    ensures Hold(Chained(lists, n), EmittedFrom(hash, views[..n]))
  {
    if n > 0 {
      EmittedUpTo(lists, views, hash, n - 1);
      HoldOneMore(lists, views, hash, n - 1);
    }
  }

  lemma EmittedHeld(tops: seq<DBusInstance>, maps: seq<map<int, DBusInstance>>, views: seq<Instance>, hash: Hasher)
    requires AreNodeMaps(tops, maps) && |views| == |tops|
    requires forall i | 0 <= i < |tops| :: tops[i].hash == hash && tops[i].View() == views[i]
    ensures Hold(InOrder(maps), EmittedFrom(hash, views))
  {
    forall i | 0 <= i < |tops|
      ensures Hold(NodeLists(maps)[i], MembersInOrder(NodesOf(hash, views[i])))
    {
      ListAt(maps, i);
      NodesHold(tops[i]);
    }
    EmittedUpTo(NodeLists(maps), views, hash, |tops|);
    assert views[..|tops|] == views;
  }

  lemma MapsAreEqual(tops: seq<DBusInstance>, maps: seq<map<int, DBusInstance>>)
    requires AreNodeMaps(tops, maps)
    ensures maps == NodeMaps(tops)
  {
  }

  method ResetNext(ghost tops: seq<DBusInstance>, o: DBusInstance, ghost before: seq<Instance>, ghost i: nat,
                   ghost maps: seq<map<int, DBusInstance>>)
    requires i < |tops| && tops[i] == o && Separate(tops) && AllValid(tops) && Show(tops, ResetBefore(before, i))
    requires AreNodeMaps(tops, maps)
    modifies o`memberInstances, (set f: FieldInstance | f.owner == o)`value
    ensures AllValid(tops) && Show(tops, ResetBefore(before, i + 1)) && AreNodeMaps(tops, maps)
  {
    ResetOne(tops, o);
  }

  lemma PartIsAppended(tops: seq<DBusInstance>, o: DBusInstance, maps: seq<map<int, DBusInstance>>,
                       parts: seq<seq<DBusInstance>>, i: nat)
    requires AreNodeMaps(tops, maps) && i < |tops| && tops[i] == o
    requires |parts| == |tops| + 1 && IsPart(parts, maps, i)
    ensures parts[i] + InKeyOrder(NodeMap(o)) == parts[i + 1]
  {
  }

  method ResetAndAppend(ghost tops: seq<DBusInstance>, o: DBusInstance, ghost before: seq<Instance>, ghost i: nat,
                        ghost maps: seq<map<int, DBusInstance>>, ghost parts: seq<seq<DBusInstance>>,
                        result: seq<DBusInstance>) returns (more: seq<DBusInstance>)
    requires i < |tops| && tops[i] == o && Separate(tops) && AllValid(tops) && Show(tops, ResetBefore(before, i))
    requires AreNodeMaps(tops, maps) && |parts| == |tops| + 1 && IsPart(parts, maps, i) && result == parts[i]
    modifies o`memberInstances, (set f: FieldInstance | f.owner == o)`value
    ensures AllValid(tops) && Show(tops, ResetBefore(before, i + 1)) && AreNodeMaps(tops, maps)
    ensures more == parts[i + 1]
  {
    PartIsAppended(tops, o, maps, parts, i);
    more := result + InKeyOrder(NodeMap(o));
    ResetNext(tops, o, before, i, maps);
  }

  /** The loop of `getInstances` without providers: every instance is reset, and all nodes are returned. */
  method ResetAll(tops: seq<DBusInstance>, ghost before: seq<Instance>, ghost maps: seq<map<int, DBusInstance>>,
                  ghost parts: seq<seq<DBusInstance>>) returns (result: seq<DBusInstance>)
    requires |tops| == |before| && Separate(tops) && AllValid(tops) && Show(tops, ResetBefore(before, 0))
    requires AreNodeMaps(tops, maps) && |parts| == |tops| + 1 && parts[0] == []
    requires forall i | 0 <= i < |tops| :: IsPart(parts, maps, i)
    modifies (set o | o in tops)`memberInstances, (set f: FieldInstance | f.owner in tops)`value
    ensures AllValid(tops) && Show(tops, ResetBefore(before, |tops|)) && AreNodeMaps(tops, maps)
    ensures result == parts[|tops|]
  {
    result := [];
    for i := 0 to |tops|
      invariant AllValid(tops) && Show(tops, ResetBefore(before, i)) && AreNodeMaps(tops, maps)
      invariant result == parts[i]
    {
      result := ResetAndAppend(tops, tops[i], before, i, maps, parts, result);
    }
  }

  ghost predicate Beside(tops: seq<DBusInstance>, outside: set<DBusInstance>)
    reads outside`memberInstances
  {
    forall n | n in outside :: n.ValidNode() && n !in tops
  }

  method ResetInOrder(tops: seq<DBusInstance>, ghost before: seq<Instance>) returns (result: seq<DBusInstance>)
    requires |tops| == |before| && Separate(tops) && AllValid(tops) && Show(tops, ResetBefore(before, 0))
    modifies (set o | o in tops)`memberInstances, (set f: FieldInstance | f.owner in tops)`value
    ensures AllValid(tops) && Show(tops, ResetBefore(before, |tops|)) && result == InOrder(NodeMaps(tops))
  {
    ghost var maps := NodeMaps(tops);
    PartsAre(maps);
    result := ResetAll(tops, before, maps, Parts(NodeLists(maps)));
    MapsAreEqual(tops, maps);
  }

  /** Nodes outside the list are not touched. */
  method ResetAndReturn(tops: seq<DBusInstance>, ghost before: seq<Instance>, ghost after: seq<Instance>,
                        ghost hash: Hasher, ghost outside: set<DBusInstance>) returns (result: seq<DBusInstance>)
    requires Beside(tops, outside)
    requires Separate(tops) && AllValid(tops) && Show(tops, before)
    requires ResetBefore(before, 0) == before && ResetBefore(before, |before|) == after
    requires forall i | 0 <= i < |tops| :: tops[i].hash == hash
    modifies (set o | o in tops)`memberInstances, (set f: FieldInstance | f.owner in tops)`value
    ensures AllValid(tops) && Show(tops, after)
    ensures Hold(result, EmittedFrom(hash, after)) && result == InOrder(NodeMaps(tops))
    ensures forall n | n in outside ::
      n.ValidNode() && n.NodeView() == old(n.NodeView()) && n.Fields() == old(n.Fields())
  {
    result := ResetInOrder(tops, before);
    EmittedHeld(tops, NodeMaps(tops), after, hash);
  }

  // Linking

  /** Linking stops before the first supplement that is refused. */
  lemma {:induction false} LinkedStops(rule: LinkRule, supplements: seq<Members>, target: Members, i: nat)
    requires i < |supplements| && Linked(rule, supplements[..i], target).Some?
    requires rule.Apply(supplements[i], Linked(rule, supplements[..i], target).value).None?
    ensures Linked(rule, supplements, target).None?
    ensures LinkedUntil(rule, supplements, target) == Linked(rule, supplements[..i], target).value
  {
    var n := |supplements| - 1;
    if i < n {
      assert supplements[..n][..i] == supplements[..i];
      LinkedStops(rule, supplements[..n], target, i);
    }
  }

  lemma LinkedStep(rule: LinkRule, supplements: seq<Members>, target: Members, i: nat)
    requires i < |supplements|
    ensures Linked(rule, supplements[..i + 1], target)
         == match Linked(rule, supplements[..i], target) {
              case None => None
              case Some(m) => rule.Apply(supplements[i], m) }
  {
    assert supplements[..i + 1][..i] == supplements[..i];
  }

  ghost predicate Linkable(list: seq<DBusInstance>, target: DBusInstance)
    reads target`memberInstances, (set n | n in list)`memberInstances
  {
    target.ValidNode() && forall i | 0 <= i < |list| ::
      list[i].ValidNode() && list[i] != target && list[i].notAvailable == target.notAvailable
  }

  method LinkOne(rule: LinkRule, ghost list: seq<DBusInstance>, supplement: DBusInstance, target: DBusInstance,
                 ghost members: seq<Members>) returns (ok: bool)
    requires supplement in list && Linkable(list, target) && Hold(list, members)
    requires target.notAvailable.value == NOT_AVAILABLE
    modifies target`memberInstances, (set f: FieldInstance | f.owner == target)`value, target.notAvailable`value
    ensures Linkable(list, target) && Hold(list, members) && target.notAvailable.value == NOT_AVAILABLE
    ensures ok == rule.Apply(old(supplement.NodeView()).members, old(target.NodeView()).members).Some?
    ensures ok ==>
      target.NodeView().members == rule.Apply(old(supplement.NodeView()).members, old(target.NodeView()).members).value
    ensures !ok ==> target.NodeView() == old(target.NodeView())
  {
    ok := ApplyRule(rule, supplement, target);
    forall n | n in list
      ensures n.ValidNode() && n.NodeView() == old(n.NodeView())
    {
    }
  }

  /** The loop of `supplementInstance`: every supplement is linked to the target; `false` stands for an exception. */
  method LinkAll(rule: LinkRule, list: seq<DBusInstance>, target: DBusInstance, ghost members: seq<Members>)
    returns (ok: bool)
    requires Linkable(list, target) && Hold(list, members) && target.notAvailable.value == NOT_AVAILABLE
    modifies target`memberInstances, (set f: FieldInstance | f.owner == target)`value, target.notAvailable`value
    ensures Linkable(list, target) && target.notAvailable.value == NOT_AVAILABLE
    ensures ok == Linked(rule, members, old(target.NodeView()).members).Some?
    ensures target.NodeView().members == LinkedUntil(rule, members, old(target.NodeView()).members)
  {
    ghost var start := target.NodeView().members;
    for i := 0 to |list|
      invariant Linkable(list, target) && Hold(list, members) && target.notAvailable.value == NOT_AVAILABLE
      invariant Linked(rule, members[..i], start) == Some(target.NodeView().members)
    {
      LinkedStep(rule, members, start, i);
      ok := LinkOne(rule, list, list[i], target, members);
      if !ok {
        LinkedStops(rule, members, start, i);
        return;
      }
    }
    assert members[..|members|] == members;
    LinkedThrough(rule, members, start);
    return true;
  }

  /** The target is no node of the instances. */
  ghost predicate Outside(tops: seq<DBusInstance>, target: DBusInstance) {
    forall o | o in tops :: o != target && o != target.parent
  }

  ghost predicate IsNodeOf(maps: seq<map<int, DBusInstance>>, n: DBusInstance) {
    exists i, k :: 0 <= i < |maps| && k in maps[i] && maps[i][k] == n
  }

  lemma InOrderMeaning(maps: seq<map<int, DBusInstance>>, n: DBusInstance)
    ensures n in InOrder(maps) <==> IsNodeOf(maps, n)
  {
    InChained(NodeLists(maps), |maps|, n);
    forall i | 0 <= i < |maps|
      ensures n in NodeLists(maps)[i] <==> exists k :: k in maps[i] && maps[i][k] == n
    {
      InKeyOrderMeaning(maps[i], n);
    }
  }

  lemma NodeIsLinkable(o: DBusInstance, n: DBusInstance, k: int, target: DBusInstance)
    requires o.Valid() && k in NodeMap(o) && NodeMap(o)[k] == n
    requires o != target && o != target.parent && o.notAvailable == target.notAvailable
    ensures n.ValidNode() && n != target && n.notAvailable == target.notAvailable
  {
    if n != o {
      assert o.IsChild(n, k);
    }
  }

  lemma ListedIsLinkable(tops: seq<DBusInstance>, n: DBusInstance, target: DBusInstance)
    requires AllValid(tops) && Outside(tops, target) && n in InOrder(NodeMaps(tops))
    requires forall o | o in tops :: o.notAvailable == target.notAvailable
    ensures n.ValidNode() && n != target && n.notAvailable == target.notAvailable
  {
    var maps := NodeMaps(tops);
    InOrderMeaning(maps, n);
    var i, k :| 0 <= i < |tops| && k in maps[i] && maps[i][k] == n;
    assert tops[i] in tops;
    NodeIsLinkable(tops[i], n, k, target);
  }

  lemma NodesAreLinkable(tops: seq<DBusInstance>, target: DBusInstance)
    requires AllValid(tops) && Outside(tops, target) && target.ValidNode()
    requires forall o | o in tops :: o.notAvailable == target.notAvailable
    ensures Linkable(InOrder(NodeMaps(tops)), target)
  {
    forall n | n in InOrder(NodeMaps(tops))
      ensures n.ValidNode() && n != target && n.notAvailable == target.notAvailable
    {
      ListedIsLinkable(tops, n, target);
    }
  }

  /** Linking a target leaves what the instances of a store show. */
  method LinkFrom(rule: LinkRule, ghost tops: seq<DBusInstance>, ghost views: seq<Instance>, list: seq<DBusInstance>,
                  target: DBusInstance, ghost members: seq<Members>) returns (ok: bool)
    requires AllValid(tops) && Show(tops, views) && Outside(tops, target)
    requires forall o | o in tops :: o.notAvailable == target.notAvailable
    requires Linkable(list, target) && Hold(list, members) && target.notAvailable.value == NOT_AVAILABLE
    modifies target`memberInstances, (set f: FieldInstance | f.owner == target)`value, target.notAvailable`value
    ensures AllValid(tops) && Show(tops, views) && FieldsIn(tops) == old(FieldsIn(tops))
    ensures target.ValidNode() && target.notAvailable.value == NOT_AVAILABLE
    ensures ok == Linked(rule, members, old(target.NodeView()).members).Some?
    ensures target.NodeView().members == LinkedUntil(rule, members, old(target.NodeView()).members)
  {
    forall o | o in tops
      ensures target !in o.Kids()
      ensures forall f | f in o.Fields() || f in o.ChildFields() :: f.owner != target && f.owner != null
    {
      var i :| 0 <= i < |tops| && tops[i] == o;
      ViewApart(o, target);
    }
    ok := LinkAll(rule, list, target, members);
    forall i | 0 <= i < |tops|
      ensures tops[i].Valid() && tops[i].View() == old(tops[i].View()) && tops[i].Fields() == old(tops[i].Fields())
    {
      assert tops[i] in tops;
    }
  }

  // Stores

  /** `order` lists the instances of a store by ascending hash, as its `std::map` is iterated. */
  ghost predicate IsOrder(order: seq<DBusInstance>, instances: map<int, DBusInstance>) {
    && (forall i | 0 <= i < |order| :: order[i].GetHash() in instances && instances[order[i].GetHash()] == order[i])
    && (forall i, j | 0 <= i < j < |order| :: order[i].GetHash() < order[j].GetHash())
    && (forall h | h in instances :: instances[h] in order && instances[h].GetHash() == h)
  }

  /** The instances of one system: top-level, with the same hash function and the same shared field object. */
  ghost predicate OfSystem(order: seq<DBusInstance>, hash: Hasher, notAvailable: FieldInstance) {
    forall i | 0 <= i < |order| ::
      order[i].parent == null && order[i].hash == hash && order[i].notAvailable == notAvailable
  }

  lemma OrderIsSeparate(order: seq<DBusInstance>, instances: map<int, DBusInstance>, hash: Hasher,
                        notAvailable: FieldInstance)
    requires IsOrder(order, instances) && OfSystem(order, hash, notAvailable)
    ensures Separate(order)
  {
  }

  lemma InKeyOrderIsOrder(instances: map<int, DBusInstance>)
    requires forall h | h in instances :: instances[h].GetHash() == h
    ensures IsOrder(InKeyOrder(instances), instances)
  {
    forall i | 0 <= i < |SortedInts(instances.Keys)|
      ensures SortedInts(instances.Keys)[i] in instances
      ensures InKeyOrder(instances)[i].GetHash() == SortedInts(instances.Keys)[i]
      ensures InKeyOrder(instances)[i] == instances[SortedInts(instances.Keys)[i]]
    {
      InKeyOrderAt(instances, i);
    }
    forall h | h in instances
      ensures instances[h] in InKeyOrder(instances)
    {
      InKeyOrderMeaning(instances, instances[h]);
    }
  }

  lemma PartIsValid(order: seq<DBusInstance>, instances: map<int, DBusInstance>, list: seq<DBusInstance>, hash: Hasher,
                    notAvailable: FieldInstance)
    requires IsOrder(order, instances) && forall h | h in instances :: instances[h] in list
    requires AllValid(list) && OfSystem(list, hash, notAvailable)
    ensures AllValid(order) && OfSystem(order, hash, notAvailable)
  {
    forall i | 0 <= i < |order|
      ensures order[i].Valid()
      ensures order[i].parent == null && order[i].hash == hash && order[i].notAvailable == notAvailable
    {
      assert order[i] in list;
      var j :| 0 <= j < |list| && list[j] == order[i];
    }
  }

  /** No later instance of the list has the same hash. */
  ghost predicate IsLast(list: seq<DBusInstance>, i: nat) {
    i < |list| && forall k | i < k < |list| :: list[k].GetHash() != list[i].GetHash()
  }

  /** Every listed instance is found under its hash, the last one with that hash, and nothing else is. */
  ghost predicate HoldsLast(instances: map<int, DBusInstance>, list: seq<DBusInstance>) {
    && (forall h | h in instances :: instances[h] in list && instances[h].GetHash() == h)
    && (forall i | 0 <= i < |list| :: list[i].GetHash() in instances)
    && (forall i | 0 <= i < |list| && IsLast(list, i) :: instances[list[i].GetHash()] == list[i])
  }

  /** `insert_or_assign` of every instance under its hash. */
  method ByHash(list: seq<DBusInstance>) returns (instances: map<int, DBusInstance>)
    ensures HoldsLast(instances, list)
  {
    instances := map[];
    for i := 0 to |list|
      invariant forall h | h in instances :: instances[h] in list && instances[h].GetHash() == h
      invariant forall j | 0 <= j < i :: list[j].GetHash() in instances
      invariant forall j | 0 <= j < i && forall k | j < k < i :: list[k].GetHash() != list[j].GetHash() ::
        instances[list[j].GetHash()] == list[j]
    {
      instances := instances[list[i].GetHash() := list[i]];
    }
  }

  method Arranged(list: seq<DBusInstance>, ghost hash: Hasher, ghost notAvailable: FieldInstance)
    returns (instances: map<int, DBusInstance>, order: seq<DBusInstance>)
    requires AllValid(list) && OfSystem(list, hash, notAvailable)
    ensures IsOrder(order, instances) && OfSystem(order, hash, notAvailable) && AllValid(order)
    ensures HoldsLast(instances, list)
  {
    assert forall i | 0 <= i < |list| :: list[i].Valid();
    instances := ByHash(list);
    assert forall i | 0 <= i < |list| :: list[i].Valid();
    InKeyOrderIsOrder(instances);
    order := InKeyOrder(instances);
    PartIsValid(order, instances, list, hash, notAvailable);
  }

  function AllReset(views: seq<Instance>): seq<Instance> {
    ResetBefore(views, |views|)
  }

  lemma NoneReset(views: seq<Instance>)
    ensures ResetBefore(views, 0) == views
  {
  }

  /** A store without providers of its own: what an entity is joined with. Its map is `instances` for lookups and
   `order` for iteration. */
  class SupplementProvider {
    const hash: Hasher
    const notAvailable: FieldInstance
    var instances: map<int, DBusInstance>
    var order: seq<DBusInstance>

    ghost predicate Valid()
      reads this, (set o | o in order)`memberInstances, (set o | o in order)`complexInstances
      reads (set o, c | o in order && c in o.Kids() :: c)`memberInstances
      reads (set o, c | o in order && c in o.Kids() :: c)`complexInstances
    {
      IsOrder(order, instances) && OfSystem(order, hash, notAvailable) && AllValid(order)
    }

    constructor (inHash: Hasher, sentinel: FieldInstance)
      ensures hash == inHash && notAvailable == sentinel && Valid() && instances == map[] && order == []
    {
      hash, notAvailable, instances, order := inHash, sentinel, map[], [];
    }

    /** Of instances with the same hash the last one stays; what was stored before is dropped. */
    method SetInstances(list: seq<DBusInstance>)
      requires AllValid(list) && OfSystem(list, hash, notAvailable)
      modifies this`instances, this`order
      ensures Valid() && HoldsLast(instances, list)
    {
      instances, order := Arranged(list, hash, notAvailable);
    }

    /** `getInstances` of a provider: resets every instance and returns all nodes. */
    method GetInstances(ghost views: seq<Instance>, ghost outside: set<DBusInstance>)
      returns (result: seq<DBusInstance>)
      requires Valid() && Show(order, views) && Beside(order, outside)
      modifies (set o | o in order)`memberInstances, (set f: FieldInstance | f.owner in order)`value
      ensures Valid() && Show(order, AllReset(views))
      ensures Hold(result, EmittedFrom(hash, AllReset(views))) && result == InOrder(NodeMaps(order))
      ensures forall n | n in outside ::
        n.ValidNode() && n.NodeView() == old(n.NodeView()) && n.Fields() == old(n.Fields())
    {
      OrderIsSeparate(order, instances, hash, notAvailable);
      NoneReset(views);
      result := ResetAndReturn(order, views, AllReset(views), hash, outside);
    }

    /** Every node of the provider is linked to the target; `false` stands for an exception. */
    method SupplementInstance(target: DBusInstance, rule: LinkRule, ghost views: seq<Instance>) returns (ok: bool)
      requires Valid() && Show(order, views) && Outside(order, target)
      requires target.ValidNode() && target.notAvailable == notAvailable && notAvailable.value == NOT_AVAILABLE
      modifies (set o | o in order)`memberInstances, (set f: FieldInstance | f.owner in order)`value
      modifies target`memberInstances, (set f: FieldInstance | f.owner == target)`value, notAvailable`value
      ensures Valid() && Show(order, AllReset(views))
      ensures target.ValidNode() && notAvailable.value == NOT_AVAILABLE
      ensures ok == Linked(rule, EmittedFrom(hash, AllReset(views)), old(target.NodeView()).members).Some?
      ensures target.NodeView().members
           == LinkedUntil(rule, EmittedFrom(hash, AllReset(views)), old(target.NodeView()).members)
    {
      var list := GetInstances(views, {target});
      NodesAreLinkable(order, target);
      ok := LinkFrom(rule, order, AllReset(views), list, target, EmittedFrom(hash, AllReset(views)));
    }
  }
}
