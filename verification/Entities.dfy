/** Reading an entity: every instance is reset and every node of it joined with the provider. */
module Entities {
  import opened EntityCache
  import opened EntityLinks
  import opened EntityReads
  import opened EntitySpec
  import opened EntityStores
  import opened FieldValues
  import opened Options
  import opened Orders

  /** What a provider that shows `views` brings to a node. */
  ghost function Supplied(provider: SupplementProvider, rule: LinkRule, views: seq<Instance>): seq<Supply> {
    [Supply(rule, EmittedFrom(provider.hash, AllReset(views)))]
  }

  /** Joining with `supplies` is linking to the supplements of the one provider. */
  ghost predicate Brings(supplies: seq<Supply>, rule: LinkRule, supplements: seq<Members>) {
    && (forall m: Members :: Supplemented(supplies, m) == Linked(rule, supplements, m))
    && (forall m: Members :: SupplementedUntil(supplies, m) == LinkedUntil(rule, supplements, m))
  }

  lemma SuppliedBrings(provider: SupplementProvider, rule: LinkRule, views: seq<Instance>)
    ensures Brings(Supplied(provider, rule, views), rule, EmittedFrom(provider.hash, AllReset(views)))
  {
    forall m: Members
      ensures Supplemented(Supplied(provider, rule, views), m)
           == Linked(rule, EmittedFrom(provider.hash, AllReset(views)), m)
      ensures SupplementedUntil(Supplied(provider, rule, views), m)
           == LinkedUntil(rule, EmittedFrom(provider.hash, AllReset(views)), m)
    {
      OneSupply(Supplied(provider, rule, views)[0], m);
    }
  }

  ghost predicate Serves(provider: SupplementProvider, views: seq<Instance>)
    reads provider, (set o | o in provider.order)`memberInstances, (set o | o in provider.order)`complexInstances
    reads (set o, c | o in provider.order && c in o.Kids() :: c)`memberInstances
    reads (set o, c | o in provider.order && c in o.Kids() :: c)`complexInstances
    reads FieldsIn(provider.order), FieldsBeneath(provider.order), provider.notAvailable
  {
    provider.Valid() && Show(provider.order, views) && provider.notAvailable.value == NOT_AVAILABLE
  }

  /** The nodes of an entity have nothing in common with the provider but the shared field object. */
  ghost predicate Foreign(provider: SupplementProvider, nodes: set<DBusInstance>)
    reads provider, nodes`memberInstances
  {
    forall n | n in nodes ::
      n.ValidNode() && n.notAvailable == provider.notAvailable && Outside(provider.order, n)
  }

  ghost function FieldsOf(nodes: set<DBusInstance>): set<FieldInstance>
    reads nodes`memberInstances
  {
    set n, f | n in nodes && f in n.Fields() :: f
  }

  /** What the nodes show. */
  ghost predicate Views(nodes: set<DBusInstance>, now: map<DBusInstance, Node>)
    reads nodes`memberInstances, FieldsOf(nodes)
  {
    forall n | n in nodes ::
      assert forall f | f in n.Fields() :: f in FieldsOf(nodes);
      n in now && n.NodeView() == now[n]
  }

  /** Joining one node touches no other node beside the provider's. */
  method SupplementApart(provider: SupplementProvider, rule: LinkRule, target: DBusInstance,
                         ghost views: seq<Instance>, ghost others: set<DBusInstance>) returns (ok: bool)
    requires Serves(provider, views) && Outside(provider.order, target)
    requires target.ValidNode() && target.notAvailable == provider.notAvailable
    requires Beside(provider.order, others) && target !in others
    modifies (set o | o in provider.order)`memberInstances, (set f: FieldInstance | f.owner in provider.order)`value
    modifies target`memberInstances, (set f: FieldInstance | f.owner == target)`value, provider.notAvailable`value
    ensures Serves(provider, AllReset(views)) && target.ValidNode()
    ensures ok == Linked(rule, EmittedFrom(provider.hash, AllReset(views)), old(target.NodeView()).members).Some?
    ensures target.NodeView().members
         == LinkedUntil(rule, EmittedFrom(provider.hash, AllReset(views)), old(target.NodeView()).members)
    ensures forall n | n in others ::
      n.ValidNode() && n.NodeView() == old(n.NodeView()) && n.Fields() == old(n.Fields())
  {
    ok := provider.SupplementInstance(target, rule, views);
    forall n | n in others
      ensures n.ValidNode() && n.NodeView() == old(n.NodeView()) && n.Fields() == old(n.Fields())
    {
    }
  }

  /** One node is joined with the provider; the others are left alone. */
  method SupplementNode(provider: SupplementProvider, rule: LinkRule, target: DBusInstance,
                        ghost views: seq<Instance>, ghost nodes: set<DBusInstance>, ghost now: map<DBusInstance, Node>,
                        ghost supplies: seq<Supply>)
    returns (ok: bool)
    requires Serves(provider, views) && Foreign(provider, nodes) && Views(nodes, now) && target in nodes
    requires Brings(supplies, rule, EmittedFrom(provider.hash, AllReset(views)))
    modifies (set o | o in provider.order)`memberInstances, (set f: FieldInstance | f.owner in provider.order)`value
    modifies target`memberInstances, (set f: FieldInstance | f.owner == target)`value, provider.notAvailable`value
    ensures Serves(provider, AllReset(views)) && Foreign(provider, nodes)
    ensures ok == Supplemented(supplies, now[target].members).Some?
    ensures Views(nodes, now[target := SupplementedNode(supplies, now[target])])
  {
    ok := SupplementApart(provider, rule, target, views, nodes - {target});
    StillForeign(provider, nodes, target);
    OneViewChanged(nodes, target, now, SupplementedNode(supplies, now[target]));
  }

  lemma StillForeign(provider: SupplementProvider, nodes: set<DBusInstance>, target: DBusInstance)
    requires target.ValidNode() && forall n | n in nodes - {target} :: n.ValidNode()
    requires forall n | n in nodes :: n.notAvailable == provider.notAvailable && Outside(provider.order, n)
    ensures Foreign(provider, nodes)
  {
  }

  lemma OneViewChanged(nodes: set<DBusInstance>, target: DBusInstance, now: map<DBusInstance, Node>, node: Node)
    requires forall n | n in nodes - {target} :: n in now && n.NodeView() == now[n]
    requires target.NodeView() == node
    ensures Views(nodes, now[target := node])
  {
  }

  lemma AllResetTwice(views: seq<Instance>)
    ensures AllReset(AllReset(views)) == AllReset(views)
  {
    forall i | 0 <= i < |views|
      ensures WithDefaults(WithDefaults(views[i])) == WithDefaults(views[i])
    {
      WithDefaultsTwice(views[i]);
    }
  }

  /** The views when some nodes have been joined. */
  ghost function JoinedViews(now: map<DBusInstance, Node>, joined: set<DBusInstance>, supplies: seq<Supply>)
    : map<DBusInstance, Node>
  {
    map n | n in now :: if n in joined then SupplementedNode(supplies, now[n]) else now[n]
  }

  ghost function Elements(list: seq<DBusInstance>): set<DBusInstance> {
    set n | n in list
  }

  ghost predicate AllJoin(now: map<DBusInstance, Node>, list: seq<DBusInstance>, supplies: seq<Supply>)
    requires forall n | n in list :: n in now
  {
    forall n | n in list :: Supplemented(supplies, now[n].members).Some?
  }

  lemma JoinedStep(now: map<DBusInstance, Node>, list: seq<DBusInstance>, i: nat, supplies: seq<Supply>)
    requires i < |list| && (forall j | 0 <= j < i :: list[j] != list[i]) && forall n | n in list :: n in now
    ensures JoinedViews(now, Elements(list[..i]), supplies)[list[i]] == now[list[i]]
    ensures JoinedViews(now, Elements(list[..i]), supplies)[list[i] := SupplementedNode(supplies, now[list[i]])]
         == JoinedViews(now, Elements(list[..i + 1]), supplies)
    ensures AllJoin(now, list[..i + 1], supplies)
       <==> AllJoin(now, list[..i], supplies) && Supplemented(supplies, now[list[i]].members).Some?
  {
    assert list[..i + 1] == list[..i] + [list[i]];
  }

  /** The nodes before position `i` of a list have been joined. */
  ghost predicate JoinedUpTo(nodes: set<DBusInstance>, now: map<DBusInstance, Node>, list: seq<DBusInstance>, i: nat,
                             supplies: seq<Supply>)
    requires i <= |list| && forall n | n in list :: n in now
    reads nodes`memberInstances, FieldsOf(nodes)
  {
    Views(nodes, JoinedViews(now, Elements(list[..i]), supplies)) && AllJoin(now, list[..i], supplies)
  }

  method SupplementNext(provider: SupplementProvider, rule: LinkRule, list: seq<DBusInstance>, i: nat,
                        ghost served: seq<Instance>, ghost nodes: set<DBusInstance>, ghost now: map<DBusInstance, Node>)
    returns (ok: bool)
    requires Serves(provider, served) && Foreign(provider, nodes) && i < |list|
    requires (forall n | n in list :: n in nodes && n in now) && forall j | 0 <= j < i :: list[j] != list[i]
    requires JoinedUpTo(nodes, now, list, i, Supplied(provider, rule, served))
    modifies (set o | o in provider.order)`memberInstances, (set f: FieldInstance | f.owner in provider.order)`value
    modifies nodes`memberInstances, (set f: FieldInstance | f.owner in nodes)`value, provider.notAvailable`value
    ensures Serves(provider, AllReset(served)) && Foreign(provider, nodes)
    ensures ok == AllJoin(now, list[..i + 1], Supplied(provider, rule, served))
    ensures Views(nodes, JoinedViews(now, Elements(list[..i + 1]), Supplied(provider, rule, served)))
  {
    assert list[i] in list;
    ghost var supplies := Supplied(provider, rule, served);
    JoinedStep(now, list, i, supplies);
    SuppliedBrings(provider, rule, served);
    ok := SupplementNode(provider, rule, list[i], served, nodes, JoinedViews(now, Elements(list[..i]), supplies),
                         supplies);
  }

  lemma FailsForAll(now: map<DBusInstance, Node>, list: seq<DBusInstance>, i: nat, supplies: seq<Supply>)
    requires i <= |list| && (forall n | n in list :: n in now) && !AllJoin(now, list[..i], supplies)
    ensures !AllJoin(now, list, supplies)
  {
    var n :| n in list[..i] && Supplemented(supplies, now[n].members).None?;
    assert n in list;
  }

  /** Joining the listed nodes ends after `n` of them, the last of which is refused unless they are all joined. */
  ghost predicate StopsAt(now: map<DBusInstance, Node>, list: seq<DBusInstance>, supplies: seq<Supply>, n: nat)
    requires forall x | x in list :: x in now
  {
    if AllJoin(now, list, supplies) then n == |list|
    else 0 < n <= |list| && AllJoin(now, list[..n - 1], supplies) && !AllJoin(now, list[..n], supplies)
  }

  /** All nodes of a list are joined, one after the other, until one fails. */
  method SupplementList(provider: SupplementProvider, rule: LinkRule, list: seq<DBusInstance>,
                        ghost views: seq<Instance>, ghost nodes: set<DBusInstance>, ghost now: map<DBusInstance, Node>)
    returns (ok: bool, ghost served: seq<Instance>, ghost n: nat)
    requires Serves(provider, views) && Foreign(provider, nodes) && Views(nodes, now)
    requires (forall n | n in list :: n in nodes && n in now) && forall i, j | 0 <= i < j < |list| :: list[i] != list[j]
    modifies (set o | o in provider.order)`memberInstances, (set f: FieldInstance | f.owner in provider.order)`value
    modifies nodes`memberInstances, (set f: FieldInstance | f.owner in nodes)`value, provider.notAvailable`value
    ensures Serves(provider, served) && AllReset(served) == AllReset(views) && Foreign(provider, nodes)
    ensures ok == AllJoin(now, list, Supplied(provider, rule, views))
    ensures n <= |list| && StopsAt(now, list, Supplied(provider, rule, views), n)
    ensures Views(nodes, JoinedViews(now, Elements(list[..n]), Supplied(provider, rule, views)))
  {
    served := views;
    AllResetTwice(views);
    for i := 0 to |list|
      invariant Serves(provider, served) && AllReset(served) == AllReset(views) && Foreign(provider, nodes)
      invariant JoinedUpTo(nodes, now, list, i, Supplied(provider, rule, views))
    {
      ok := SupplementNext(provider, rule, list, i, served, nodes, now);
      served := AllReset(served);
      if !ok {
        FailsForAll(now, list, i + 1, Supplied(provider, rule, views));
        n := i + 1;
        return;
      }
    }
    assert list[..|list|] == list;
    ok, n := true, |list|;
  }

  // One instance

  /** An instance put together from the views of its nodes. */
  ghost function Composed(o: DBusInstance, now: map<DBusInstance, Node>): Instance
    requires o in now && forall c | c in o.Kids() :: c in now
    reads o`complexInstances
  {
    Instance(o.query, now[o],
             map k | k in o.complexInstances :: assert o.complexInstances[k] in o.Kids(); now[o.complexInstances[k]])
  }

  lemma ViewIsComposed(o: DBusInstance, nodes: set<DBusInstance>, now: map<DBusInstance, Node>)
    requires Views(nodes, now) && o in nodes && forall c | c in o.Kids() :: c in nodes
    ensures o.View() == Composed(o, now)
  {
    forall k | k in o.complexInstances
      ensures o.complexInstances[k].NodeView() == now[o.complexInstances[k]]
    {
      assert o.complexInstances[k] in o.Kids();
    }
  }

  function NodeReset(o: DBusInstance, node: Node): Node {
    node.(members := node.members + o.query.defaults)
  }

  /** The nodes that a read of one instance reaches. */
  ghost function ReachedNodes(o: DBusInstance, now: map<DBusInstance, Node>, supplies: seq<Supply>): set<DBusInstance>
    requires o in now && forall c | c in o.Kids() :: c in now
    reads o`complexInstances
  {
    set k | k in NodeMap(o) && Reaches(o.hash, supplies, Composed(o, now), k) :: NodeMap(o)[k]
  }

  /** The views after one instance has been reset and its nodes joined, as far as that goes. */
  ghost function AfterInstance(o: DBusInstance, now: map<DBusInstance, Node>, supplies: seq<Supply>)
    : map<DBusInstance, Node>
    requires o in now && forall c | c in o.Kids() :: c in now
    reads o`complexInstances
  {
    JoinedViews(now[o := NodeReset(o, now[o])], ReachedNodes(o, now, supplies), supplies)
  }

  lemma NodeInList(o: DBusInstance, n: DBusInstance)
    ensures n in InKeyOrder(NodeMap(o)) <==> exists k :: k in NodeMap(o) && NodeMap(o)[k] == n
  {
    InKeyOrderMeaning(NodeMap(o), n);
  }

  /** The listed nodes of a valid instance: itself and every child but one under its own hash. */
  lemma ListedNodes(o: DBusInstance)
    requires o.Valid()
    ensures o in InKeyOrder(NodeMap(o))
    ensures forall n | n in InKeyOrder(NodeMap(o)) :: n == o || n in o.Kids()
    ensures forall k | k in o.complexInstances :: o.complexInstances[k] in InKeyOrder(NodeMap(o)) <==> k != o.GetHash()
  {
    var own := o.GetHash();
    assert NodeMap(o)[own] == o;
    NodeInList(o, o);
    forall n | n in InKeyOrder(NodeMap(o))
      ensures n == o || n in o.Kids()
    {
      NodeInList(o, n);
    }
    forall k | k in o.complexInstances
      ensures o.complexInstances[k] in InKeyOrder(NodeMap(o)) <==> k != own
    {
      var c := o.complexInstances[k];
      assert o.IsChild(c, k);
      NodeInList(o, c);
      if k != own {
        assert NodeMap(o)[k] == c;
      }
    }
  }

  ghost predicate Shapely(o: DBusInstance, now: map<DBusInstance, Node>)
    reads o`memberInstances, o`complexInstances, o.Kids()`memberInstances, o.Kids()`complexInstances
  {
    && o.Valid() && o in now && (forall c | c in o.Kids() :: c in now)
    && now[o].service == o.serviceName && now[o].path == o.objectPath
  }

  lemma NodeReached(o: DBusInstance, now: map<DBusInstance, Node>, supplies: seq<Supply>)
    requires Shapely(o, now)
    ensures o in ReachedNodes(o, now, supplies) <==> Reaches(o.hash, supplies, Composed(o, now), o.GetHash())
  {
    assert NodeMap(o)[o.GetHash()] == o;
    forall k | k in o.complexInstances
      ensures o.complexInstances[k] != o
    {
      assert o.IsChild(o.complexInstances[k], k);
    }
  }

  lemma ChildReached(o: DBusInstance, now: map<DBusInstance, Node>, supplies: seq<Supply>, k: int)
    requires Shapely(o, now) && k in o.complexInstances
    ensures o.complexInstances[k] in ReachedNodes(o, now, supplies)
       <==> k != o.GetHash() && Reaches(o.hash, supplies, Composed(o, now), k)
  {
    var c := o.complexInstances[k];
    assert o.IsChild(c, k) && c in o.Kids();
    if k != o.GetHash() {
      assert NodeMap(o)[k] == c;
    }
    forall h | h in NodeMap(o) && NodeMap(o)[h] == c
      ensures h == k && h != o.GetHash()
    {
      if h != o.GetHash() {
        assert o.IsChild(o.complexInstances[h], h);
      }
    }
  }

  lemma ReadIsComposed(o: DBusInstance, now: map<DBusInstance, Node>, supplies: seq<Supply>)
    requires Shapely(o, now)
    ensures o in AfterInstance(o, now, supplies)
    ensures forall c | c in o.Kids() :: c in AfterInstance(o, now, supplies)
    ensures Composed(o, AfterInstance(o, now, supplies)) == ReadOne(o.hash, supplies, Composed(o, now))
  {
    var after, read := AfterInstance(o, now, supplies), ReadOne(o.hash, supplies, Composed(o, now));
    NodeReached(o, now, supplies);
    assert WithDefaults(Composed(o, now)).node.Hash(o.hash) == o.GetHash();
    forall k | k in o.complexInstances
      ensures o.complexInstances[k] in after && after[o.complexInstances[k]] == read.children[k]
    {
      var c := o.complexInstances[k];
      assert c in o.Kids() && o.IsChild(c, k);
      ChildReached(o, now, supplies, k);
    }
    assert Composed(o, after).children == read.children;
  }

  lemma OthersComposed(o: DBusInstance, p: DBusInstance, now: map<DBusInstance, Node>, supplies: seq<Supply>)
    requires Shapely(o, now) && p.Valid() && o != p && o.parent == null && p.parent == null
    requires p in now && (forall c | c in p.Kids() :: c in now)
    ensures p in AfterInstance(o, now, supplies)
    ensures forall c | c in p.Kids() :: c in AfterInstance(o, now, supplies)
    ensures Composed(p, AfterInstance(o, now, supplies)) == Composed(p, now)
  {
    ViewApart(o, p);
    forall n | n == p || n in p.Kids()
      ensures n !in ReachedNodes(o, now, supplies) && n != o
    {
      if n in p.Kids() {
        var k :| k in p.complexInstances && p.complexInstances[k] == n;
        assert p.IsChild(n, k);
        ViewApart(o, n);
      }
      forall h | h in NodeMap(o)
        ensures NodeMap(o)[h] != n
      {
        if h != o.GetHash() {
          assert o.complexInstances[h] in o.Kids();
        }
      }
    }
    forall k | k in p.complexInstances
      ensures var c := p.complexInstances[k];
        c in AfterInstance(o, now, supplies) && AfterInstance(o, now, supplies)[c] == now[c]
    {
      assert p.complexInstances[k] in p.Kids();
    }
  }

  /** A prefix of the listed nodes is what comes before the first hash whose node is refused. */
  lemma PrefixMeaning(keys: seq<int>, list: seq<DBusInstance>, now: map<DBusInstance, Node>, shown: map<int, Node>,
                      supplies: seq<Supply>, n: nat, m: nat)
    requires |keys| == |list| && (forall i, j | 0 <= i < j < |keys| :: keys[i] < keys[j])
    requires (forall x | x in list :: x in now) && StopsAt(now, list, supplies, n) && m < |keys|
    requires forall k :: k in shown <==> k in keys
    requires forall j | 0 <= j < |keys| :: keys[j] in shown && shown[keys[j]] == now[list[j]]
    ensures m < n <==> forall k | k in shown && k < keys[m] :: Supplemented(supplies, shown[k].members).Some?
  {
    if m < n {
      forall k | k in shown && k < keys[m]
        ensures Supplemented(supplies, shown[k].members).Some?
      {
        var j :| 0 <= j < |keys| && keys[j] == k;
        assert j < m <= n - 1;
        assert list[j] in list[..n - 1] && list[j] in list;
      }
    } else {
      var x :| x in list[..n] && Supplemented(supplies, now[x].members).None?;
      var j :| 0 <= j < n && list[j] == x;
      assert keys[j] in keys && keys[j] < keys[m];
    }
  }

  // Reading one instance

  method ResetNode(provider: SupplementProvider, o: DBusInstance, ghost views: seq<Instance>,
                   ghost nodes: set<DBusInstance>, ghost now: map<DBusInstance, Node>)
    requires Serves(provider, views) && Foreign(provider, nodes) && Views(nodes, now) && o in nodes && o.Valid()
    modifies o`memberInstances, (set f: FieldInstance | f.owner == o)`value
    ensures Serves(provider, views) && Foreign(provider, nodes) && o.Valid()
    ensures Views(nodes, now[o := NodeReset(o, now[o])])
  {
    forall p | p in provider.order
      ensures o !in p.Kids() && forall f | f in p.Fields() || f in p.ChildFields() :: f.owner != o
    {
      var i :| 0 <= i < |provider.order| && provider.order[i] == p;
      ViewApart(p, o);
    }
    o.InitDefaultFieldsValue();
    forall n | n in nodes && n != o
      ensures n.ValidNode() && n.NodeView() == now[n] && n.Fields() == old(n.Fields())
    {
    }
    forall p | p in provider.order
      ensures p.Valid() && p.View() == old(p.View())
    {
      var i :| 0 <= i < |provider.order| && provider.order[i] == p;
      assert old(p.Valid());
    }
  }

  lemma ListIsDistinct(o: DBusInstance)
    requires o.Valid()
    ensures forall i, j | 0 <= i < j < |InKeyOrder(NodeMap(o))| ::
      InKeyOrder(NodeMap(o))[i] != InKeyOrder(NodeMap(o))[j]
  {
    var keys := SortedInts(NodeMap(o).Keys);
    forall i | 0 <= i < |keys|
      ensures InKeyOrder(NodeMap(o))[i].GetHash() == keys[i]
    {
      InKeyOrderAt(NodeMap(o), i);
      if keys[i] != o.GetHash() {
        assert o.IsChild(o.complexInstances[keys[i]], keys[i]);
      }
    }
    assert |InKeyOrder(NodeMap(o))| == |keys|;
  }

  method ReadInstance(provider: SupplementProvider, rule: LinkRule, o: DBusInstance, list: seq<DBusInstance>,
                      ghost views: seq<Instance>, ghost nodes: set<DBusInstance>, ghost now: map<DBusInstance, Node>)
    returns (ok: bool, ghost served: seq<Instance>, ghost n: nat)
    requires Serves(provider, views) && Foreign(provider, nodes) && Views(nodes, now) && o in nodes && o.Valid()
    requires (forall n | n in list :: n in nodes) && forall i, j | 0 <= i < j < |list| :: list[i] != list[j]
    modifies (set p | p in provider.order)`memberInstances, (set f: FieldInstance | f.owner in provider.order)`value
    modifies nodes`memberInstances, (set f: FieldInstance | f.owner in nodes)`value, provider.notAvailable`value
    ensures Serves(provider, served) && AllReset(served) == AllReset(views) && Foreign(provider, nodes)
    ensures ok == AllJoin(now[o := NodeReset(o, now[o])], list, Supplied(provider, rule, views))
    ensures n <= |list| && StopsAt(now[o := NodeReset(o, now[o])], list, Supplied(provider, rule, views), n)
    ensures Views(nodes, JoinedViews(now[o := NodeReset(o, now[o])], Elements(list[..n]),
                                     Supplied(provider, rule, views)))
  {
    ResetNode(provider, o, views, nodes, now);
    ok, served, n := SupplementList(provider, rule, list, views, nodes, now[o := NodeReset(o, now[o])]);
  }

  // Reading the list of instances

  ghost predicate Houses(order: seq<DBusInstance>, nodes: set<DBusInstance>)
    reads (set o | o in order)`complexInstances
  {
    forall o | o in order :: o in nodes && forall c | c in o.Kids() :: c in nodes
  }

  /** What the validity of instances says about their children, apart from field objects. */
  ghost predicate Shaped(order: seq<DBusInstance>)
    reads (set o | o in order)`complexInstances, KidsIn(order)`complexInstances
  {
    forall o, k | o in order && k in o.complexInstances ::
      assert o.complexInstances[k] in o.Kids() && o.complexInstances[k] in KidsIn(order);
      IsChildOf(o, o.complexInstances[k], k)
  }

  ghost predicate IsChildOf(o: DBusInstance, c: DBusInstance, k: int)
    reads c`complexInstances
  {
    && c.parent == o && c != o && c.query == o.query && c.hash == o.hash && c.notAvailable == o.notAvailable
    && c.GetHash() == k && c.complexInstances == map[]
  }

  lemma ValidIsShaped(order: seq<DBusInstance>)
    requires AllValid(order)
    ensures Shaped(order)
  {
    forall o, k | o in order && k in o.complexInstances
      ensures IsChildOf(o, o.complexInstances[k], k)
    {
      var i :| 0 <= i < |order| && order[i] == o;
      assert o.IsChild(o.complexInstances[k], k);
    }
  }

  lemma ShapedIsValid(order: seq<DBusInstance>, provider: SupplementProvider, nodes: set<DBusInstance>)
    requires Foreign(provider, nodes) && Houses(order, nodes) && Shaped(order)
    ensures AllValid(order)
  {
    forall i | 0 <= i < |order|
      ensures order[i].Valid()
    {
      var o := order[i];
      assert o in order && o in nodes;
      forall k | k in o.complexInstances
        ensures o.IsChild(o.complexInstances[k], k)
      {
        assert o.complexInstances[k] in o.Kids() && IsChildOf(o, o.complexInstances[k], k);
      }
    }
  }

  /** What an instance shows under a hash is the view of the node that is listed there. */
  lemma ShownUnder(o: DBusInstance, now: map<DBusInstance, Node>, k: int)
    requires Shapely(o, now) && k in NodeMap(o)
    ensures NodeMap(o)[k] in now
    ensures k in NodesOf(o.hash, WithDefaults(Composed(o, now)))
    ensures NodesOf(o.hash, WithDefaults(Composed(o, now)))[k] == now[o := NodeReset(o, now[o])][NodeMap(o)[k]]
  {
    if k != o.GetHash() {
      assert o.IsChild(o.complexInstances[k], k) && o.complexInstances[k] in o.Kids();
    }
  }

  lemma ListedUnder(o: DBusInstance, now: map<DBusInstance, Node>, j: nat)
    requires Shapely(o, now) && j < |SortedInts(NodeMap(o).Keys)|
    ensures j < |InKeyOrder(NodeMap(o))| && InKeyOrder(NodeMap(o))[j] in now
    ensures var k, shown := SortedInts(NodeMap(o).Keys)[j], NodesOf(o.hash, WithDefaults(Composed(o, now)));
      k in shown && shown[k] == now[o := NodeReset(o, now[o])][InKeyOrder(NodeMap(o))[j]]
  {
    InKeyOrderAt(NodeMap(o), j);
    ShownUnder(o, now, SortedInts(NodeMap(o).Keys)[j]);
  }

  lemma ReachedAt(o: DBusInstance, now: map<DBusInstance, Node>, supplies: seq<Supply>, n: nat, m: nat)
    requires Shapely(o, now) && forall x | x in InKeyOrder(NodeMap(o)) :: x in now
    requires StopsAt(now[o := NodeReset(o, now[o])], InKeyOrder(NodeMap(o)), supplies, n)
    requires m < |InKeyOrder(NodeMap(o))|
    ensures |InKeyOrder(NodeMap(o))| == |SortedInts(NodeMap(o).Keys)|
    ensures m < n <==> Reaches(o.hash, supplies, Composed(o, now), SortedInts(NodeMap(o).Keys)[m])
  {
    var keys, list := SortedInts(NodeMap(o).Keys), InKeyOrder(NodeMap(o));
    var shown := NodesOf(o.hash, WithDefaults(Composed(o, now)));
    assert |list| == |keys| by { InKeyOrderAt(NodeMap(o), 0); }
    forall j | 0 <= j < |keys|
      ensures keys[j] in shown && shown[keys[j]] == now[o := NodeReset(o, now[o])][list[j]]
    {
      ListedUnder(o, now, j);
    }
    assert shown.Keys == NodeMap(o).Keys;
    PrefixMeaning(keys, list, now[o := NodeReset(o, now[o])], shown, supplies, n, m);
  }

  /** The nodes of the prefix are those that the reading reaches. */
  lemma PrefixIsReached(o: DBusInstance, now: map<DBusInstance, Node>, supplies: seq<Supply>, n: nat)
    requires Shapely(o, now) && forall x | x in InKeyOrder(NodeMap(o)) :: x in now
    requires n <= |InKeyOrder(NodeMap(o))|
    requires StopsAt(now[o := NodeReset(o, now[o])], InKeyOrder(NodeMap(o)), supplies, n)
    ensures Elements(InKeyOrder(NodeMap(o))[..n]) == ReachedNodes(o, now, supplies)
  {
    var keys, list := SortedInts(NodeMap(o).Keys), InKeyOrder(NodeMap(o));
    forall x | x in list[..n]
      ensures x in ReachedNodes(o, now, supplies)
    {
      var m :| 0 <= m < n && list[m] == x;
      ReachedAt(o, now, supplies, n, m);
      InKeyOrderAt(NodeMap(o), m);
    }
    forall x | x in ReachedNodes(o, now, supplies)
      ensures x in list[..n]
    {
      var k :| k in NodeMap(o) && Reaches(o.hash, supplies, Composed(o, now), k) && NodeMap(o)[k] == x;
      var m :| 0 <= m < |keys| && keys[m] == k;
      InKeyOrderAt(NodeMap(o), m);
      ReachedAt(o, now, supplies, n, m);
      assert list[..n][m] == x;
    }
  }

  lemma PrefixIsAfter(o: DBusInstance, now: map<DBusInstance, Node>, supplies: seq<Supply>, n: nat)
    requires Shapely(o, now) && forall x | x in InKeyOrder(NodeMap(o)) :: x in now
    requires n <= |InKeyOrder(NodeMap(o))|
    requires StopsAt(now[o := NodeReset(o, now[o])], InKeyOrder(NodeMap(o)), supplies, n)
    ensures JoinedViews(now[o := NodeReset(o, now[o])], Elements(InKeyOrder(NodeMap(o))[..n]), supplies)
         == AfterInstance(o, now, supplies)
  {
    PrefixIsReached(o, now, supplies, n);
  }

  lemma AnyPrefixIsAfter(o: DBusInstance, now: map<DBusInstance, Node>, list: seq<DBusInstance>,
                         supplies: seq<Supply>, after: map<DBusInstance, Node>)
    requires Shapely(o, now) && list == InKeyOrder(NodeMap(o)) && forall x | x in list :: x in now
    requires after == AfterInstance(o, now, supplies)
    ensures forall n: nat | n <= |list| && StopsAt(now[o := NodeReset(o, now[o])], list, supplies, n) ::
      JoinedViews(now[o := NodeReset(o, now[o])], Elements(list[..n]), supplies) == after
  {
    forall n: nat | n <= |list| && StopsAt(now[o := NodeReset(o, now[o])], list, supplies, n)
      ensures JoinedViews(now[o := NodeReset(o, now[o])], Elements(list[..n]), supplies) == after
    {
      PrefixIsAfter(o, now, supplies, n);
    }
  }

  /** One instance is reset and its nodes are joined. */
  method ReadNext(provider: SupplementProvider, rule: LinkRule, o: DBusInstance, ghost views: seq<Instance>,
                  ghost nodes: set<DBusInstance>, ghost now: map<DBusInstance, Node>,
                  ghost after: map<DBusInstance, Node>)
    returns (ok: bool, list: seq<DBusInstance>, ghost served: seq<Instance>)
    requires Serves(provider, views) && Foreign(provider, nodes) && Views(nodes, now)
    requires Shapely(o, now) && o in nodes && forall c | c in o.Kids() :: c in nodes
    requires after == AfterInstance(o, now, Supplied(provider, rule, views))
    modifies (set p | p in provider.order)`memberInstances, (set f: FieldInstance | f.owner in provider.order)`value
    modifies nodes`memberInstances, (set f: FieldInstance | f.owner in nodes)`value, provider.notAvailable`value
    ensures Serves(provider, served) && AllReset(served) == AllReset(views) && Foreign(provider, nodes)
    ensures list == InKeyOrder(NodeMap(o))
    ensures ok == AllJoin(now[o := NodeReset(o, now[o])], list, Supplied(provider, rule, views))
    ensures Views(nodes, after)
  {
    ListedNodes(o);
    ListIsDistinct(o);
    list := InKeyOrder(NodeMap(o));
    ghost var n;
    AnyPrefixIsAfter(o, now, list, Supplied(provider, rule, views), after);
    ok, served, n := ReadInstance(provider, rule, o, list, views, nodes, now);
  }

  ghost predicate Composes(order: seq<DBusInstance>, now: map<DBusInstance, Node>, values: seq<Instance>)
    reads (set o | o in order)`complexInstances
  {
    |values| == |order| && forall j | 0 <= j < |order| ::
      order[j] in now && (forall c | c in order[j].Kids() :: c in now) && Composed(order[j], now) == values[j]
  }

  lemma ComposesStep(order: seq<DBusInstance>, i: nat, nodes: set<DBusInstance>, now: map<DBusInstance, Node>,
                     values: seq<Instance>, supplies: seq<Supply>)
    requires i < |order| && AllValid(order) && Separate(order) && Composes(order, now, values)
    requires Views(nodes, now) && order[i] in nodes
    ensures Composes(order, AfterInstance(order[i], now, supplies),
                     values[i := ReadOne(order[i].hash, supplies, values[i])])
  {
    var o := order[i];
    var after := AfterInstance(o, now, supplies);
    assert now[o] == o.NodeView();
    ReadIsComposed(o, now, supplies);
    forall j | 0 <= j < |order| && j != i
      ensures order[j] in after && (forall c | c in order[j].Kids() :: c in after)
      ensures Composed(order[j], after) == values[j]
    {
      OthersComposed(o, order[j], now, supplies);
    }
  }

  lemma AllJoinMeaning(now: map<DBusInstance, Node>, list: seq<DBusInstance>, nodes: map<int, DBusInstance>,
                       shown: map<int, Node>, supplies: seq<Supply>)
    requires nodes.Keys == shown.Keys && forall n | n in list :: n in now
    requires forall k | k in nodes :: nodes[k] in list && shown[k] == now[nodes[k]]
    requires forall n | n in list :: exists k :: k in nodes && nodes[k] == n
    ensures AllJoin(now, list, supplies) <==> forall k | k in shown :: Supplemented(supplies, shown[k].members).Some?
  {
    if k :| k in shown && Supplemented(supplies, shown[k].members).None? {
      assert nodes[k] in list;
    }
    if n :| n in list && Supplemented(supplies, now[n].members).None? {
      var k :| k in nodes && nodes[k] == n;
      assert shown[k] == now[n];
    }
  }

  ghost predicate Lists(o: DBusInstance, list: seq<DBusInstance>)
    reads o`complexInstances
  {
    && (forall k | k in NodeMap(o) :: NodeMap(o)[k] in list)
    && (forall n | n in list :: exists k :: k in NodeMap(o) && NodeMap(o)[k] == n)
  }

  lemma InKeyOrderLists(o: DBusInstance)
    ensures Lists(o, InKeyOrder(NodeMap(o)))
  {
    forall n
      ensures n in InKeyOrder(NodeMap(o)) <==> exists k :: k in NodeMap(o) && NodeMap(o)[k] == n
    {
      NodeInList(o, n);
    }
  }

  /** Joining the listed nodes succeeds exactly if reading the value does. */
  lemma JoinIsRead(o: DBusInstance, now: map<DBusInstance, Node>, list: seq<DBusInstance>, supplies: seq<Supply>)
    requires Shapely(o, now) && Lists(o, list) && forall n | n in list :: n in now
    ensures AllJoin(now[o := NodeReset(o, now[o])], list, supplies) <==> Reads(o.hash, supplies, Composed(o, now))
  {
    var start, nodes := now[o := NodeReset(o, now[o])], NodeMap(o);
    var shown := NodesOf(o.hash, WithDefaults(Composed(o, now)));
    forall k | k in nodes
      ensures k in shown && shown[k] == start[nodes[k]]
    {
      ShownUnder(o, now, k);
    }
    AllJoinMeaning(start, list, nodes, shown, supplies);
  }

  /** What a read keeps, even one that throws: which nodes there are and whose field objects they have. */
  ghost predicate Kept(provider: SupplementProvider, order: seq<DBusInstance>, maps: seq<map<int, DBusInstance>>,
                       nodes: set<DBusInstance>)
    reads provider, nodes`memberInstances
    reads (set o | o in order)`complexInstances, KidsIn(order)`complexInstances
  {
    Foreign(provider, nodes) && Houses(order, nodes) && Shaped(order) && AreNodeMaps(order, maps)
  }

  /** The state of a read: the provider serves `served`, the instances show `values`. */
  ghost predicate Reading(provider: SupplementProvider, order: seq<DBusInstance>,
                          maps: seq<map<int, DBusInstance>>, served: seq<Instance>, nodes: set<DBusInstance>,
                          now: map<DBusInstance, Node>, values: seq<Instance>)
    reads provider, (set o | o in provider.order)`memberInstances, (set o | o in provider.order)`complexInstances
    reads (set o, c | o in provider.order && c in o.Kids() :: c)`memberInstances
    reads (set o, c | o in provider.order && c in o.Kids() :: c)`complexInstances
    reads FieldsIn(provider.order), FieldsBeneath(provider.order), provider.notAvailable
    reads nodes`memberInstances, FieldsOf(nodes)
    reads (set o | o in order)`memberInstances, (set o | o in order)`complexInstances
    reads (set o, c | o in order && c in o.Kids() :: c)`memberInstances
    reads (set o, c | o in order && c in o.Kids() :: c)`complexInstances
  {
    Serves(provider, served) && Kept(provider, order, maps, nodes) && Views(nodes, now) && Composes(order, now, values)
  }

  method ReadKept(provider: SupplementProvider, rule: LinkRule, ghost order: seq<DBusInstance>,
                  ghost maps: seq<map<int, DBusInstance>>, o: DBusInstance, ghost views: seq<Instance>,
                  ghost nodes: set<DBusInstance>, ghost now: map<DBusInstance, Node>,
                  ghost after: map<DBusInstance, Node>, ghost composed: seq<Instance>)
    returns (ok: bool, list: seq<DBusInstance>, ghost served: seq<Instance>)
    requires Serves(provider, views) && Kept(provider, order, maps, nodes) && Views(nodes, now)
    requires Composes(order, after, composed)
    requires Shapely(o, now) && o in nodes && forall c | c in o.Kids() :: c in nodes
    requires after == AfterInstance(o, now, Supplied(provider, rule, views))
    modifies (set p | p in provider.order)`memberInstances, (set f: FieldInstance | f.owner in provider.order)`value
    modifies nodes`memberInstances, (set f: FieldInstance | f.owner in nodes)`value, provider.notAvailable`value
    ensures Serves(provider, served) && AllReset(served) == AllReset(views) && Kept(provider, order, maps, nodes)
    ensures list == InKeyOrder(NodeMap(o))
    ensures ok == AllJoin(now[o := NodeReset(o, now[o])], list, Supplied(provider, rule, views))
    ensures Views(nodes, after) && Composes(order, after, composed)
  {
    ok, list, served := ReadNext(provider, rule, o, views, nodes, now, after);
  }

  /** What joining the nodes of instance `i` will come to. */
  lemma StepMeaning(provider: SupplementProvider, order: seq<DBusInstance>, maps: seq<map<int, DBusInstance>>, i: nat,
                    nodes: set<DBusInstance>, now: map<DBusInstance, Node>, values: seq<Instance>,
                    supplies: seq<Supply>)
    requires Kept(provider, order, maps, nodes) && Views(nodes, now) && Composes(order, now, values)
    requires i < |order| && Separate(order)
    ensures var o := order[i];
      && Shapely(o, now) && o in nodes && (forall c | c in o.Kids() :: c in nodes)
      && (forall n | n in InKeyOrder(NodeMap(o)) :: n in now)
      && (AllJoin(now[o := NodeReset(o, now[o])], InKeyOrder(NodeMap(o)), supplies)
          <==> Reads(o.hash, supplies, values[i]))
      && Composes(order, AfterInstance(o, now, supplies), values[i := ReadOne(o.hash, supplies, values[i])])
  {
    var o := order[i];
    ShapedIsValid(order, provider, nodes);
    assert o in order;
    ComposesStep(order, i, nodes, now, values, supplies);
    ListedNodes(o);
    InKeyOrderLists(o);
    JoinIsRead(o, now, InKeyOrder(NodeMap(o)), supplies);
  }

  method ReadStep(provider: SupplementProvider, rule: LinkRule, ghost order: seq<DBusInstance>,
                  ghost maps: seq<map<int, DBusInstance>>, ghost i: nat, o: DBusInstance,
                  ghost views: seq<Instance>, ghost nodes: set<DBusInstance>,
                  ghost now: map<DBusInstance, Node>, ghost values: seq<Instance>)
    returns (ok: bool, list: seq<DBusInstance>, ghost served: seq<Instance>, ghost after: map<DBusInstance, Node>)
    requires Reading(provider, order, maps, views, nodes, now, values) && Separate(order)
    requires i < |order| && order[i] == o
    modifies (set p | p in provider.order)`memberInstances, (set f: FieldInstance | f.owner in provider.order)`value
    modifies nodes`memberInstances, (set f: FieldInstance | f.owner in nodes)`value, provider.notAvailable`value
    ensures AllReset(served) == AllReset(views)
    ensures ok == Reads(o.hash, Supplied(provider, rule, views), values[i]) && list == InKeyOrder(maps[i])
    ensures Reading(provider, order, maps, served, nodes, after,
                    values[i := ReadOne(o.hash, Supplied(provider, rule, views), values[i])])
  {
    ghost var supplies := Supplied(provider, rule, views);
    StepMeaning(provider, order, maps, i, nodes, now, values, supplies);
    after := AfterInstance(o, now, supplies);
    ok, list, served := ReadKept(provider, rule, order, maps, o, views, nodes, now, after,
                                 values[i := ReadOne(o.hash, supplies, values[i])]);
  }

  function ReadBefore(hash: Hasher, supplies: seq<Supply>, values: seq<Instance>, i: nat)
    : seq<Instance>
  {
    seq(|values|, j requires 0 <= j < |values| => if j < i then ReadOne(hash, supplies, values[j]) else values[j])
  }

  /** The values after a read, which ends with the first instance that throws. */
  ghost function ReadValues(hash: Hasher, supplies: seq<Supply>, values: seq<Instance>): seq<Instance> {
    seq(|values|, j requires 0 <= j < |values| =>
      if AllRead(hash, supplies, values[..j]) then ReadOne(hash, supplies, values[j]) else values[j])
  }

  lemma ReadStopsAt(hash: Hasher, supplies: seq<Supply>, values: seq<Instance>, i: nat)
    requires i < |values| && AllRead(hash, supplies, values[..i]) && !Reads(hash, supplies, values[i])
    ensures ReadBefore(hash, supplies, values, i + 1) == ReadValues(hash, supplies, values)
  {
    forall j | 0 <= j < |values|
      ensures AllRead(hash, supplies, values[..j]) <==> j <= i
    {
      if i < j {
        assert values[..j][i] == values[i];
      } else {
        assert forall k | 0 <= k < j :: values[..j][k] == values[..i][k];
      }
    }
  }

  lemma ReadToTheEnd(hash: Hasher, supplies: seq<Supply>, values: seq<Instance>)
    requires AllRead(hash, supplies, values)
    ensures ReadBefore(hash, supplies, values, |values|) == ReadValues(hash, supplies, values)
  {
  }

  ghost predicate AllRead(hash: Hasher, supplies: seq<Supply>, values: seq<Instance>) {
    forall i | 0 <= i < |values| :: Reads(hash, supplies, values[i])
  }

  lemma ReadBeforeStep(hash: Hasher, supplies: seq<Supply>, values: seq<Instance>, i: nat)
    requires i < |values|
    ensures ReadBefore(hash, supplies, values, i)[i] == values[i]
    ensures ReadBefore(hash, supplies, values, i)[i := ReadOne(hash, supplies, values[i])]
         == ReadBefore(hash, supplies, values, i + 1)
  {
  }

  /** The instances before position `i` have been read. */
  ghost predicate ReadUpTo(provider: SupplementProvider, order: seq<DBusInstance>,
                           maps: seq<map<int, DBusInstance>>, served: seq<Instance>, nodes: set<DBusInstance>,
                           now: map<DBusInstance, Node>, supplies: seq<Supply>, values: seq<Instance>, i: nat)
    requires i <= |values|
    reads provider, (set o | o in provider.order)`memberInstances, (set o | o in provider.order)`complexInstances
    reads (set o, c | o in provider.order && c in o.Kids() :: c)`memberInstances
    reads (set o, c | o in provider.order && c in o.Kids() :: c)`complexInstances
    reads FieldsIn(provider.order), FieldsBeneath(provider.order), provider.notAvailable
    reads nodes`memberInstances, FieldsOf(nodes)
    reads (set o | o in order)`memberInstances, (set o | o in order)`complexInstances
    reads (set o, c | o in order && c in o.Kids() :: c)`memberInstances
    reads (set o, c | o in order && c in o.Kids() :: c)`complexInstances
  {
    && Reading(provider, order, maps, served, nodes, now, ReadBefore(provider.hash, supplies, values, i))
    && AllRead(provider.hash, supplies, values[..i])
  }

  lemma AllReadStep(hash: Hasher, supplies: seq<Supply>, values: seq<Instance>, i: nat)
    requires i < |values|
    ensures AllRead(hash, supplies, values[..i + 1])
       <==> AllRead(hash, supplies, values[..i]) && Reads(hash, supplies, values[i])
    ensures !AllRead(hash, supplies, values[..i + 1]) ==> !AllRead(hash, supplies, values)
  {
    var front := values[..i + 1];
    assert front == values[..i] + [values[i]];
    if j :| 0 <= j < |front| && !Reads(hash, supplies, front[j]) {
      assert front[j] == values[j];
    }
  }

  method ReadOneMore(provider: SupplementProvider, rule: LinkRule, ghost order: seq<DBusInstance>,
                     ghost maps: seq<map<int, DBusInstance>>, ghost i: nat, o: DBusInstance,
                     ghost served: seq<Instance>, ghost nodes: set<DBusInstance>, ghost now: map<DBusInstance, Node>,
                     ghost supplies: seq<Supply>, ghost values: seq<Instance>,
                     ghost parts: seq<seq<DBusInstance>>, result: seq<DBusInstance>)
    returns (ok: bool, more: seq<DBusInstance>, ghost servedAfter: seq<Instance>, ghost after: map<DBusInstance, Node>)
    requires i < |order| == |values| && order[i] == o && o.hash == provider.hash && Separate(order)
    requires supplies == Supplied(provider, rule, served)
    requires ReadUpTo(provider, order, maps, served, nodes, now, supplies, values, i)
    requires |maps| == |order| && |parts| == |order| + 1 && result == parts[i] && IsPart(parts, maps, i)
    modifies (set p | p in provider.order)`memberInstances, (set f: FieldInstance | f.owner in provider.order)`value
    modifies nodes`memberInstances, (set f: FieldInstance | f.owner in nodes)`value, provider.notAvailable`value
    ensures AllReset(servedAfter) == AllReset(served)
    ensures Reading(provider, order, maps, servedAfter, nodes, after,
                    ReadBefore(provider.hash, supplies, values, i + 1))
    ensures ok == AllRead(provider.hash, supplies, values[..i + 1])
    ensures ok ==> more == parts[i + 1]
    ensures !ok ==> !AllRead(provider.hash, supplies, values)
    ensures !ok ==> ReadBefore(provider.hash, supplies, values, i + 1) == ReadValues(provider.hash, supplies, values)
  {
    ReadBeforeStep(provider.hash, supplies, values, i);
    AllReadStep(provider.hash, supplies, values, i);
    if !Reads(provider.hash, supplies, values[i]) {
      ReadStopsAt(provider.hash, supplies, values, i);
    }
    var list;
    ok, list, servedAfter, after := ReadStep(provider, rule, order, maps, i, o, served, nodes, now,
                                             ReadBefore(provider.hash, supplies, values, i));
    more := result + list;
  }

  /** The loop of `getInstances`; it ends with the first exception. */
  method ReadAll(provider: SupplementProvider, rule: LinkRule, order: seq<DBusInstance>,
                 ghost maps: seq<map<int, DBusInstance>>, ghost views: seq<Instance>, ghost nodes: set<DBusInstance>,
                 ghost now: map<DBusInstance, Node>, ghost supplies: seq<Supply>, ghost values: seq<Instance>,
                 ghost parts: seq<seq<DBusInstance>>)
    returns (ok: bool, result: seq<DBusInstance>, ghost served: seq<Instance>, ghost after: map<DBusInstance, Node>)
    requires |maps| == |order| && |parts| == |order| + 1 && parts[0] == []
    requires forall i | 0 <= i < |order| :: IsPart(parts, maps, i)
    requires |values| == |order| && Separate(order) && supplies == Supplied(provider, rule, views)
    requires ReadUpTo(provider, order, maps, views, nodes, now, supplies, values, 0)
    requires forall o | o in order :: o.hash == provider.hash
    modifies (set p | p in provider.order)`memberInstances, (set f: FieldInstance | f.owner in provider.order)`value
    modifies nodes`memberInstances, (set f: FieldInstance | f.owner in nodes)`value, provider.notAvailable`value
    ensures AllReset(served) == AllReset(views)
    ensures Reading(provider, order, maps, served, nodes, after, ReadValues(provider.hash, supplies, values))
    ensures ok == AllRead(provider.hash, supplies, values)
    ensures ok ==> result == parts[|order|]
  {
    result, served, after := [], views, now;
    for i := 0 to |order|
      invariant AllReset(served) == AllReset(views) && result == parts[i]
      invariant ReadUpTo(provider, order, maps, served, nodes, after, supplies, values, i)
    {
      assert order[i] in order;
      ok, result, served, after := ReadOneMore(provider, rule, order, maps, i, order[i], served, nodes, after,
                                               supplies, values, parts, result);
      if !ok {
        return;
      }
    }
    ReadBeforeNone(provider.hash, supplies, values);
    ReadToTheEnd(provider.hash, supplies, values);
    ok := true;
  }

  lemma ReadBeforeNone(hash: Hasher, supplies: seq<Supply>, values: seq<Instance>)
    ensures ReadBefore(hash, supplies, values, 0) == values && AllRead(hash, supplies, values[..0])
    ensures values[..|values|] == values
  {
  }

  // The entity

  /** All nodes of the instances, hidden ones included. */
  ghost function NodesIn(tops: seq<DBusInstance>): (nodes: set<DBusInstance>)
    reads (set o | o in tops)`complexInstances
    ensures Houses(tops, nodes)
  {
    (set o | o in tops) + KidsIn(tops)
  }

  lemma NodesHoused(order: seq<DBusInstance>, nodes: set<DBusInstance>)
    requires Houses(order, nodes)
    ensures NodesIn(order) <= nodes
  {
  }

  ghost function Snapshot(nodes: set<DBusInstance>): (now: map<DBusInstance, Node>)
    reads nodes`memberInstances, FieldsOf(nodes)
    ensures Views(nodes, now)
  {
    map n | n in nodes :: assert forall f | f in n.Fields() :: f in FieldsOf(nodes); n.NodeView()
  }

  lemma ShowsComposed(order: seq<DBusInstance>, nodes: set<DBusInstance>, now: map<DBusInstance, Node>,
                      values: seq<Instance>)
    requires Views(nodes, now) && Houses(order, nodes) && |values| == |order|
    ensures Show(order, values) <==> Composes(order, now, values)
  {
    forall j | 0 <= j < |order|
      ensures order[j] in now && (forall c | c in order[j].Kids() :: c in now)
      ensures order[j].View() == Composed(order[j], now)
    {
      assert order[j] in order;
      ViewIsComposed(order[j], nodes, now);
    }
  }

  lemma NodesAreForeign(order: seq<DBusInstance>, provider: SupplementProvider)
    requires AllValid(order) && OfSystem(order, provider.hash, provider.notAvailable) && provider.Valid()
    requires forall o | o in order :: o !in provider.order
    ensures Foreign(provider, NodesIn(order))
  {
    forall o | o in order
      ensures o.ValidNode() && o.notAvailable == provider.notAvailable && Outside(provider.order, o)
      ensures forall c | c in o.Kids() ::
        c.ValidNode() && c.notAvailable == provider.notAvailable && Outside(provider.order, c)
    {
      var i :| 0 <= i < |order| && order[i] == o;
      forall c | c in o.Kids()
        ensures c.ValidNode() && c.notAvailable == provider.notAvailable && Outside(provider.order, c)
      {
        var k :| k in o.complexInstances && o.complexInstances[k] == c;
        assert o.IsChild(c, k);
      }
    }
  }

  lemma StartRead(provider: SupplementProvider, order: seq<DBusInstance>, views: seq<Instance>,
                  nodes: set<DBusInstance>, supplies: seq<Supply>, values: seq<Instance>)
    requires Serves(provider, views) && Foreign(provider, nodes) && Houses(order, nodes)
    requires AllValid(order) && Show(order, values)
    ensures ReadUpTo(provider, order, NodeMaps(order), views, nodes, Snapshot(nodes), supplies, values, 0)
  {
    ValidIsShaped(order);
    ShowsComposed(order, nodes, Snapshot(nodes), values);
    ReadBeforeNone(provider.hash, supplies, values);
  }

  lemma EndRead(provider: SupplementProvider, order: seq<DBusInstance>, maps: seq<map<int, DBusInstance>>,
                served: seq<Instance>, nodes: set<DBusInstance>, now: map<DBusInstance, Node>, values: seq<Instance>)
    requires Reading(provider, order, maps, served, nodes, now, values)
    ensures AllValid(order) && Show(order, values)
  {
    ShapedIsValid(order, provider, nodes);
    ShowsComposed(order, nodes, now, values);
  }

  method ReadJoined(provider: SupplementProvider, rule: LinkRule, order: seq<DBusInstance>, ghost views: seq<Instance>,
                    ghost nodes: set<DBusInstance>, ghost values: seq<Instance>)
    returns (ok: bool, result: seq<DBusInstance>, ghost served: seq<Instance>)
    requires Serves(provider, views) && Foreign(provider, nodes) && Houses(order, nodes)
    requires AllValid(order) && Separate(order) && Show(order, values)
    requires forall o | o in order :: o.hash == provider.hash
    modifies (set p | p in provider.order)`memberInstances, (set f: FieldInstance | f.owner in provider.order)`value
    modifies nodes`memberInstances, (set f: FieldInstance | f.owner in nodes)`value, provider.notAvailable`value
    ensures Serves(provider, served) && AllReset(served) == AllReset(views)
    ensures ok == AllRead(provider.hash, Supplied(provider, rule, views), values)
    ensures Show(order, ReadValues(provider.hash, Supplied(provider, rule, views), values))
    ensures ok ==> result == InOrder(NodeMaps(order))
    ensures AllValid(order) && Houses(order, nodes) && NodeMaps(order) == old(NodeMaps(order))
  {
    ghost var after;
    ghost var maps := NodeMaps(order);
    ghost var supplies := Supplied(provider, rule, views);
    PartsAre(maps);
    StartRead(provider, order, views, nodes, supplies, values);
    ok, result, served, after := ReadAll(provider, rule, order, maps, views, nodes, Snapshot(nodes), supplies, values,
                                         Parts(NodeLists(maps)));
    EndRead(provider, order, maps, served, nodes, after, ReadValues(provider.hash, supplies, values));
    MapsAreEqual(order, maps);
  }

  /** A read replaces no instance and no child. */
  twostate predicate SameNodes(order: seq<DBusInstance>)
    reads (set o | o in order)`complexInstances
  {
    NodeMaps(order) == old(NodeMaps(order)) && Houses(order, old(NodesIn(order)))
  }

  lemma ReadOneAlone(hash: Hasher, v: Instance)
    ensures Reads(hash, [], v) && ReadOne(hash, [], v) == WithDefaults(v)
  {
    var d := WithDefaults(v);
    assert forall m: Members :: Supplemented([], m) == Some(m) && SupplementedUntil([], m) == m;
    assert ReadOne(hash, [], v).children == d.children;
  }

  lemma ReadAlone(hash: Hasher, values: seq<Instance>)
    ensures AllRead(hash, [], values) && ReadValues(hash, [], values) == AllReset(values)
  {
    forall i | 0 <= i < |values|
      ensures Reads(hash, [], values[i]) && ReadOne(hash, [], values[i]) == WithDefaults(values[i])
    {
      ReadOneAlone(hash, values[i]);
    }
    ReadToTheEnd(hash, [], values);
  }

  /** An entity, with the provider it is linked to, if any. */
  class Entity {
    const hash: Hasher
    const notAvailable: FieldInstance
    const provider: SupplementProvider?
    const rule: LinkRule
    var instances: map<int, DBusInstance>
    var order: seq<DBusInstance>

    ghost predicate Valid()
      reads this, (set o | o in order)`memberInstances, (set o | o in order)`complexInstances
      reads (set o, c | o in order && c in o.Kids() :: c)`memberInstances
      reads (set o, c | o in order && c in o.Kids() :: c)`complexInstances
    {
      IsOrder(order, instances) && OfSystem(order, hash, notAvailable) && AllValid(order)
    }

    /** The provider, if there is one, belongs to the same system and shows `views`. */
    ghost predicate Ready(views: seq<Instance>)
      reads this, notAvailable, provider, ProviderNodes()`memberInstances, ProviderNodes()`complexInstances
      reads (set o, c | o in ProviderNodes() && c in o.Kids() :: c)`memberInstances
      reads (set o, c | o in ProviderNodes() && c in o.Kids() :: c)`complexInstances
      reads (set o, f | o in ProviderNodes() && f in o.Fields() :: f)
      reads (set o, f | o in ProviderNodes() && f in o.ChildFields() :: f)
      reads if provider == null then {} else {provider.notAvailable}
    {
      && notAvailable.value == NOT_AVAILABLE
      && (provider != null ==>
            && provider.hash == hash && provider.notAvailable == notAvailable && Serves(provider, views)
            && forall o | o in order :: o !in provider.order)
    }

    /** What the provider, showing `views`, brings to the nodes of the entity. */
    ghost function Supplies(views: seq<Instance>): seq<Supply> {
      if provider == null then [] else Supplied(provider, rule, views)
    }

    ghost function ProviderNodes(): set<DBusInstance>
      reads if provider == null then {} else {provider}
    {
      if provider == null then {} else set p | p in provider.order
    }

    constructor (inHash: Hasher, sentinel: FieldInstance, linked: SupplementProvider?, linkRule: LinkRule)
      ensures hash == inHash && notAvailable == sentinel && provider == linked && rule == linkRule
      ensures Valid() && instances == map[]
    {
      hash, notAvailable, provider, rule := inHash, sentinel, linked, linkRule;
      instances, order := map[], [];
    }

    /** Of instances with the same hash the last one stays; what was stored before is dropped. */
    method SetInstances(list: seq<DBusInstance>)
      requires AllValid(list) && OfSystem(list, hash, notAvailable)
      modifies this`instances, this`order
      ensures Valid() && HoldsLast(instances, list)
    {
      instances, order := Arranged(list, hash, notAvailable);
    }

    /** The nodes and field objects that a read may write. */
    ghost function ReadNodes(): set<DBusInstance>
      reads this`order, (set o | o in order)`complexInstances, provider
    {
      NodesIn(order) + ProviderNodes()
    }

    method ResetOrder(ghost values: seq<Instance>) returns (result: seq<DBusInstance>)
      requires Valid() && Show(order, values)
      modifies (set o | o in order)`memberInstances, (set f: FieldInstance | f.owner in order)`value
      ensures Valid() && Show(order, AllReset(values)) && result == InOrder(NodeMaps(order))
    {
      OrderIsSeparate(order, instances, hash, notAvailable);
      NoneReset(values);
      result := ResetAndReturn(order, values, AllReset(values), hash, {});
    }

    method GetAlone(ghost values: seq<Instance>) returns (result: seq<DBusInstance>)
      requires Valid() && Show(order, values)
      modifies (set o | o in order)`memberInstances, (set f: FieldInstance | f.owner in order)`value
      ensures Valid() && Show(order, ReadValues(hash, [], values)) && AllRead(hash, [], values)
      ensures result == InOrder(NodeMaps(order)) && SameNodes(order) && notAvailable.value == old(notAvailable.value)
    {
      ReadAlone(hash, values);
      result := ResetOrder(values);
    }

    method GetJoined(p: SupplementProvider, ghost views: seq<Instance>, ghost values: seq<Instance>)
      returns (ok: bool, result: seq<DBusInstance>, ghost served: seq<Instance>)
      requires Valid() && Show(order, values) && Serves(p, views)
      requires p.hash == hash && p.notAvailable == notAvailable && forall o | o in order :: o !in p.order
      modifies (set o | o in p.order)`memberInstances, (set f: FieldInstance | f.owner in p.order)`value
      modifies NodesIn(order)`memberInstances, (set f: FieldInstance | f.owner in NodesIn(order))`value
      modifies notAvailable`value
      ensures Valid() && Serves(p, served) && AllReset(served) == AllReset(views)
      ensures ok == AllRead(hash, Supplied(p, rule, views), values)
      ensures Show(order, ReadValues(hash, Supplied(p, rule, views), values))
      ensures ok ==> result == InOrder(NodeMaps(order))
      ensures SameNodes(order)
    {
      OrderIsSeparate(order, instances, hash, notAvailable);
      NodesAreForeign(order, p);
      ok, result, served := ReadJoined(p, rule, order, views, NodesIn(order), values);
    }

    method ReadAny(ghost values: seq<Instance>, ghost views: seq<Instance>)
      returns (ok: bool, result: seq<DBusInstance>, ghost served: seq<Instance>)
      requires Valid() && Show(order, values) && Ready(views)
      modifies ReadNodes()`memberInstances, (set f: FieldInstance | f.owner in ReadNodes())`value, notAvailable`value
      ensures Valid() && Ready(served) && AllReset(served) == AllReset(views)
      ensures ok == AllRead(hash, Supplies(views), values)
      ensures Show(order, ReadValues(hash, Supplies(views), values))
      ensures ok ==> result == InOrder(NodeMaps(order))
      ensures SameNodes(order) && (provider != null ==> provider.order == old(provider.order))
    {
      if provider == null {
        result := GetAlone(values);
        ok, served := true, views;
      } else {
        ok, result, served := GetJoined(provider, views, values);
      }
    }

    /** The nodes returned by a read hold what the instances show. */
    lemma NodesShown(values: seq<Instance>)
      requires Valid() && Show(order, values)
      ensures Hold(InOrder(NodeMaps(order)), EmittedFrom(hash, values))
    {
      EmittedHeld(order, NodeMaps(order), values, hash);
    }

    /**
     `getInstances`: the defaults are reset, every node is joined with the provider and returned in the order of
     hashes. A result of `false` stands for the exception about an unknown status. In either case the provider serves
     `served` afterwards: its defaults may have been reset.
     */
    method GetInstances(ghost values: seq<Instance>, ghost views: seq<Instance>)
      returns (ok: bool, result: seq<DBusInstance>, ghost served: seq<Instance>)
      requires Valid() && Show(order, values) && Ready(views)
      modifies ReadNodes()`memberInstances, (set f: FieldInstance | f.owner in ReadNodes())`value, notAvailable`value
      ensures Valid() && Ready(served) && AllReset(served) == AllReset(views)
      ensures ok == AllRead(hash, Supplies(views), values)
      ensures Show(order, ReadValues(hash, Supplies(views), values))
      ensures ok ==> result == InOrder(NodeMaps(order))
      ensures ok ==> Hold(result, EmittedFrom(hash, ReadValues(hash, Supplies(views), values)))
      ensures SameNodes(order) && (provider != null ==> provider.order == old(provider.order))
    {
      ok, result, served := ReadAny(values, views);
      if ok {
        NodesShown(ReadValues(hash, Supplies(views), values));
      }
    }
  }

  // The same in terms of the reference

  lemma ResetAt(s: map<int, Instance>, i: nat)
    requires i < |InKeyOrder(s)|
    ensures i < |InKeyOrder(AllWithDefaults(s))| == |InKeyOrder(s)|
    ensures InKeyOrder(AllWithDefaults(s))[i] == WithDefaults(InKeyOrder(s)[i])
  {
    assert AllWithDefaults(s).Keys == s.Keys;
    InKeyOrderAt(s, i);
    InKeyOrderAt(AllWithDefaults(s), i);
  }

  lemma ResetInOrder(s: map<int, Instance>)
    ensures InKeyOrder(AllWithDefaults(s)) == AllReset(InKeyOrder(s))
  {
    assert AllWithDefaults(s).Keys == s.Keys;
    forall i | 0 <= i < |InKeyOrder(s)|
      ensures InKeyOrder(AllWithDefaults(s))[i] == WithDefaults(InKeyOrder(s)[i])
    {
      ResetAt(s, i);
    }
    SameValues(InKeyOrder(AllWithDefaults(s)), AllReset(InKeyOrder(s)));
  }

  /** A provider that shows the values of `s` in their order brings what the reference says. */
  lemma SuppliesReference(provider: SupplementProvider, rule: LinkRule, s: map<int, Instance>)
    ensures Supplied(provider, rule, InKeyOrder(s)) == SuppliesOf(provider.hash, [Provider(rule, s)])
  {
    ResetInOrder(s);
  }

  lemma AllReadMeaning(hash: Hasher, supplies: seq<Supply>, s: map<int, Instance>, values: seq<Instance>)
    requires forall h | h in s :: s[h] in values
    requires forall v | v in values :: exists h :: h in s && s[h] == v
    ensures AllRead(hash, supplies, values) <==> ReadsAll(hash, supplies, s)
  {
    if h :| h in s && !Reads(hash, supplies, s[h]) {
      var i :| 0 <= i < |values| && values[i] == s[h];
    }
    if i :| 0 <= i < |values| && !Reads(hash, supplies, values[i]) {
      assert values[i] in values;
      var h :| h in s && s[h] == values[i];
    }
  }

  lemma ReadsReference(hash: Hasher, providers: seq<Provider>, s: map<int, Instance>)
    ensures AllRead(hash, SuppliesOf(hash, providers), InKeyOrder(s)) <==> Read(hash, providers, s).Some?
  {
    var values := InKeyOrder(s);
    forall v
      ensures v in values <==> exists h :: h in s && s[h] == v
    {
      InKeyOrderMeaning(s, v);
    }
    AllReadMeaning(hash, SuppliesOf(hash, providers), s, values);
  }

  /** What comes before a position in a list of ascending keys is what has a smaller key. */
  lemma FirstRead(hash: Hasher, supplies: seq<Supply>, s: map<int, Instance>, keys: seq<int>, values: seq<Instance>,
                  i: nat)
    requires |keys| == |values| && i < |keys| && forall a, b | 0 <= a < b < |keys| :: keys[a] < keys[b]
    requires forall k :: k in s <==> k in keys
    requires forall a | 0 <= a < |keys| :: keys[a] in s && s[keys[a]] == values[a]
    ensures AllRead(hash, supplies, values[..i]) <==> forall k | k in s && k < keys[i] :: Reads(hash, supplies, s[k])
  {
    if AllRead(hash, supplies, values[..i]) {
      forall k | k in s && k < keys[i]
        ensures Reads(hash, supplies, s[k])
      {
        var a :| 0 <= a < |keys| && keys[a] == k;
        assert values[..i][a] == s[k];
      }
    } else {
      var a :| 0 <= a < i && !Reads(hash, supplies, values[..i][a]);
      assert keys[a] < keys[i] && keys[a] in s;
    }
  }

  lemma ReadUntilAt(hash: Hasher, supplies: seq<Supply>, s: map<int, Instance>, i: nat)
    requires i < |InKeyOrder(s)|
    ensures |InKeyOrder(ReadUntil(hash, supplies, s))| == |InKeyOrder(s)|
    ensures InKeyOrder(ReadUntil(hash, supplies, s))[i] == ReadValues(hash, supplies, InKeyOrder(s))[i]
  {
    var keys, values, after := SortedInts(s.Keys), InKeyOrder(s), ReadUntil(hash, supplies, s);
    assert after.Keys == s.Keys;
    forall a | 0 <= a < |keys|
      ensures keys[a] in s && s[keys[a]] == values[a] && InKeyOrder(after)[a] == after[keys[a]]
    {
      InKeyOrderAt(s, a);
      InKeyOrderAt(after, a);
    }
    FirstRead(hash, supplies, s, keys, values, i);
  }

  lemma SameValues(a: seq<Instance>, b: seq<Instance>)
    requires |a| == |b| && forall i | 0 <= i < |b| :: a[i] == b[i]
    ensures a == b
  {
  }

  lemma SameCount(hash: Hasher, supplies: seq<Supply>, s: map<int, Instance>)
    ensures |InKeyOrder(ReadUntil(hash, supplies, s))| == |InKeyOrder(s)|
    ensures |ReadValues(hash, supplies, InKeyOrder(s))| == |InKeyOrder(s)|
  {
    assert ReadUntil(hash, supplies, s).Keys == s.Keys;
  }

  lemma ReadValuesReference(hash: Hasher, supplies: seq<Supply>, s: map<int, Instance>)
    ensures ReadValues(hash, supplies, InKeyOrder(s)) == InKeyOrder(ReadUntil(hash, supplies, s))
  {
    var a, b := ReadValues(hash, supplies, InKeyOrder(s)), InKeyOrder(ReadUntil(hash, supplies, s));
    SameCount(hash, supplies, s);
    forall i | 0 <= i < |b|
      ensures a[i] == b[i]
    {
      ReadUntilAt(hash, supplies, s, i);
    }
    SameValues(a, b);
  }

  /**
   Reading the shared instances of a store is reading them as the reference does, with the same exceptions, and they
   are left as it says also by a read that throws.
   */
  lemma ReadIsReference(hash: Hasher, providers: seq<Provider>, s: map<int, Instance>)
    ensures AllRead(hash, SuppliesOf(hash, providers), InKeyOrder(s)) <==> Read(hash, providers, s).Some?
    ensures ReadValues(hash, SuppliesOf(hash, providers), InKeyOrder(s))
         == InKeyOrder(ReadUntil(hash, SuppliesOf(hash, providers), s))
  {
    ReadsReference(hash, providers, s);
    ReadValuesReference(hash, SuppliesOf(hash, providers), s);
  }

  lemma ReadAgain(hash: Hasher, supplies: seq<Supply>, values: seq<Instance>)
    requires AllRead(hash, supplies, values)
    ensures AllRead(hash, supplies, ReadValues(hash, supplies, values))
    ensures ReadValues(hash, supplies, ReadValues(hash, supplies, values)) == ReadValues(hash, supplies, values)
  {
    forall i | 0 <= i < |values|
      ensures Reads(hash, supplies, ReadOne(hash, supplies, values[i]))
      ensures ReadOne(hash, supplies, ReadOne(hash, supplies, values[i])) == ReadOne(hash, supplies, values[i])
    {
      ReadOneTwice(hash, supplies, values[i]);
    }
    ReadToTheEnd(hash, supplies, values);
    ReadToTheEnd(hash, supplies, ReadBefore(hash, supplies, values, |values|));
  }

  /**
   Reading an entity again: if the first read succeeds so does the second. It returns the same nodes in the same order,
   and they and all instances show what they showed after the first.
   */
  method GetInstancesTwice(entity: Entity, ghost values: seq<Instance>, ghost views: seq<Instance>)
    returns (ok: bool, first: seq<DBusInstance>, again: bool, second: seq<DBusInstance>, ghost served: seq<Instance>)
    requires entity.Valid() && Show(entity.order, values) && entity.Ready(views)
    modifies entity.ReadNodes()`memberInstances, (set f: FieldInstance | f.owner in entity.ReadNodes())`value
    modifies entity.notAvailable`value
    ensures ok == AllRead(entity.hash, entity.Supplies(views), values)
    ensures entity.Valid() && entity.Ready(served) && AllReset(served) == AllReset(views)
    ensures ok ==> again && second == first
    ensures Show(entity.order, ReadValues(entity.hash, entity.Supplies(views), values))
    ensures ok ==>
      Hold(second, EmittedFrom(entity.hash, ReadValues(entity.hash, entity.Supplies(views), values)))
  {
    ghost var nodes := NodesIn(entity.order);
    ok, first, served := entity.GetInstances(values, views);
    again, second := false, [];
    if ok {
      ghost var shown := ReadValues(entity.hash, entity.Supplies(views), values);
      ReadAgain(entity.hash, entity.Supplies(views), values);
      NodesHoused(entity.order, nodes);
      again, second, served := entity.GetInstances(shown, served);
    }
  }
}
