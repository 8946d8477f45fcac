/** Runs of the cache: new instances, fills, default resets and link rules in any order over shared instances. */
module CacheRuns {
  import opened EntityCache
  import opened EntitySpec
  import opened EntityStores
  import opened FieldValues
  import opened LinkRules
  import opened Options
  import opened Queries

  /** An instance, or one of its children by hash. */
  datatype NodeRef = NodeRef(index: nat, child: Option<int>)

  datatype Operation =
    | Create(query: Query, hash: Hasher, service: string, path: string)
    | FillMembers(index: nat, interface: string, properties: Properties)
    | InitDefaults(index: nat)
    | Link(rule: LinkRule, supplementing: NodeRef, target: NodeRef)

  function Resolve(tops: seq<DBusInstance>, r: NodeRef): Option<DBusInstance>
    reads (set o | o in tops)`complexInstances
  {
    if r.index >= |tops| then None
    else
      var o := tops[r.index];
      assert o in tops;
      if r.child.None? then Some(o)
      else if r.child.value in o.complexInstances then Some(o.complexInstances[r.child.value])
      else None
  }

  /** The instances of one system: they share the not-available field object, which reads `N/A`. */
  ghost predicate Sound(tops: seq<DBusInstance>, notAvailable: FieldInstance)
    reads (set o | o in tops)`memberInstances, (set o | o in tops)`complexInstances
    reads (set o, c | o in tops && c in o.Kids() :: c)`memberInstances
    reads (set o, c | o in tops && c in o.Kids() :: c)`complexInstances
    reads notAvailable
  {
    && Separate(tops) && AllValid(tops) && notAvailable.value == NOT_AVAILABLE
    && forall i | 0 <= i < |tops| :: tops[i].notAvailable == notAvailable
  }

  method FillOne(tops: seq<DBusInstance>, o: DBusInstance, notAvailable: FieldInstance, interface: string,
                 properties: Properties) returns (ok: bool)
    requires Sound(tops, notAvailable) && o in tops
    modifies o`memberInstances, o`complexInstances, (set f: FieldInstance | f.owner == o)`value
    ensures Sound(tops, notAvailable)
    ensures forall c | c in o.Kids() :: c in old(o.Kids()) || fresh(c)
  {
    ok := FillOneOf(tops, o, interface, properties);
  }

  method ResetInPool(tops: seq<DBusInstance>, o: DBusInstance, notAvailable: FieldInstance)
    requires Sound(tops, notAvailable) && o in tops
    modifies o`memberInstances, (set f: FieldInstance | f.owner == o)`value
    ensures Sound(tops, notAvailable)
  {
    ResetOne(tops, o);
  }

  ghost predicate IsNode(tops: seq<DBusInstance>, n: DBusInstance)
    reads (set o | o in tops)`complexInstances
  {
    n in tops || n in KidsIn(tops)
  }

  lemma NodeIsSound(tops: seq<DBusInstance>, notAvailable: FieldInstance, n: DBusInstance)
    requires Sound(tops, notAvailable) && IsNode(tops, n)
    ensures n.ValidNode() && n.notAvailable == notAvailable
  {
    if n in KidsIn(tops) {
      var p :| p in tops && n in p.Kids();
      var k :| k in p.complexInstances && p.complexInstances[k] == n;
      assert p.IsChild(n, k);
    }
  }

  method LinkNodes(tops: seq<DBusInstance>, notAvailable: FieldInstance, rule: LinkRule, supplementing: DBusInstance,
                   target: DBusInstance) returns (ok: bool)
    requires Sound(tops, notAvailable) && IsNode(tops, supplementing) && IsNode(tops, target)
    modifies target`memberInstances, (set f: FieldInstance | f.owner == target)`value, notAvailable`value
    ensures Sound(tops, notAvailable)
  {
    NodeIsSound(tops, notAvailable, supplementing);
    NodeIsSound(tops, notAvailable, target);
    ok := ApplyRule(rule, supplementing, target);
    forall j | 0 <= j < |tops|
      ensures tops[j].Valid()
    {
      forall k | k in tops[j].complexInstances
        ensures tops[j].IsChild(tops[j].complexInstances[k], k)
      {
        assert old(tops[j].IsChild(tops[j].complexInstances[k], k));
      }
    }
  }

  lemma ResolvedIsNode(tops: seq<DBusInstance>, r: NodeRef)
    requires Resolve(tops, r).Some?
    ensures IsNode(tops, Resolve(tops, r).value)
  {
    var o := tops[r.index];
    if r.child.Some? {
      assert o in tops;
      var k: int := r.child.value;
      assert k in o.complexInstances && o.complexInstances[k] in o.Kids();
    }
  }

  /** The nodes of the later pool are those of the earlier one or new. */
  twostate predicate Grown(tops: seq<DBusInstance>, new later: seq<DBusInstance>)
    reads (set o | o in tops)`complexInstances, (set o | o in later)`complexInstances
  {
    && (forall o | o in later :: o in tops || fresh(o))
    && (forall c | c in KidsIn(later) :: c in old(KidsIn(tops)) || fresh(c))
  }

  lemma SoundWith(tops: seq<DBusInstance>, notAvailable: FieldInstance, o: DBusInstance)
    requires Sound(tops, notAvailable) && o.Valid() && o.parent == null && o !in tops && o.notAvailable == notAvailable
    ensures Sound(tops + [o], notAvailable)
  {
    var all := tops + [o];
    forall i | 0 <= i < |all|
      ensures all[i].Valid() && all[i].parent == null && all[i].notAvailable == notAvailable
    {
      if i < |tops| {
        assert all[i] == tops[i];
      }
    }
  }

  method AddInstance(tops: seq<DBusInstance>, notAvailable: FieldInstance, query: Query, hash: Hasher, service: string,
                     path: string) returns (later: seq<DBusInstance>)
    requires Sound(tops, notAvailable) && notAvailable.owner == null
    ensures Sound(later, notAvailable) && Grown(tops, later)
  {
    var o := new DBusInstance(query, hash, service, path, notAvailable, null);
    SoundWith(tops, notAvailable, o);
    later := tops + [o];
  }

  /**
   One operation on the pool. A new instance joins it; an operation on instances that do not exist does nothing; one
   that throws ends there.
   */
  method Perform(tops: seq<DBusInstance>, notAvailable: FieldInstance, op: Operation)
    returns (later: seq<DBusInstance>)
    requires Sound(tops, notAvailable) && notAvailable.owner == null
    modifies (set o | o in tops)`memberInstances, (set o | o in tops)`complexInstances, KidsIn(tops)`memberInstances
    modifies (set f: FieldInstance | f.owner in tops || f.owner in KidsIn(tops))`value, notAvailable`value
    ensures Sound(later, notAvailable) && Grown(tops, later)
  {
    later := tops;
    match op {
      case Create(query, hash, service, path) =>
        later := AddInstance(tops, notAvailable, query, hash, service, path);
      case FillMembers(index, interface, properties) =>
        if index < |tops| {
          var ok := FillOne(tops, tops[index], notAvailable, interface, properties);
        }
      case InitDefaults(index) =>
        if index < |tops| {
          ResetInPool(tops, tops[index], notAvailable);
        }
      case Link(rule, from, to) =>
        var supplementing, target := Resolve(tops, from), Resolve(tops, to);
        if supplementing.Some? && target.Some? {
          ResolvedIsNode(tops, from);
          ResolvedIsNode(tops, to);
          var ok := LinkNodes(tops, notAvailable, rule, supplementing.value, target.value);
        }
    }
  }

  /** The shared field object reads `N/A` in every state a run of operations reaches. */
  method Run(tops: seq<DBusInstance>, notAvailable: FieldInstance, operations: seq<Operation>)
    returns (pool: seq<DBusInstance>)
    requires Sound(tops, notAvailable) && notAvailable.owner == null
    modifies (set o | o in tops)`memberInstances, (set o | o in tops)`complexInstances, KidsIn(tops)`memberInstances
    modifies (set f: FieldInstance | f.owner in tops || f.owner in KidsIn(tops))`value, notAvailable`value
    ensures Sound(pool, notAvailable) && notAvailable.value == NOT_AVAILABLE
  {
    pool := tops;
    for i := 0 to |operations|
      invariant Sound(pool, notAvailable) && Grown(tops, pool)
    {
      pool := Perform(pool, notAvailable, operations[i]);
    }
  }
}
