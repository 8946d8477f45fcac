/** Reading an entity through its providers: reads are idempotent, and what status and versions a read reports. */
module EntityReads {
  import opened EntityLinks
  import opened EntitySpec
  import opened FieldValues
  import opened Options
  import opened Orders

  // Reading twice

  /** The providers after a read: their defaults are reset. */
  function ProvidersAfter(providers: seq<Provider>): seq<Provider> {
    seq(|providers|, i requires 0 <= i < |providers| =>
      providers[i].(instances := AllWithDefaults(providers[i].instances)))
  }

  lemma DefaultsTwice(instances: map<int, Instance>)
    ensures AllWithDefaults(AllWithDefaults(instances)) == AllWithDefaults(instances)
  {
    forall h | h in instances
      ensures WithDefaults(WithDefaults(instances[h])) == WithDefaults(instances[h])
    {
      WithDefaultsTwice(instances[h]);
    }
  }

  lemma ProvidersSettle(providers: seq<Provider>)
    ensures ProvidersAfter(ProvidersAfter(providers)) == ProvidersAfter(providers)
  {
    forall i | 0 <= i < |providers|
      ensures ProvidersAfter(ProvidersAfter(providers))[i] == ProvidersAfter(providers)[i]
    {
      DefaultsTwice(providers[i].instances);
    }
  }

  /** Providers that have been read supply what they supplied before. */
  lemma SameSupplies(hash: Hasher, providers: seq<Provider>)
    ensures SuppliesOf(hash, ProvidersAfter(providers)) == SuppliesOf(hash, providers)
  {
    forall i | 0 <= i < |providers|
      ensures SuppliesOf(hash, ProvidersAfter(providers))[i] == SuppliesOf(hash, providers)[i]
    {
      DefaultsTwice(providers[i].instances);
    }
  }

  lemma SupplementTwice(supplies: seq<Supply>, m: Members, defaults: Members)
    requires Supplemented(supplies, m + defaults).Some?
    ensures Supplemented(supplies, Supplemented(supplies, m + defaults).value + defaults)
         == Supplemented(supplies, m + defaults)
  {
    SupplementedIsFold(supplies, m + defaults);
    LinkTwice(AllLinks(supplies), m, defaults);
    SupplementedIsFold(supplies, Supplemented(supplies, m + defaults).value + defaults);
  }

  lemma NothingAdded(m: Members)
    ensures m + map[] == m
  {
  }

  /** A child has no defaults to be reset. */
  lemma NodeTwice(supplies: seq<Supply>, m: Members)
    requires Supplemented(supplies, m).Some?
    ensures Supplemented(supplies, Supplemented(supplies, m).value) == Supplemented(supplies, m)
  {
    var none: Members := map[];
    NothingAdded(m);
    NothingAdded(Supplemented(supplies, m).value);
    SupplementTwice(supplies, m, none);
  }

  /** A read that succeeds joins every node but a hidden child. */
  lemma ReadNodes(hash: Hasher, supplies: seq<Supply>, o: Instance)
    requires Reads(hash, supplies, o)
    ensures var d, once := WithDefaults(o), ReadOne(hash, supplies, o);
      && once.query == d.query && once.children.Keys == d.children.Keys
      && once.node.service == d.node.service && once.node.path == d.node.path
      && Some(once.node.members) == Supplemented(supplies, d.node.members)
      && forall h | h in d.children :: once.children[h] ==
           if h == d.node.Hash(hash) then d.children[h] else SupplementedNode(supplies, d.children[h])
  {
    var d := WithDefaults(o);
    var own := d.node.Hash(hash);
    ReadsReach(hash, supplies, o, own);
    assert NodesOf(hash, d)[own] == d.node;
    SupplementedThrough(supplies, d.node.members);
    forall h | h in d.children
      ensures Reaches(hash, supplies, o, h)
    {
      ReadsReach(hash, supplies, o, h);
    }
  }

  lemma ReadOneTwice(hash: Hasher, supplies: seq<Supply>, o: Instance)
    requires Reads(hash, supplies, o)
    ensures Reads(hash, supplies, ReadOne(hash, supplies, o))
    ensures ReadOne(hash, supplies, ReadOne(hash, supplies, o)) == ReadOne(hash, supplies, o)
  {
    var d, once := WithDefaults(o), ReadOne(hash, supplies, o);
    var again := WithDefaults(once);
    var own := d.node.Hash(hash);
    ReadNodes(hash, supplies, o);
    assert NodesOf(hash, d)[own] == d.node;
    SupplementTwice(supplies, o.node.members, o.query.defaults);
    forall h | h in d.children && h != own
      ensures Supplemented(supplies, once.children[h].members) == Some(once.children[h].members)
      ensures SupplementedNode(supplies, once.children[h]) == once.children[h]
    {
      assert NodesOf(hash, d)[h] == d.children[h];
      SupplementedThrough(supplies, d.children[h].members);
      NodeTwice(supplies, d.children[h].members);
      SupplementedThrough(supplies, once.children[h].members);
    }
    forall h | h in NodesOf(hash, again)
      ensures Supplemented(supplies, NodesOf(hash, again)[h].members).Some?
    {
      if h != own {
        assert NodesOf(hash, again)[h] == once.children[h];
      }
    }
    ReadNodes(hash, supplies, once);
  }

  /**
   Reading is idempotent, for every entity and every list of providers: a second read leaves every instance of the
   entity and of its providers as it is, although it resets the defaults and runs every link rule again.
   */
  lemma ReadTwice(hash: Hasher, providers: seq<Provider>, instances: map<int, Instance>)
    requires Read(hash, providers, instances).Some?
    ensures Read(hash, ProvidersAfter(providers), Read(hash, providers, instances).value)
         == Read(hash, providers, instances)
    ensures ProvidersAfter(ProvidersAfter(providers)) == ProvidersAfter(providers)
  {
    var once, supplies := Read(hash, providers, instances).value, SuppliesOf(hash, providers);
    ProvidersSettle(providers);
    SameSupplies(hash, providers);
    ReadUntilEnd(hash, supplies, instances);
    forall h | h in instances
      ensures Reads(hash, supplies, once[h]) && ReadOne(hash, supplies, once[h]) == once[h]
    {
      ReadOneTwice(hash, supplies, instances[h]);
    }
    ReadIs(hash, ProvidersAfter(providers), once);
  }

  /** A read that succeeds reads every instance. */
  lemma ReadUntilEnd(hash: Hasher, supplies: seq<Supply>, instances: map<int, Instance>)
    requires ReadsAll(hash, supplies, instances)
    ensures ReadUntil(hash, supplies, instances).Keys == instances.Keys
    ensures forall h | h in instances ::
      ReadUntil(hash, supplies, instances)[h] == ReadOne(hash, supplies, instances[h])
  {
  }

  lemma ReadIs(hash: Hasher, providers: seq<Provider>, instances: map<int, Instance>)
    requires forall h | h in instances :: Reads(hash, SuppliesOf(hash, providers), instances[h])
    requires forall h | h in instances :: ReadOne(hash, SuppliesOf(hash, providers), instances[h]) == instances[h]
    ensures Read(hash, providers, instances) == Some(instances)
  {
    var supplies := SuppliesOf(hash, providers);
    assert ReadsAll(hash, supplies, instances);
    ReadUntilEnd(hash, supplies, instances);
    SameInstances(ReadUntil(hash, supplies, instances), instances);
  }

  lemma SameInstances(a: map<int, Instance>, b: map<int, Instance>)
    requires a.Keys == b.Keys && forall h | h in b :: a[h] == b[h]
    ensures a == b
  {
    assert forall h | h in a :: h in b && a[h] == b[h];
  }

  /** The instances after a number of reads; from the second one on the providers have been reset. */
  function ReadTimes(hash: Hasher, providers: seq<Provider>, instances: map<int, Instance>, n: nat)
    : Option<map<int, Instance>>
  {
    if n == 0 then Some(instances)
    else match ReadTimes(hash, providers, instances, n - 1)
      case None => None
      case Some(before) => Read(hash, if n == 1 then providers else ProvidersAfter(providers), before)
  }

  /** A query reads its entities many times: it sees the same instances, in the same order, as if it had read once. */
  lemma {:induction false} ManyReadsAreOne(
    hash: Hasher, providers: seq<Provider>, instances: map<int, Instance>, n: nat)
    requires n > 0
    ensures ReadTimes(hash, providers, instances, n) == Read(hash, providers, instances)
  {
    if n == 1 {
      assert ReadTimes(hash, providers, instances, 0) == Some(instances);
    } else {
      ManyReadsAreOne(hash, providers, instances, n - 1);
      if Read(hash, providers, instances).Some? {
        ReadTwice(hash, providers, instances);
      }
    }
  }

  // What a provider supplies

  lemma InOrderMeaning(nodes: map<int, Node>, x: Members)
    ensures x in MembersInOrder(nodes) <==> exists k :: k in nodes && nodes[k].members == x
  {
    var ordered := InKeyOrder(nodes);
    if k :| k in nodes && nodes[k].members == x {
      InKeyOrderMeaning(nodes, nodes[k]);
      var i :| 0 <= i < |ordered| && ordered[i] == nodes[k];
      assert MembersInOrder(nodes)[i] == x;
    }
    if x in MembersInOrder(nodes) {
      var i :| 0 <= i < |ordered| && MembersInOrder(nodes)[i] == x;
      InKeyOrderMeaning(nodes, ordered[i]);
    }
  }

  ghost predicate Supplies(hash: Hasher, o: Instance, x: Members) {
    exists k :: k in NodesOf(hash, o) && NodesOf(hash, o)[k].members == x
  }

  ghost predicate SomeSupplies(hash: Hasher, list: seq<Instance>, x: Members) {
    exists o :: o in list && Supplies(hash, o, x)
  }

  lemma SuppliesStep(hash: Hasher, list: seq<Instance>, last: Instance, x: Members)
    ensures SomeSupplies(hash, list + [last], x) <==> SomeSupplies(hash, list, x) || Supplies(hash, last, x)
  {
    assert forall o :: o in list + [last] <==> o in list || o == last;
  }

  lemma EmittedStep(hash: Hasher, list: seq<Instance>, last: Instance, x: Members)
    ensures x in EmittedFrom(hash, list + [last]) <==> x in EmittedFrom(hash, list) || Supplies(hash, last, x)
  {
    assert (list + [last])[..|list|] == list;
    InOrderMeaning(NodesOf(hash, last), x);
  }

  lemma {:induction false} EmittedFromMeaning(hash: Hasher, list: seq<Instance>, x: Members)
    ensures x in EmittedFrom(hash, list) <==> SomeSupplies(hash, list, x)
  {
    if list == [] {
      assert EmittedFrom(hash, list) == [];
    } else {
      var front, last := list[..|list| - 1], list[|list| - 1];
      assert list == front + [last];
      EmittedFromMeaning(hash, front, x);
      EmittedStep(hash, front, last, x);
      SuppliesStep(hash, front, last, x);
    }
  }

  /** The supplements of a provider are the nodes of its instances, its defaults reset. */
  lemma SupplementsMeaning(hash: Hasher, provider: map<int, Instance>, x: Members)
    ensures x in Supplements(hash, provider) <==>
      exists h :: h in provider && Supplies(hash, WithDefaults(provider[h]), x)
  {
    var all := AllWithDefaults(provider);
    EmittedFromMeaning(hash, InKeyOrder(all), x);
    if h :| h in provider && Supplies(hash, WithDefaults(provider[h]), x) {
      InKeyOrderMeaning(all, all[h]);
    }
    if SomeSupplies(hash, InKeyOrder(all), x) {
      var o :| o in InKeyOrder(all) && Supplies(hash, o, x);
      InKeyOrderMeaning(all, o);
    }
  }
}
