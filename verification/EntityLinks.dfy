/** What joining an entity with its supplement providers comes to, and why reading it again changes nothing. */
module EntityLinks {
  import opened EntitySpec
  import opened FieldValues
  import opened Options
  import opened Queries
  import opened Statuses

  /** One application of a link rule. */
  datatype Link = Link(rule: LinkRule, supplement: Members)

  function LinksOf(rule: LinkRule, supplements: seq<Members>): seq<Link> {
    seq(|supplements|, i requires 0 <= i < |supplements| => Link(rule, supplements[i]))
  }

  /** Every link of a read, in order. */
  function AllLinks(supplies: seq<Supply>): seq<Link> {
    if supplies == [] then []
    else
      var n := |supplies| - 1;
      AllLinks(supplies[..n]) + LinksOf(supplies[n].rule, supplies[n].supplements)
  }

  function Fold(links: seq<Link>, m: Members): Option<Members> {
    if links == [] then Some(m)
    else
      var n := |links| - 1;
      match Fold(links[..n], m)
      case None => None
      case Some(before) => links[n].rule.Apply(links[n].supplement, before)
  }

  lemma FoldSnoc(links: seq<Link>, link: Link, m: Members)
    ensures Fold(links + [link], m)
         == match Fold(links, m) { case None => None case Some(b) => link.rule.Apply(link.supplement, b) }
  {
    assert (links + [link])[..|links|] == links;
  }

  lemma LinksSnoc(before: seq<Link>, rule: LinkRule, supplements: seq<Members>)
    requires supplements != []
    ensures var n := |supplements| - 1;
      before + LinksOf(rule, supplements)
      == (before + LinksOf(rule, supplements[..n])) + [Link(rule, supplements[n])]
  {
  }

  lemma {:induction false} FoldOfLinked(before: seq<Link>, rule: LinkRule, supplements: seq<Members>, m: Members)
    ensures Fold(before + LinksOf(rule, supplements), m)
         == match Fold(before, m) { case None => None case Some(b) => Linked(rule, supplements, b) }
  {
    if supplements == [] {
      assert before + LinksOf(rule, supplements) == before;
    } else {
      var n := |supplements| - 1;
      FoldOfLinked(before, rule, supplements[..n], m);
      FoldSnoc(before + LinksOf(rule, supplements[..n]), Link(rule, supplements[n]), m);
      LinksSnoc(before, rule, supplements);
    }
  }

  lemma {:induction false} SupplementedIsFold(supplies: seq<Supply>, m: Members)
    ensures Supplemented(supplies, m) == Fold(AllLinks(supplies), m)
  {
    if supplies != [] {
      var n := |supplies| - 1;
      SupplementedIsFold(supplies[..n], m);
      FoldOfLinked(AllLinks(supplies[..n]), supplies[n].rule, supplies[n].supplements, m);
    }
  }

  lemma OneSupply(supply: Supply, m: Members)
    ensures AllLinks([supply]) == LinksOf(supply.rule, supply.supplements)
    ensures Supplemented([supply], m) == Linked(supply.rule, supply.supplements, m)
    ensures SupplementedUntil([supply], m) == LinkedUntil(supply.rule, supply.supplements, m)
  {
    assert [supply][..0] == [];
    assert Supplemented([], m) == Some(m);
    assert AllLinks([]) + LinksOf(supply.rule, supply.supplements) == LinksOf(supply.rule, supply.supplements);
  }

  // Closed form

  /** What one link does to a status, given the path of the target. */
  function StatusStep(link: Link, path: FieldValue, status: FieldValue): Option<FieldValue> {
    var causer, candidate := Field(link.supplement, FIELD_CAUSER), Field(link.supplement, FIELD_STATUS);
    if link.rule.VersionsRule? then Some(status)
    else if !path.StrValue? || !causer.StrValue? || !candidate.StrValue? || !status.StrValue? then Some(status)
    else if path != causer then Some(status)
    else match HigherStatus(status.text, candidate.text)
      case None => None
      case Some(s) => Some(StrValue(s))
  }

  function StatusAfter(links: seq<Link>, path: FieldValue, status: FieldValue): Option<FieldValue> {
    if links == [] then Some(status)
    else
      var n := |links| - 1;
      match StatusAfter(links[..n], path, status)
      case None => None
      case Some(before) => StatusStep(links[n], path, before)
  }

  function VersionStep(link: Link): Members {
    var purpose := Field(link.supplement, FIELD_PURPOSE);
    if link.rule.StatusRule? || !purpose.StrValue? then map[]
    else match PurposeOf(purpose.text)
      case Bmc => map[FIELD_VERSION_BMC := Field(link.supplement, FIELD_VERSION)]
      case Bios => map[FIELD_VERSION_BIOS := Field(link.supplement, FIELD_VERSION)]
      case Unknown => map[]
  }

  /** The versions the links set; for each purpose the last one wins. */
  function Versions(links: seq<Link>): Members {
    if links == [] then map[]
    else
      var n := |links| - 1;
      Versions(links[..n]) + VersionStep(links[n])
  }

  function WithStatus(m: Members, status: FieldValue): Members {
    if FIELD_STATUS in m then m[FIELD_STATUS := status] else m
  }

  lemma VersionStepOnly(link: Link)
    ensures VersionStep(link).Keys <= {FIELD_VERSION_BMC, FIELD_VERSION_BIOS}
  {
  }

  lemma {:induction false} VersionsOnly(links: seq<Link>)
    ensures Versions(links).Keys <= {FIELD_VERSION_BMC, FIELD_VERSION_BIOS}
  {
    if links != [] {
      VersionsOnly(links[..|links| - 1]);
      VersionStepOnly(links[|links| - 1]);
    }
  }

  lemma NotAVersion()
    ensures FIELD_STATUS !in {FIELD_VERSION_BMC, FIELD_VERSION_BIOS}
    ensures META_OBJECT_PATH !in {FIELD_VERSION_BMC, FIELD_VERSION_BIOS, FIELD_STATUS}
  {
    assert |FIELD_STATUS| == 6 && |META_OBJECT_PATH| == 25;
  }

  lemma UnknownWord()
    ensures Rank("N/A").None?
  {
    assert |ToLower("N/A")| == 3;
    assert ToLower("N/A")[0] == 'n';
  }

  lemma KeepStatus(m: Members, versions: Members)
    requires FIELD_STATUS !in versions
    ensures WithStatus(m + versions, Field(m, FIELD_STATUS)) == m + versions
  {
  }

  lemma OverlayTwice(m: Members, v: Members, w: Members, s: FieldValue, t: FieldValue)
    requires FIELD_STATUS !in v && FIELD_STATUS !in w
    ensures WithStatus(WithStatus(m + v, s) + w, t) == WithStatus(m + (v + w), t)
  {
  }

  lemma FieldsOfOverlay(m: Members, versions: Members, s: FieldValue)
    requires versions.Keys <= {FIELD_VERSION_BMC, FIELD_VERSION_BIOS}
    ensures Field(WithStatus(m + versions, s), META_OBJECT_PATH) == Field(m, META_OBJECT_PATH)
    ensures Field(WithStatus(m + versions, s), FIELD_STATUS) == if FIELD_STATUS in m then s else NOT_AVAILABLE
  {
    NotAVersion();
  }

  /** One link changes at most the status, as `StatusStep` says, and the versions. */
  lemma ApplyShape(link: Link, m: Members)
    ensures link.rule.Apply(link.supplement, m)
         == match StatusStep(link, Field(m, META_OBJECT_PATH), Field(m, FIELD_STATUS)) {
              case None => None
              case Some(s) => Some(WithStatus(m + VersionStep(link), s)) }
  {
    NotAVersion();
    KeepStatus(m, VersionStep(link));
    if link.rule.StatusRule? {
      UnknownWord();
      assert m + map[] == m;
    } else if Field(link.supplement, FIELD_PURPOSE).StrValue? {
      SetIsOverlay(m, FIELD_VERSION_BMC, Field(link.supplement, FIELD_VERSION));
      SetIsOverlay(m, FIELD_VERSION_BIOS, Field(link.supplement, FIELD_VERSION));
      assert m + map[] == m;
    } else {
      assert m + map[] == m;
    }
  }

  lemma SetIsOverlay(m: Members, key: string, value: FieldValue)
    ensures m[key := value] == m + map[key := value]
  {
  }

  /** All links together: the versions overlay the members and the status is the folded one. */
  lemma {:induction false} FoldShape(links: seq<Link>, m: Members)
    ensures Fold(links, m)
         == match StatusAfter(links, Field(m, META_OBJECT_PATH), Field(m, FIELD_STATUS)) {
              case None => None
              case Some(s) => Some(WithStatus(m + Versions(links), s)) }
  {
    if links == [] {
      KeepStatus(m, map[]);
      assert m + map[] == m;
    } else {
      var n := |links| - 1;
      FoldShape(links[..n], m);
      var status := StatusAfter(links[..n], Field(m, META_OBJECT_PATH), Field(m, FIELD_STATUS));
      if status.Some? {
        VersionsOnly(links[..n]);
        if FIELD_STATUS !in m {
          StatusStaysMissing(links[..n], m);
        }
        ShapeStep(links[n], m, Versions(links[..n]), status.value);
      }
    }
  }

  /** A target without a status never gets one: the not-available value is no status. */
  lemma {:induction false} StatusStaysMissing(links: seq<Link>, m: Members)
    requires StatusAfter(links, Field(m, META_OBJECT_PATH), Field(m, FIELD_STATUS)).Some? && FIELD_STATUS !in m
    ensures StatusAfter(links, Field(m, META_OBJECT_PATH), Field(m, FIELD_STATUS)) == Some(NOT_AVAILABLE)
  {
    if links != [] {
      StatusStaysMissing(links[..|links| - 1], m);
      UnknownWord();
    }
  }

  lemma ShapeStep(link: Link, m: Members, versions: Members, status: FieldValue)
    requires versions.Keys <= {FIELD_VERSION_BMC, FIELD_VERSION_BIOS}
    requires FIELD_STATUS !in m ==> status == NOT_AVAILABLE
    ensures link.rule.Apply(link.supplement, WithStatus(m + versions, status))
         == match StatusStep(link, Field(m, META_OBJECT_PATH), status) {
              case None => None
              case Some(s) => Some(WithStatus(m + (versions + VersionStep(link)), s)) }
  {
    var before := WithStatus(m + versions, status);
    FieldsOfOverlay(m, versions, status);
    ApplyShape(link, before);
    NotAVersion();
    VersionStepOnly(link);
    var s := StatusStep(link, Field(m, META_OBJECT_PATH), status);
    if s.Some? {
      OverlayTwice(m, versions, VersionStep(link), status, s.value);
    }
  }

  // The status is a least upper bound

  /** A link that bears on the status of the object at `path`. */
  predicate Relevant(link: Link, path: FieldValue) {
    && link.rule.StatusRule? && path.StrValue?
    && Field(link.supplement, FIELD_CAUSER) == path && Field(link.supplement, FIELD_STATUS).StrValue?
  }

  /** The rank of the status a link brings. */
  function Candidate(link: Link): Option<nat> {
    var v := Field(link.supplement, FIELD_STATUS);
    if v.StrValue? then Rank(v.text) else None
  }

  lemma StatusStepMeaning(link: Link, path: FieldValue, status: string)
    ensures !Relevant(link, path) ==> StatusStep(link, path, StrValue(status)) == Some(StrValue(status))
    ensures Relevant(link, path) && (Candidate(link).None? || Rank(status).None?)
        ==> StatusStep(link, path, StrValue(status)) == None
    ensures Relevant(link, path) && Candidate(link).Some? && Rank(status).Some? ==>
      var top := if Rank(status).value >= Candidate(link).value then Rank(status).value else Candidate(link).value;
      StatusStep(link, path, StrValue(status)) == Some(StrValue(Spelling(top))) && Rank(Spelling(top)) == Some(top)
  {
    SpellingHasRank(0);
    SpellingHasRank(1);
    SpellingHasRank(2);
  }

  /** The folded status is an upper bound of the start and of every relevant candidate, and is one of them. */
  ghost predicate IsJoin(links: seq<Link>, path: FieldValue, start: string, status: string) {
    && Rank(status).Some? && Rank(start).Some?
    && Rank(status).value >= Rank(start).value
    && (forall l | l in links && Relevant(l, path) :: Candidate(l).Some? && Candidate(l).value <= Rank(status).value)
    && (status == start || exists l :: l in links && Relevant(l, path) && Candidate(l) == Rank(status))
  }

  /** From a canonical status the fold yields the least upper bound, exactly if every relevant status is known. */
  lemma {:induction false} StatusIsJoin(links: seq<Link>, path: FieldValue, start: nat)
    requires start <= 2
    ensures StatusAfter(links, path, StrValue(Spelling(start))).Some? <==>
      forall l | l in links && Relevant(l, path) :: Candidate(l).Some?
    ensures StatusAfter(links, path, StrValue(Spelling(start))).Some? ==>
      exists rank: nat | rank <= 2 ::
        StatusAfter(links, path, StrValue(Spelling(start))) == Some(StrValue(Spelling(rank)))
        && IsJoin(links, path, Spelling(start), Spelling(rank))
  {
    SpellingHasRank(start);
    if links != [] {
      var n := |links| - 1;
      StatusIsJoin(links[..n], path, start);
      assert links == links[..n] + [links[n]];
      if StatusAfter(links[..n], path, StrValue(Spelling(start))).Some? {
        var rank: nat :| rank <= 2
          && StatusAfter(links[..n], path, StrValue(Spelling(start))) == Some(StrValue(Spelling(rank)))
          && IsJoin(links[..n], path, Spelling(start), Spelling(rank));
        JoinStep(links[..n], links[n], path, start, rank);
      }
    } else {
      assert IsJoin(links, path, Spelling(start), Spelling(start));
    }
  }

  lemma JoinStep(links: seq<Link>, link: Link, path: FieldValue, start: nat, rank: nat)
    requires start <= 2 && rank <= 2 && IsJoin(links, path, Spelling(start), Spelling(rank))
    ensures StatusStep(link, path, StrValue(Spelling(rank))).Some? <==> (Relevant(link, path) ==> Candidate(link).Some?)
    ensures StatusStep(link, path, StrValue(Spelling(rank))).Some? ==>
      exists r: nat | r <= 2 :: StatusStep(link, path, StrValue(Spelling(rank))) == Some(StrValue(Spelling(r)))
        && IsJoin(links + [link], path, Spelling(start), Spelling(r))
  {
    SpellingHasRank(rank);
    SpellingHasRank(start);
    StatusStepMeaning(link, path, Spelling(rank));
    var all := links + [link];
    assert forall l :: l in all <==> l in links || l == link;
    if !Relevant(link, path) {
      assert IsJoin(all, path, Spelling(start), Spelling(rank));
    } else if Candidate(link).Some? {
      var r := if rank >= Candidate(link).value then rank else Candidate(link).value;
      SpellingHasRank(r);
      if r == Candidate(link).value {
        assert link in all && Relevant(link, path) && Candidate(link) == Rank(Spelling(r));
      }
      assert IsJoin(all, path, Spelling(start), Spelling(r));
    }
  }

  lemma SpellingsDiffer(a: nat, b: nat)
    requires a <= 2 && b <= 2 && Rank(Spelling(a)) == Rank(Spelling(b))
    ensures a == b
  {
    SpellingHasRank(a);
    SpellingHasRank(b);
  }

  lemma JoinIsUnique(a: seq<Link>, b: seq<Link>, path: FieldValue, start: string, s: string, t: string)
    requires IsJoin(a, path, start, s) && IsJoin(b, path, start, t)
    requires forall l :: l in a <==> l in b
    ensures Rank(s) == Rank(t)
  {
  }

  /** The order in which the supplements come, and how often each does, is irrelevant to a status. */
  lemma StatusIgnoresOrder(a: seq<Link>, b: seq<Link>, path: FieldValue, start: nat)
    requires start <= 2 && forall l :: l in a <==> l in b
    ensures StatusAfter(a, path, StrValue(Spelling(start))) == StatusAfter(b, path, StrValue(Spelling(start)))
  {
    StatusIsJoin(a, path, start);
    StatusIsJoin(b, path, start);
    if StatusAfter(a, path, StrValue(Spelling(start))).Some? {
      var r: nat :| r <= 2 && StatusAfter(a, path, StrValue(Spelling(start))) == Some(StrValue(Spelling(r)))
        && IsJoin(a, path, Spelling(start), Spelling(r));
      var q: nat :| q <= 2 && StatusAfter(b, path, StrValue(Spelling(start))) == Some(StrValue(Spelling(q)))
        && IsJoin(b, path, Spelling(start), Spelling(q));
      JoinIsUnique(a, b, path, Spelling(start), Spelling(r), Spelling(q));
      SpellingsDiffer(r, q);
    }
  }

  // Reading twice

  lemma Absorbs(x: Link, y: Link, path: FieldValue, u: FieldValue, t: FieldValue)
    requires StatusStep(x, path, u) == Some(u) && StatusStep(y, path, u) == Some(t)
    ensures StatusStep(x, path, t) == Some(t)
  {
    if u.StrValue? {
      StatusStepMeaning(x, path, u.text);
      StatusStepMeaning(y, path, u.text);
      if t.StrValue? {
        StatusStepMeaning(x, path, t.text);
      }
    }
  }

  lemma StepIsIdempotent(y: Link, path: FieldValue, u: FieldValue, t: FieldValue)
    requires StatusStep(y, path, u) == Some(t)
    ensures StatusStep(y, path, t) == Some(t)
  {
    if u.StrValue? {
      StatusStepMeaning(y, path, u.text);
      if t.StrValue? {
        StatusStepMeaning(y, path, t.text);
      }
    }
  }

  lemma {:induction false} EachIsAbsorbed(links: seq<Link>, path: FieldValue, status: FieldValue)
    requires StatusAfter(links, path, status).Some?
    ensures forall l | l in links ::
      StatusStep(l, path, StatusAfter(links, path, status).value) == StatusAfter(links, path, status)
  {
    if links != [] {
      var n := |links| - 1;
      EachIsAbsorbed(links[..n], path, status);
      var u, t := StatusAfter(links[..n], path, status).value, StatusAfter(links, path, status).value;
      forall l | l in links
        ensures StatusStep(l, path, t) == Some(t)
      {
        if l == links[n] {
          StepIsIdempotent(l, path, u, t);
        } else {
          assert l in links[..n];
          Absorbs(l, links[n], path, u, t);
        }
      }
    }
  }

  lemma {:induction false} NothingToRaise(links: seq<Link>, path: FieldValue, status: FieldValue)
    requires forall l | l in links :: StatusStep(l, path, status) == Some(status)
    ensures StatusAfter(links, path, status) == Some(status)
  {
    if links != [] {
      var n := |links| - 1;
      assert links[n] in links;
      NothingToRaise(links[..n], path, status);
    }
  }

  lemma StatusIsIdempotent(links: seq<Link>, path: FieldValue, status: FieldValue)
    requires StatusAfter(links, path, status).Some?
    ensures StatusAfter(links, path, StatusAfter(links, path, status).value) == StatusAfter(links, path, status)
  {
    EachIsAbsorbed(links, path, status);
    NothingToRaise(links, path, StatusAfter(links, path, status).value);
  }

  /** Resetting the defaults and linking again gives what the first time gave, whatever the defaults. */
  lemma LinkTwice(links: seq<Link>, m: Members, defaults: Members)
    requires Fold(links, m + defaults).Some?
    ensures Fold(links, Fold(links, m + defaults).value + defaults) == Fold(links, m + defaults)
  {
    var start := m + defaults;
    var first := Fold(links, start).value;
    FoldShape(links, start);
    var path, status := Field(start, META_OBJECT_PATH), Field(start, FIELD_STATUS);
    var s := StatusAfter(links, path, status).value;
    VersionsOnly(links);
    NotAVersion();
    FieldsOfOverlay(start, Versions(links), s);
    if FIELD_STATUS !in start {
      StatusStaysMissing(links, start);
    }
    var again := first + defaults;
    FoldShape(links, again);
    AgainStart(m, defaults, Versions(links), s);
    StatusIsIdempotent(links, path, status);
    AgainResult(m, defaults, Versions(links), s);
  }

  lemma AgainStart(m: Members, defaults: Members, versions: Members, s: FieldValue)
    requires versions.Keys <= {FIELD_VERSION_BMC, FIELD_VERSION_BIOS}
    ensures var again := WithStatus((m + defaults) + versions, s) + defaults;
      && Field(again, META_OBJECT_PATH) == Field(m + defaults, META_OBJECT_PATH)
      && Field(again, FIELD_STATUS)
         == if FIELD_STATUS in defaults then Field(m + defaults, FIELD_STATUS)
            else if FIELD_STATUS in m then s else NOT_AVAILABLE
  {
    NotAVersion();
    FieldsOfOverlay(m + defaults, versions, s);
  }

  lemma AgainResult(m: Members, defaults: Members, versions: Members, s: FieldValue)
    requires FIELD_STATUS !in versions
    ensures var first := WithStatus((m + defaults) + versions, s); WithStatus((first + defaults) + versions, s) == first
  {
  }
}
