/** The versions a server reports. */
module ServerVersions {
  import opened EntityLinks
  import opened EntitySpec
  import opened FieldValues
  import opened Options
  import opened Queries

  function VersionLinks(hash: Hasher, provider: map<int, Instance>): seq<Link> {
    LinksOf(VersionsRule, Supplements(hash, provider))
  }

  lemma {:induction false} VersionsNeverFail(supplements: seq<Members>, path: FieldValue, status: FieldValue)
    ensures StatusAfter(LinksOf(VersionsRule, supplements), path, status) == Some(status)
  {
    if supplements != [] {
      var n := |supplements| - 1;
      assert LinksOf(VersionsRule, supplements)[..n] == LinksOf(VersionsRule, supplements[..n]);
      VersionsNeverFail(supplements[..n], path, status);
    }
  }

  lemma OneProvider(hash: Hasher, provider: map<int, Instance>)
    ensures SuppliesOf(hash, [Provider(VersionsRule, provider)])
         == [Supply(VersionsRule, Supplements(hash, provider))]
  {
  }

  lemma JoinedVersions(supplements: seq<Members>, m: Members)
    ensures Supplemented([Supply(VersionsRule, supplements)], m)
         == Some(m + Versions(LinksOf(VersionsRule, supplements)))
  {
    var links := LinksOf(VersionsRule, supplements);
    OneSupply(Supply(VersionsRule, supplements), m);
    SupplementedIsFold([Supply(VersionsRule, supplements)], m);
    FoldShape(links, m);
    VersionsNeverFail(supplements, Field(m, META_OBJECT_PATH), Field(m, FIELD_STATUS));
    VersionsOnly(links);
    NotAVersion();
    KeepStatus(m, Versions(links));
  }

  /** Joining a server with the version provider never fails; it sets the versions and leaves the rest. */
  lemma ServerReportsVersions(hash: Hasher, provider: map<int, Instance>, m: Members)
    ensures Supplemented(SuppliesOf(hash, [Provider(VersionsRule, provider)]), m)
         == Some(m + Versions(VersionLinks(hash, provider)))
    ensures Versions(VersionLinks(hash, provider)).Keys <= {FIELD_VERSION_BMC, FIELD_VERSION_BIOS}
  {
    OneProvider(hash, provider);
    JoinedVersions(Supplements(hash, provider), m);
    VersionsOnly(VersionLinks(hash, provider));
  }

  /** Of several software objects with one purpose the last one read determines the version. */
  lemma {:induction false} LastVersionWins(links: seq<Link>, name: string, i: nat)
    requires i < |links| && name in VersionStep(links[i])
    requires forall j | i < j < |links| :: name !in VersionStep(links[j])
    ensures name in Versions(links) && Versions(links)[name] == VersionStep(links[i])[name]
  {
    var n := |links| - 1;
    if i < n {
      assert forall j | i < j < n :: links[..n][j] == links[j];
      LastVersionWins(links[..n], name, i);
    }
  }

  lemma {:induction false} NoVersionWithoutProvider(links: seq<Link>, name: string)
    requires forall j | 0 <= j < |links| :: name !in VersionStep(links[j])
    ensures name !in Versions(links)
  {
    if links != [] {
      var n := |links| - 1;
      assert forall j | 0 <= j < n :: links[..n][j] == links[j];
      NoVersionWithoutProvider(links[..n], name);
    }
  }
}
