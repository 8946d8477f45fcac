/** The link rules on shared instances, and why none of them ever writes the shared not-available field object. */
module LinkRules {
  import opened EntityCache
  import opened EntityLinks
  import opened EntitySpec
  import opened FieldValues
  import opened Options
  import opened Queries
  import opened Statuses

  lemma FieldIsView(o: DBusInstance, name: string)
    requires o.ValidNode() && o.notAvailable.value == NOT_AVAILABLE
    ensures o.GetField(name).value == Field(o.NodeView().members, name)
  {
  }

  /** `getHigherStatus`; `None` stands for the exception about an unknown status. */
  method GetHigherStatus(left: string, right: string) returns (status: Option<string>)
    ensures status == HigherStatus(left, right)
  {
    var priority := map["ok" := (0, STATUS_OK), "warning" := (1, STATUS_WARNING), "critical" := (2, STATUS_CRITICAL)];
    var l, r := ToLower(left), ToLower(right);
    if l !in priority || r !in priority {
      return None;
    }
    return Some(if priority[l].0 >= priority[r].0 then priority[l].1 else priority[r].1);
  }

  /**
   The field object written is whatever `getField` answers, possibly the shared one. It never is: a target without a
   status reads as `N/A`, which `getHigherStatus` refuses. `false` stands for that exception.
   */
  method LinkStatus(supplementing: DBusInstance, target: DBusInstance) returns (ok: bool)
    requires supplementing.ValidNode() && target.ValidNode()
    requires supplementing.notAvailable == target.notAvailable && target.notAvailable.value == NOT_AVAILABLE
    modifies target.GetField(FIELD_STATUS)`value
    ensures target.notAvailable.value == NOT_AVAILABLE
    ensures ok == EntitySpec.LinkStatus(old(supplementing.NodeView()).members, old(target.NodeView()).members).Some?
    ensures ok ==>
      target.NodeView().members
      == EntitySpec.LinkStatus(old(supplementing.NodeView()).members, old(target.NodeView()).members).value
    ensures !ok ==> target.NodeView() == old(target.NodeView())
  {
    FieldIsView(target, META_OBJECT_PATH);
    FieldIsView(supplementing, FIELD_CAUSER);
    FieldIsView(supplementing, FIELD_STATUS);
    FieldIsView(target, FIELD_STATUS);
    var path, causer := target.GetField(META_OBJECT_PATH).value, supplementing.GetField(FIELD_CAUSER).value;
    var candidate, current := supplementing.GetField(FIELD_STATUS).value, target.GetField(FIELD_STATUS).value;
    if !path.StrValue? || !causer.StrValue? || !candidate.StrValue? || !current.StrValue? {
      return true;  // std::bad_variant_access is caught
    }
    if path != causer {
      return true;
    }
    var higher := GetHigherStatus(current.text, candidate.text);
    if higher == None {
      return false;
    }
    UnknownWord();
    assert target.HasField(FIELD_STATUS);
    target.GetField(FIELD_STATUS).SetValue(StrValue(higher.value));
    return true;
  }

  method LinkVersions(supplementing: DBusInstance, target: DBusInstance)
    requires supplementing.ValidNode() && target.ValidNode()
    requires supplementing.notAvailable == target.notAvailable && target.notAvailable.value == NOT_AVAILABLE
    modifies target`memberInstances, (set f: FieldInstance | f.owner == target)`value
    ensures target.ValidNode()
    ensures Some(target.NodeView().members)
         == EntitySpec.LinkVersions(old(supplementing.NodeView()).members, old(target.NodeView()).members)
  {
    FieldIsView(supplementing, FIELD_PURPOSE);
    FieldIsView(supplementing, FIELD_VERSION);
    var purpose := supplementing.GetField(FIELD_PURPOSE).value;
    if !purpose.StrValue? {
      return;  // std::bad_variant_access is caught
    }
    var version := supplementing.GetField(FIELD_VERSION).value;
    match PurposeOf(purpose.text) {
      case Bmc => target.SupplementOrUpdate(FIELD_VERSION_BMC, version);
      case Bios => target.SupplementOrUpdate(FIELD_VERSION_BIOS, version);
      case Unknown =>
    }
  }

  /** Either rule. */
  method ApplyRule(rule: LinkRule, supplementing: DBusInstance, target: DBusInstance) returns (ok: bool)
    requires supplementing.ValidNode() && target.ValidNode()
    requires supplementing.notAvailable == target.notAvailable && target.notAvailable.value == NOT_AVAILABLE
    modifies target`memberInstances, (set f: FieldInstance | f.owner == target)`value, target.notAvailable`value
    ensures target.ValidNode() && target.notAvailable.value == NOT_AVAILABLE
    ensures ok == rule.Apply(old(supplementing.NodeView()).members, old(target.NodeView()).members).Some?
    ensures ok ==>
      target.NodeView().members
      == rule.Apply(old(supplementing.NodeView()).members, old(target.NodeView()).members).value
    ensures !ok ==> target.NodeView() == old(target.NodeView())
  {
    match rule {
      case StatusRule =>
        ok := LinkStatus(supplementing, target);
      case VersionsRule =>
        LinkVersions(supplementing, target);
        ok := true;
    }
  }
}
