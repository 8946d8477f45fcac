/** Which fields the selections of an object come to. */
module GraphqlSelections {
  import opened GraphqlSpec
  import opened Options

  /** The field at the end of a path that leads through inline fragments alone. */
  function At(selections: seq<Selection>, path: seq<nat>): Option<Selection> {
    if path == [] || path[0] >= |selections| then None
    else
      var first := selections[path[0]];
      if |path| == 1 then if first.IsField() then Some(first) else None
      else if first.InlineFragment? then At(first.selections, path[1..])
      else None
  }

  /** In the text the field at `p` comes before the one at `q`. */
  ghost predicate BeforeAt(p: seq<nat>, q: seq<nat>, k: int) {
    0 <= k < |p| && k < |q| && p[..k] == q[..k] && p[k] < q[k]
  }

  ghost predicate Before(p: seq<nat>, q: seq<nat>) {
    exists k :: BeforeAt(p, q, k)
  }

  /** A scalar stays as it is; an object has the fields of its selections. */
  ghost predicate IsFieldOf(selection: Selection, field: Field) {
    match selection
    case ScalarField(name, alias) => field == Scalar(name, alias)
    case ObjectField(name, alias, selections) => field == Object(name, alias, Fields(selections))
    case _ => false
  }

  /** The fields at all the paths, in the order of the text. */
  ghost predicate AreAt(selections: seq<Selection>, paths: seq<seq<nat>>, fields: seq<Field>) {
    && |paths| == |fields|
    && (forall i | 0 <= i < |paths| ::
          At(selections, paths[i]).Some? && IsFieldOf(At(selections, paths[i]).value, fields[i]))
    && (forall path | At(selections, path).Some? :: path in paths)
    && (forall i, j | 0 <= i < j < |paths| :: Before(paths[i], paths[j]))
  }

  ghost function Under(i: nat, paths: seq<seq<nat>>): seq<seq<nat>> {
    seq(|paths|, k requires 0 <= k < |paths| => [i] + paths[k])
  }

  function Shift(path: seq<nat>): seq<nat> {
    if path == [] then [] else [path[0] + 1] + path[1..]
  }

  ghost function ShiftAll(paths: seq<seq<nat>>): seq<seq<nat>> {
    seq(|paths|, k requires 0 <= k < |paths| => Shift(paths[k]))
  }

  lemma ShiftedPath(selections: seq<Selection>, path: seq<nat>)
    requires selections != []
    ensures At(selections, Shift(path)) == At(selections[1..], path)
  {
    if path != [] && path[0] < |selections| - 1 {
      var shifted := Shift(path);
      assert shifted[1..] == path[1..] && selections[shifted[0]] == selections[1..][path[0]];
    }
  }

  function Unshift(path: seq<nat>): seq<nat>
    requires path != [] && path[0] > 0
  {
    [path[0] - 1] + path[1..]
  }

  lemma UnshiftedPath(selections: seq<Selection>, path: seq<nat>)
    requires selections != [] && path != [] && path[0] > 0
    ensures path == Shift(Unshift(path)) && At(selections, path) == At(selections[1..], Unshift(path))
  {
    assert Unshift(path)[1..] == path[1..] && path == [path[0]] + path[1..];
    ShiftedPath(selections, Unshift(path));
  }

  lemma ShiftKeepsOrder(p: seq<nat>, q: seq<nat>)
    requires Before(p, q)
    ensures Before(Shift(p), Shift(q))
  {
    var k :| BeforeAt(p, q, k);
    if k > 0 {
      assert p[..k][0] == q[..k][0];
      assert Shift(p)[..k] == [p[0] + 1] + p[..k][1..] && Shift(q)[..k] == [q[0] + 1] + q[..k][1..];
    }
    assert BeforeAt(Shift(p), Shift(q), k);
  }

  lemma UnderKeepsOrder(i: nat, p: seq<nat>, q: seq<nat>)
    requires Before(p, q)
    ensures Before([i] + p, [i] + q)
  {
    var k :| BeforeAt(p, q, k);
    assert ([i] + p)[..k + 1] == [i] + p[..k] && ([i] + q)[..k + 1] == [i] + q[..k];
    assert BeforeAt([i] + p, [i] + q, k + 1);
  }

  /** The paths that begin with the first selection. */
  ghost predicate AreFirst(selections: seq<Selection>, paths: seq<seq<nat>>, fields: seq<Field>)
    requires selections != []
  {
    && |paths| == |fields|
    && (forall i | 0 <= i < |paths| ::
          paths[i] != [] && paths[i][0] == 0 && At(selections, paths[i]).Some?
          && IsFieldOf(At(selections, paths[i]).value, fields[i]))
    && (forall path | At(selections, path).Some? && path[0] == 0 :: path in paths)
    && (forall i, j | 0 <= i < j < |paths| :: Before(paths[i], paths[j]))
  }

  lemma FirstPaths(selections: seq<Selection>, inner: seq<seq<nat>>) returns (paths: seq<seq<nat>>)
    requires selections != []
    requires selections[0].InlineFragment? ==>
      AreAt(selections[0].selections, inner, Fields(selections[0].selections))
    ensures AreFirst(selections, paths, selections[0].ToFields())
  {
    match selections[0]
    case InlineFragment(selections1) =>
      paths := Under(0, inner);
      forall i | 0 <= i < |paths|
        ensures At(selections, paths[i]) == At(selections1, inner[i])
      {
        assert inner[i] != [] && paths[i][1..] == inner[i];
      }
      forall path | At(selections, path).Some? && path[0] == 0
        ensures path in paths
      {
        assert path == [0] + path[1..] && path[1..] in inner;
        var k :| 0 <= k < |inner| && inner[k] == path[1..];
        assert paths[k] == path;
      }
      forall i, j | 0 <= i < j < |paths|
        ensures Before(paths[i], paths[j])
      {
        UnderKeepsOrder(0, inner[i], inner[j]);
      }
    case FragmentSpread(_) =>
      paths := [];
    case _ =>
      paths := [[0]];
      forall path | At(selections, path).Some? && path[0] == 0
        ensures path == [0]
      {
      }
  }

  lemma JoinedAt(selections: seq<Selection>, first: seq<seq<nat>>, rest: seq<seq<nat>>, a: seq<Field>, b: seq<Field>,
                 i: nat)
    requires selections != [] && AreFirst(selections, first, a) && AreAt(selections[1..], rest, b) && i < |a + b|
    ensures var path := (first + ShiftAll(rest))[i];
      At(selections, path).Some? && IsFieldOf(At(selections, path).value, (a + b)[i])
  {
    if i < |first| {
      assert (first + ShiftAll(rest))[i] == first[i] && (a + b)[i] == a[i];
    } else {
      var k := i - |first|;
      ShiftedPath(selections, rest[k]);
      assert (first + ShiftAll(rest))[i] == Shift(rest[k]) && (a + b)[i] == b[k];
    }
  }

  lemma JoinedAll(selections: seq<Selection>, first: seq<seq<nat>>, rest: seq<seq<nat>>, a: seq<Field>, b: seq<Field>,
                  path: seq<nat>)
    requires selections != [] && AreFirst(selections, first, a) && AreAt(selections[1..], rest, b)
    requires At(selections, path).Some?
    ensures path in first + ShiftAll(rest)
  {
    if path[0] > 0 {
      UnshiftedPath(selections, path);
      assert Unshift(path) in rest;
      var k :| 0 <= k < |rest| && rest[k] == Unshift(path);
      assert ShiftAll(rest)[k] == path;
    }
  }

  lemma JoinedInOrder(first: seq<seq<nat>>, rest: seq<seq<nat>>, i: nat, j: nat)
    requires i < j < |first| + |rest|
    requires forall k | 0 <= k < |first| :: first[k] != [] && first[k][0] == 0
    requires forall k | 0 <= k < |rest| :: rest[k] != []
    requires forall k, l | 0 <= k < l < |first| :: Before(first[k], first[l])
    requires forall k, l | 0 <= k < l < |rest| :: Before(rest[k], rest[l])
    ensures Before((first + ShiftAll(rest))[i], (first + ShiftAll(rest))[j])
  {
    if i >= |first| {
      ShiftKeepsOrder(rest[i - |first|], rest[j - |first|]);
    } else if j >= |first| {
      var p, q := first[i], Shift(rest[j - |first|]);
      assert p[..0] == q[..0];
      assert BeforeAt(p, q, 0);
    }
  }

  lemma JoinPaths(selections: seq<Selection>, first: seq<seq<nat>>, rest: seq<seq<nat>>, a: seq<Field>, b: seq<Field>)
    requires selections != [] && AreFirst(selections, first, a) && AreAt(selections[1..], rest, b)
    ensures AreAt(selections, first + ShiftAll(rest), a + b)
  {
    var paths := first + ShiftAll(rest);
    forall i | 0 <= i < |paths|
      ensures At(selections, paths[i]).Some? && IsFieldOf(At(selections, paths[i]).value, (a + b)[i])
    {
      JoinedAt(selections, first, rest, a, b, i);
    }
    forall path | At(selections, path).Some?
      ensures path in paths
    {
      JoinedAll(selections, first, rest, a, b, path);
    }
    forall i, j | 0 <= i < j < |paths|
      ensures Before(paths[i], paths[j])
    {
      JoinedInOrder(first, rest, i, j);
    }
  }

  lemma NoPaths(selections: seq<Selection>) returns (paths: seq<seq<nat>>)
    requires selections == []
    ensures AreAt(selections, paths, [])
  {
    paths := [];
  }

  lemma {:induction false} FieldsAt(selections: seq<Selection>) returns (paths: seq<seq<nat>>)
    ensures AreAt(selections, paths, Fields(selections))
  {
    if selections == [] {
      paths := NoPaths(selections);
    } else {
      var inner: seq<seq<nat>> := [];
      if selections[0].InlineFragment? {
        inner := FieldsAt(selections[0].selections);
      }
      var first := FirstPaths(selections, inner);
      var rest := FieldsAt(selections[1..]);
      JoinPaths(selections, first, rest, selections[0].ToFields(), Fields(selections[1..]));
      paths := first + ShiftAll(rest);
    }
  }

  /** An object has exactly the fields its selections and their inline fragments contain, in the order of the text. */
  lemma FieldsMeaning(selections: seq<Selection>)
    ensures exists paths :: AreAt(selections, paths, Fields(selections))
  {
    var paths := FieldsAt(selections);
  }
}
