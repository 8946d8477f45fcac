/** JSON values of the nlohmann library: an object is a `std::map` ordered by key. */
module JsonValues {
  import opened Orders

  datatype Json =
    | JNull
    | JBool(flag: bool)
    | JInt(n: int)
    | JReal(r: real)
    | JStr(text: string)
    | JArr(items: seq<Json>)
    | JObj(fields: map<string, Json>)

  /** `push_back({key, value})` on an object: `std::map::insert`, so the first binding of a key stays. */
  function Emplace<V>(fields: map<string, V>, key: string, value: V): map<string, V> {
    if key in fields then fields else fields[key := value]
  }

  /** The first position at which `key` occurs. */
  function FirstIndex(keys: seq<string>, key: string): (i: nat)
    requires key in keys
    ensures i < |keys| && keys[i] == key && key !in keys[..i]
  {
    if keys[0] == key then 0
    else
      var i := 1 + FirstIndex(keys[1..], key);
      assert keys[..i] == [keys[0]] + keys[1..][..i - 1];
      i
  }

  lemma {:induction false} FirstIndexIs(keys: seq<string>, key: string, i: nat)
    requires i < |keys| && keys[i] == key && key !in keys[..i]
    ensures FirstIndex(keys, key) == i
  {
    if i > 0 {
      assert keys[..i][0] == keys[0];
      assert keys[1..][..i - 1] == keys[..i][1..];
      FirstIndexIs(keys[1..], key, i - 1);
    }
  }

  /** Every key bound to the value at its first position. */
  function FirstBindings<V>(keys: seq<string>, values: seq<V>): map<string, V>
    requires |keys| == |values|
  {
    map key | key in keys :: values[FirstIndex(keys, key)]
  }

  /** `push_back` of the bindings from position `i` on, one after the other. */
  function EmplaceFrom<V>(fields: map<string, V>, keys: seq<string>, values: seq<V>, i: nat): map<string, V>
    requires |keys| == |values|
    decreases |keys| - i
  {
    if i >= |keys| then fields else EmplaceFrom(Emplace(fields, keys[i], values[i]), keys, values, i + 1)
  }

  lemma FirstBindingsStep<V>(fields: map<string, V>, keys: seq<string>, values: seq<V>)
    requires |keys| == |values| > 0
    ensures FirstBindings(keys, values) + fields
         == FirstBindings(keys[1..], values[1..]) + Emplace(fields, keys[0], values[0])
  {
    assert keys == [keys[0]] + keys[1..];
  }

  /** Pushing bindings one by one keeps what was bound and gives every new key its first value. */
  lemma {:induction false} EmplaceMeaning<V>(fields: map<string, V>, keys: seq<string>, values: seq<V>, i: nat)
    requires |keys| == |values| && i <= |keys|
    ensures EmplaceFrom(fields, keys, values, i) == FirstBindings(keys[i..], values[i..]) + fields
    decreases |keys| - i
  {
    if i < |keys| {
      EmplaceMeaning(Emplace(fields, keys[i], values[i]), keys, values, i + 1);
      FirstBindingsStep(fields, keys[i..], values[i..]);
      assert keys[i..][1..] == keys[i + 1..] && values[i..][1..] == values[i + 1..];
    }
  }

  lemma EmplaceFromEmpty<V>(keys: seq<string>, values: seq<V>)
    requires |keys| == |values|
    ensures EmplaceFrom(map[], keys, values, 0) == FirstBindings(keys, values)
  {
    EmplaceMeaning(map[], keys, values, 0);
    assert keys[0..] == keys && values[0..] == values;
  }

  /** The key of `back()` on an object: the last one in key order. */
  function BackKey<V>(fields: map<string, V>): (k: string)
    requires fields.Keys != {}
    ensures k in fields
  {
    var keys := SortedStrings(fields.Keys);
    assert keys != [] by {
      var k :| k in fields.Keys;
      assert k in keys;
    }
    assert keys[|keys| - 1] in keys;
    keys[|keys| - 1]
  }

  lemma BackKeyOfSingle<V>(fields: map<string, V>, k: string)
    requires fields.Keys == {k}
    ensures BackKey(fields) == k
  {
  }
}
