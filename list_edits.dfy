/** The three edits a list field applies to its sequence of items: append an
    empty item, drop the item at a position, and replace an item or one key of
    it. Each is a function from the current local value to the new sequence, or to
    the TypeError the source's expression would throw. */
module ListEdits {
  import opened JsValue

  /** The item `addToList` appends: `{}` for a list of objects, `""` for a
      list of text, and `null` for every other item kind. */
  function EmptyItem(listof: string): (r: Value)
    ensures r == Obj(map[]) <==> listof == "object"
    ensures r == Str("") <==> listof == "text"
    ensures r == Null <==> listof != "object" && listof != "text"
  {
    if listof == "object" then Obj(map[])
    else if listof == "text" then Str("")
    else Null
  }

  /** The sequence `addToList` stores: the old items (none when the old
      value is not an array) followed by one empty item. */
  function Appended(cur: Value, listof: string): (r: seq<Value>)
    ensures |r| == |AsArray(cur)| + 1
    ensures r[..|AsArray(cur)|] == AsArray(cur)
    ensures r[|AsArray(cur)|] == EmptyItem(listof)
  {
    AsArray(cur) + [EmptyItem(listof)]
  }

  /** `s.filter((_, index) => i != index)` on the part of an array that
      starts at position `from`, visiting one item at a time. */
  function KeepOthers(s: seq<Value>, i: int, from: int): (r: seq<Value>)
    ensures from <= i < from + |s| ==> r == s[..i - from] + s[i - from + 1..]
    ensures !(from <= i < from + |s|) ==> r == s
    decreases |s|
  {
    if s == [] then []
    else
      var rest := KeepOthers(s[1..], i, from + 1);
      assert s == [s[0]] + s[1..];
      if i != from then
        assert from < i < from + |s| ==> [s[0]] + s[1..][..i - from - 1] == s[..i - from];
        [s[0]] + rest
      else rest
  }

  /** The sequence `removeItem(i)` stores, or the TypeError that
      `(old || []).filter` throws on a truthy value that is not an array. */
  function Removed(cur: Value, i: int): (r: Result<seq<Value>>)
    ensures r.Ok? <==> OrEmpty(cur).Ok?
    ensures r.Ok? && 0 <= i < |AsArray(cur)| ==> r.value == AsArray(cur)[..i] + AsArray(cur)[i + 1..]
    ensures r.Ok? && !(0 <= i < |AsArray(cur)|) ==> r.value == AsArray(cur)
  {
    match OrEmpty(cur)
    case Ok(s) => Ok(KeepOthers(s, i, 0))
    case TypeError => TypeError
  }

  /** Whether `if (subField)` takes the keyed branch: a key is given and it is
      not the (falsy) empty string. */
  predicate IsKeyed(subField: Option<string>) {
    subField.Some? && subField.value != ""
  }

  /** What the `.map` callback of `updateItem` returns for the item being
      updated: the item with one key set, or the new value itself. */
  function EditItem(prior: Value, subField: Option<string>, v: Value): (r: Result<Value>)
    ensures IsKeyed(subField) ==> r == SetKey(prior, subField.value, v)
    ensures !IsKeyed(subField) ==> r == Ok(v)
  {
    if IsKeyed(subField) then SetKey(prior, subField.value, v) else Ok(v)
  }

  /** `s` with position `k` replaced by the outcome `e`, failing when `e` does. */
  function Place(s: seq<Value>, k: nat, e: Result<Value>): Result<seq<Value>>
    requires k < |s|
  {
    if e.Ok? then Ok(s[k := e.value]) else TypeError
  }

  /** `s.map((prior, thisIndex) => index === thisIndex ? EditItem(prior) : prior)`
      on the part of an array that starts at position `from`, visiting one item
      at a time and stopping at the first throw. */
  function MapEdit(s: seq<Value>, index: int, subField: Option<string>, v: Value, from: int): (r: Result<seq<Value>>)
    ensures !(from <= index < from + |s|) ==> r == Ok(s)
    ensures from <= index < from + |s| ==> r == Place(s, index - from, EditItem(s[index - from], subField, v))
    decreases |s|
  {
    if s == [] then Ok([])
    else
      var head := if index == from then EditItem(s[0], subField, v) else Ok(s[0]);
      var tail := MapEdit(s[1..], index, subField, v, from + 1);
      assert s == [s[0]] + s[1..];
      if head.TypeError? || tail.TypeError? then TypeError
      else
        assert index == from ==> [head.value] + tail.value == s[0 := head.value];
        assert from < index < from + |s| ==>
          var e := EditItem(s[index - from], subField, v);
          e.Ok? ==> [s[0]] + s[1..][index - from - 1 := e.value] == s[index - from := e.value];
        Ok([head.value] + tail.value)
  }

  /** The sequence `updateItem({index, subField, value})` stores, or the
      TypeError it throws: `(old || [])` on a truthy non-array, or setting a
      key on an item that cannot hold one. */
  function Updated(cur: Value, index: int, subField: Option<string>, v: Value): (r: Result<seq<Value>>)
    ensures r.TypeError? <==>
      || OrEmpty(cur).TypeError?
      || (0 <= index < |AsArray(cur)| && IsKeyed(subField) && SetKey(AsArray(cur)[index], subField.value, v).TypeError?)
    ensures r.Ok? ==> |r.value| == |AsArray(cur)|
    ensures r.Ok? ==> forall j :: 0 <= j < |r.value| && j != index ==> r.value[j] == AsArray(cur)[j]
    ensures r.Ok? && 0 <= index < |r.value| && !IsKeyed(subField) ==> r.value[index] == v
    ensures r.Ok? && 0 <= index < |r.value| && IsKeyed(subField) ==>
      Ok(r.value[index]) == SetKey(AsArray(cur)[index], subField.value, v)
  {
    match OrEmpty(cur)
    case Ok(s) => MapEdit(s, index, subField, v, 0)
    case TypeError => TypeError
  }

  /** Appending an item and then removing the last position gives back the
      items the list had before. */
  lemma AddThenRemoveRestores(cur: Value, listof: string)
    ensures Removed(Arr(Appended(cur, listof)), |AsArray(cur)|) == Ok(AsArray(cur))
  {
    var s := Appended(cur, listof);
    assert s[..|AsArray(cur)|] + s[|AsArray(cur)| + 1..] == AsArray(cur);
  }

  /** Removing a position of a list and putting the removed item back at that
      position gives back the list. */
  lemma RemoveThenReinsert(cur: Value, i: int)
    requires cur.Arr? && 0 <= i < |cur.items|
    ensures Removed(cur, i).Ok?
    ensures Removed(cur, i).value[..i] + [cur.items[i]] + Removed(cur, i).value[i..] == cur.items
  {
    var s := cur.items;
    var r := Removed(cur, i).value;
    assert r[..i] == s[..i];
    assert r[i..] == s[i + 1..];
    assert s == s[..i] + [s[i]] + s[i + 1..];
  }

  /** The handlers of a rendered row never throw: rows exist only for the
      items of an array, and on an array `removeItem` and a whole-item
      `updateItem` always succeed, as does a keyed update on an object item. */
  lemma RowEditsSucceed(cur: Value, i: int, subField: Option<string>, v: Value)
    requires 0 <= i < |AsArray(cur)|
    ensures Removed(cur, i).Ok? && |Removed(cur, i).value| == |AsArray(cur)| - 1
    ensures !IsKeyed(subField) || AsArray(cur)[i].Obj? ==> Updated(cur, i, subField, v).Ok?
  {
  }

  /** A keyed update on an object item sets exactly that key: the item keeps
      every other key with its value, and every other item is unchanged. */
  lemma SubFieldUpdateSetsOneKey(cur: Value, i: int, key: string, v: Value)
    requires 0 <= i < |AsArray(cur)| && AsArray(cur)[i].Obj? && key != ""
    ensures Updated(cur, i, Some(key), v).Ok?
    ensures Updated(cur, i, Some(key), v).value[i].Obj?
    ensures Updated(cur, i, Some(key), v).value[i].fields.Keys == AsArray(cur)[i].fields.Keys + {key}
    ensures Updated(cur, i, Some(key), v).value[i].fields[key] == v
    ensures forall k :: k in AsArray(cur)[i].fields && k != key ==>
      Updated(cur, i, Some(key), v).value[i].fields[k] == AsArray(cur)[i].fields[k]
  {
  }

  /** Writing the old item back at the same position undoes a whole-item
      update. */
  lemma UpdateThenRestore(cur: Value, i: int, v: Value)
    requires 0 <= i < |AsArray(cur)|
    ensures Updated(cur, i, None, v).Ok?
    ensures Updated(Arr(Updated(cur, i, None, v).value), i, None, AsArray(cur)[i]) == Ok(AsArray(cur))
  {
    var once := Updated(cur, i, None, v).value;
    var twice := Updated(Arr(once), i, None, AsArray(cur)[i]).value;
    assert twice == AsArray(cur);
  }

  /** Writing the old value of a key back undoes a keyed update on an object
      item that had that key. */
  lemma SubFieldUpdateThenRestore(cur: Value, i: int, key: string, v: Value)
    requires 0 <= i < |AsArray(cur)| && AsArray(cur)[i].Obj? && key != ""
    requires key in AsArray(cur)[i].fields
    ensures Updated(cur, i, Some(key), v).Ok?
    ensures Updated(Arr(Updated(cur, i, Some(key), v).value), i, Some(key), AsArray(cur)[i].fields[key]) == Ok(AsArray(cur))
  {
    var m := AsArray(cur)[i].fields;
    var once := Updated(cur, i, Some(key), v).value;
    var twice := Updated(Arr(once), i, Some(key), m[key]).value;
    assert once[i].fields[key := m[key]] == m;
    assert twice == AsArray(cur);
  }
}
