/** One mounted field of the adventure editor: its descriptor, the local value
    it shows, and the `updateFn(key, value)` calls it has made to its parent.
    Every handler replaces the local value synchronously and reports the new
    value to the parent exactly once. */
module Element {
  import opened JsValue
  import opened ListEdits
  import opened Settings

  /** One call `updateFn(key, value)` to the parent. */
  datatype Call = Call(key: string, value: Value)

  class SettingElement {
    const setting: Setting
    /** The local value (the source's `value` state). */
    var value: Value
    /** Every call made to the parent's `updateFn`, oldest first. */
    var calls: seq<Call>

    /** The parent's latest word on this field is the local value, or the
        parent has not been told anything yet. */
    predicate InSync()
      reads this
    {
      calls != [] ==> calls[|calls| - 1] == Call(setting.name, value)
    }

    /** Mounting a field: the local value starts from `valueAtLoad ||
        setting.default`, and the parent is not called. */
    constructor (setting: Setting, valueAtLoad: Value)
      ensures this.setting == setting
      ensures value == InitialValue(valueAtLoad, setting)
      ensures calls == []
      ensures InSync()
    {
      this.setting := setting;
      value := InitialValue(valueAtLoad, setting);
      calls := [];
    }

    /** Stores a new local value and reports it to the parent. */
    method Store(v: Value)
      modifies this
      ensures value == v
      ensures calls == old(calls) + [Call(setting.name, v)]
      ensures InSync()
    {
      value := v;
      calls := calls + [Call(setting.name, v)];
    }

    /** A file input: the first selected file, or undefined for an empty
        selection, is reported to the parent but NOT stored locally; a change
        without a file list does nothing. */
    method OnInputChange(files: Option<seq<nat>>)
      modifies this
      ensures value == old(value)
      ensures files.None? ==> calls == old(calls)
      ensures files.Some? ==>
        calls == old(calls) + [Call(setting.name, if files.value == [] then Undefined else File(files.value[0]))]
    {
      if files.None? {
        return;
      }
      var newValue := if files.value == [] then Undefined else File(files.value[0]);
      calls := calls + [Call(setting.name, newValue)];
    }

    /** A text input, text area, long text or radio button: the raw string. */
    method OnTextboxChange(text: string)
      modifies this
      ensures value == Str(text)
      ensures calls == old(calls) + [Call(setting.name, value)]
      ensures InSync()
    {
      Store(Str(text));
    }

    /** An integer input, given what `parseInt` made of the text: the number,
        or NaN when nothing parsed, which is stored and forwarded all the same. */
    method OnTextboxIntChange(parsed: Option<int>)
      modifies this
      ensures value == (if parsed.Some? then Num(parsed.value as real) else NaN)
      ensures calls == old(calls) + [Call(setting.name, value)]
      ensures InSync()
    {
      Store(if parsed.Some? then Num(parsed.value as real) else NaN);
    }

    /** A float input, given what `parseFloat` made of the text. */
    method OnTextboxFloatChange(parsed: Option<real>)
      modifies this
      ensures value == (if parsed.Some? then Num(parsed.value) else NaN)
      ensures calls == old(calls) + [Call(setting.name, value)]
      ensures InSync()
    {
      Store(if parsed.Some? then Num(parsed.value) else NaN);
    }

    /** A checkbox: its checked state as a boolean. */
    method OnCheckboxChange(checked: bool)
      modifies this
      ensures value == Bool(checked)
      ensures calls == old(calls) + [Call(setting.name, value)]
      ensures InSync()
    {
      Store(Bool(checked));
    }

    /** A select: the chosen string. */
    method OnSelectChange(newValue: string)
      modifies this
      ensures value == Str(newValue)
      ensures calls == old(calls) + [Call(setting.name, value)]
      ensures InSync()
    {
      Store(Str(newValue));
    }

    /** A click on the k-th option of a select's option list. */
    method OnSelectOption(themes: seq<OptionItem>, k: nat)
      requires k < |SelectOptions(setting, themes)|
      modifies this
      ensures value == Str(SelectedValue(SelectOptions(setting, themes)[k]))
      ensures calls == old(calls) + [Call(setting.name, value)]
      ensures InSync()
    {
      OnSelectChange(SelectedValue(SelectOptions(setting, themes)[k]));
    }

    /** The tag editor hands back the whole replacement array of tags; the
        tag editor is shown exactly those tags next time. */
    method OnTagListChange(tags: seq<string>)
      modifies this
      ensures value.Arr? && |AsArray(value)| == |tags|
      ensures forall j :: 0 <= j < |tags| ==> AsArray(value)[j] == Str(tags[j])
      ensures calls == old(calls) + [Call(setting.name, value)]
      ensures InSync()
    {
      Store(Arr(seq(|tags|, j requires 0 <= j < |tags| => Str(tags[j]))));
    }

    /** `addToList`: one empty item of the list's item kind is appended to the
        items (to none when the local value is not an array). */
    method AddToList()
      modifies this
      ensures value == Arr(Appended(old(value), setting.listof))
      ensures calls == old(calls) + [Call(setting.name, value)]
      ensures InSync()
    {
      Store(Arr(Appended(value, setting.listof)));
    }

    /** `removeItem(i)`: every item but position i is kept, in order. A truthy
        local value that is not an array makes `.filter` throw: nothing then
        changes and the parent is not called. A rendered row never throws. */
    method RemoveItem(i: int) returns (ok: bool)
      modifies this
      ensures ok <==> Removed(old(value), i).Ok?
      ensures 0 <= i < |AsArray(old(value))| ==> ok
      ensures ok ==> value == Arr(Removed(old(value), i).value)
      ensures ok ==> calls == old(calls) + [Call(setting.name, value)]
      ensures !ok ==> value == old(value) && calls == old(calls)
      ensures old(InSync()) ==> InSync()
    {
      var r := Removed(value, i);
      ok := r.Ok?;
      if ok {
        Store(Arr(r.value));
      }
    }

    /** `updateItem({index, subField, value})`: position index is replaced by
        the new value, or, with a non-empty subField, gets that one key set;
        every other position is kept. A throw (a truthy non-array local value,
        or a key set on an item that cannot hold one) changes nothing and
        calls nobody. */
    method UpdateItem(index: int, subField: Option<string>, v: Value) returns (ok: bool)
      modifies this
      ensures ok <==> Updated(old(value), index, subField, v).Ok?
      ensures ok ==> value == Arr(Updated(old(value), index, subField, v).value)
      ensures ok ==> calls == old(calls) + [Call(setting.name, value)]
      ensures !ok ==> value == old(value) && calls == old(calls)
      ensures old(InSync()) ==> InSync()
    {
      var r := Updated(value, index, subField, v);
      ok := r.Ok?;
      if ok {
        Store(Arr(r.value));
      }
    }

    /** The `updateFn` handed to a field of object item i: the field's report
        under its own name sets that key of item i. */
    method OnObjectItemFieldChange(i: int, subFieldName: string, v: Value) returns (ok: bool)
      modifies this
      ensures ok <==> Updated(old(value), i, Some(subFieldName), v).Ok?
      ensures ok ==> value == Arr(Updated(old(value), i, Some(subFieldName), v).value)
      ensures ok ==> calls == old(calls) + [Call(setting.name, value)]
      ensures !ok ==> value == old(value) && calls == old(calls)
      ensures old(InSync()) ==> InSync()
    {
      ok := UpdateItem(i, Some(subFieldName), v);
    }

    /** The `updateFn` handed to item i of a scalar list: the key the item
        reports under is ignored and the value replaces item i. */
    method OnScalarItemChange(i: int, ignoredKey: string, v: Value) returns (ok: bool)
      modifies this
      ensures ok <==> Updated(old(value), i, None, v).Ok?
      ensures ok ==> value == Arr(Updated(old(value), i, None, v).value)
      ensures ok ==> calls == old(calls) + [Call(setting.name, value)]
      ensures !ok ==> value == old(value) && calls == old(calls)
      ensures old(InSync()) ==> InSync()
    {
      ok := UpdateItem(i, None, v);
    }
  }

  /** Adding an item to an empty list and removing it again: the parent is
      called exactly twice, first with the one-item list, then with the
      empty list, and the field ends where it started. */
  method AddThenRemoveFromEmpty(s: Setting, valueAtLoad: Value) returns (log: seq<Call>, final: Value)
    requires AsArray(InitialValue(valueAtLoad, s)) == []
    ensures log == [Call(s.name, Arr([EmptyItem(s.listof)])), Call(s.name, Arr([]))]
    ensures final == Arr([])
  {
    var field := new SettingElement(s, valueAtLoad);
    field.AddToList();
    var ok := field.RemoveItem(0);
    log, final := field.calls, field.value;
  }

  /** A child field of object item i, mounted from the item and then edited
      by its own handler, reports under its own name; the list field routes
      that report to a keyed update of item i, which sets that key and
      leaves the item's other keys and the other items unchanged. */
  method EditObjectItemField(list: SettingElement, i: int, sub: Setting, checked: bool) returns (ok: bool)
    requires 0 <= i < |AsArray(list.value)| && AsArray(list.value)[i].Obj? && sub.name != ""
    modifies list
    ensures ok
    ensures list.value.Arr? && |AsArray(list.value)| == |AsArray(old(list.value))|
    ensures forall j :: 0 <= j < |AsArray(list.value)| && j != i ==> AsArray(list.value)[j] == AsArray(old(list.value))[j]
    ensures AsArray(list.value)[i] == Obj(AsArray(old(list.value))[i].fields[sub.name := Bool(checked)])
    ensures list.calls == old(list.calls) + [Call(list.setting.name, list.value)]
  {
    var load := ObjectFieldLoad(AsArray(list.value)[i], sub.name);
    var child := new SettingElement(sub, load.value);
    child.OnCheckboxChange(checked);
    var report := child.calls[|child.calls| - 1];
    ok := list.OnObjectItemFieldChange(i, report.key, report.value);
    SubFieldUpdateSetsOneKey(old(list.value), i, sub.name, Bool(checked));
  }
}
