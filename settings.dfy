/** The declarative descriptor of one editor field, and the pure rules the
    settings editor derives from it: the value a field starts from, whether
    it is gated behind approval, the options of a select, and the values and
    descriptors handed to the nested field of each list item. */
module Settings {
  import opened JsValue
  import opened ListEdits

  /** One choice of a select or radio group. A dynamic theme carries only a
      value and a label. */
  datatype OptionItem = OptionItem(
    value: Option<string>,
    caption: string,   // the source's `label`
    description: Option<string>,
    audioSample: Option<string>)

  /** A field descriptor. `kind` is the source's `type`; `listof` and
      `includeDynamicOptions` are strings, with "" standing for an absent
      one (the source only ever compares them with non-empty literals).
      Labels, descriptions and the approval text are presentation only. */
  datatype Setting = Setting(
    name: string,
    kind: string,
    default: Value,
    options: Option<seq<OptionItem>>,
    includeDynamicOptions: string,
    listof: string,
    listSchema: Option<seq<Setting>>,
    requiresApproval: bool)

  /** The value a field instance starts from: the loaded value unless it is
      falsy, in which case the descriptor's default (`valueAtLoad ||
      setting.default`). */
  function InitialValue(valueAtLoad: Value, s: Setting): (r: Value)
    ensures Truthy(valueAtLoad) ==> r == valueAtLoad
    ensures !Truthy(valueAtLoad) ==> r == s.default
  {
    Or(valueAtLoad, s.default)
  }

  /** A value saved by the parent comes back unchanged when the field is
      mounted again exactly when it is truthy or equals the default: a saved
      false, 0, "" or NaN reopens on the default. */
  lemma ReloadKeepsValueIff(saved: Value, s: Setting)
    ensures InitialValue(saved, s) == saved <==> Truthy(saved) || saved == s.default
    ensures !Truthy(saved) ==> InitialValue(saved, s) == s.default
  {
  }

  /** Whether the field is gated: it requires approval and the user is not
      approved. */
  function IsDisabled(s: Setting, isUserApproved: bool): (r: bool)
    ensures r <==> s.requiresApproval && !isUserApproved
  {
    if isUserApproved then false else s.requiresApproval
  }

  /** Whether a checkbox renders checked for a value (`value ? true : undefined`):
      a boolean shows itself, every array or object (even an empty one) and
      every file shows checked, and a missing value shows unchecked. */
  function CheckboxChecked(v: Value): (r: bool)
    ensures v.Bool? ==> r == v.b
    ensures v.Arr? || v.Obj? || v.File? ==> r
    ensures v.Undefined? || v.Null? || v.NaN? ==> !r
    ensures v.Str? ==> (r <==> v.s != "")
    ensures v.Num? ==> (r <==> v.x != 0.0)
  {
    Truthy(v)
  }

  /** `setting.options || []`. */
  function StaticOptions(s: Setting): (r: seq<OptionItem>)
    ensures s.options.Some? ==> r == s.options.value
    ensures s.options.None? ==> r == []
  {
    if s.options.Some? then s.options.value else []
  }

  /** The option list of a select: the descriptor's own options, followed by
      the dynamic themes exactly when the descriptor asks for the
      "image-themes" supplement, each part in its own order. */
  function SelectOptions(s: Setting, themes: seq<OptionItem>): (r: seq<OptionItem>)
    ensures |r| == |StaticOptions(s)| + (if s.includeDynamicOptions == "image-themes" then |themes| else 0)
    ensures r[..|StaticOptions(s)|] == StaticOptions(s)
    ensures s.includeDynamicOptions == "image-themes" ==> r[|StaticOptions(s)|..] == themes
    ensures forall o :: o in r <==>
      o in StaticOptions(s) || (s.includeDynamicOptions == "image-themes" && o in themes)
  {
    StaticOptions(s) + (if s.includeDynamicOptions == "image-themes" then themes else [])
  }

  /** The string a click on an option forwards: its value, or "" when it has
      none (`option.value || ""`). */
  function SelectedValue(o: OptionItem): (r: string)
    ensures o.value.Some? ==> r == o.value.value
    ensures o.value.None? ==> r == ""
  {
    if o.value.Some? && o.value.value != "" then o.value.value else ""
  }

  /** The descriptors of the fields of each object item (`setting.listSchema || []`). */
  function ItemFields(s: Setting): (r: seq<Setting>)
    ensures s.listSchema.Some? ==> r == s.listSchema.value
    ensures s.listSchema.None? ==> r == []
  {
    if s.listSchema.Some? then s.listSchema.value else []
  }

  /** The value a field of an object item is mounted with, as written:
      `subValue[subField.name] || []`. It throws on a null or undefined item,
      and it never hands over a falsy value: a stored false, 0 or "" arrives
      as the (truthy) empty array. */
  function ObjectFieldLoad(item: Value, name: string): (r: Result<Value>)
    ensures r.TypeError? <==> item.Undefined? || item.Null?
    ensures r.Ok? ==> Truthy(r.value)
    ensures r.Ok? && item.Obj? && name in item.fields && Truthy(item.fields[name]) ==> r.value == item.fields[name]
    ensures r.Ok? && !(item.Obj? && name in item.fields && Truthy(item.fields[name])) ==> r.value == Arr([])
  {
    match GetKey(item, name)
    case Ok(x) => Ok(Or(x, Arr([])))
    case TypeError => TypeError
  }

  /** The value a field of an object item is evidently meant to be mounted
      with: the stored value whenever one is present, and the empty array
      only for a missing one (`subValue[subField.name] ?? []`). */
  function ObjectFieldLoadFixed(item: Value, name: string): (r: Result<Value>)
    ensures r.TypeError? <==> item.Undefined? || item.Null?
    ensures r.Ok? && item.Obj? && name in item.fields && !item.fields[name].Null? && !item.fields[name].Undefined? ==>
      r.value == item.fields[name]
    ensures r.Ok? && !(item.Obj? && name in item.fields) ==> r.value == Arr([])
  {
    match GetKey(item, name)
    case Ok(x) => Ok(Coalesce(x, Arr([])))
    case TypeError => TypeError
  }

  /** As written, a value a nested field sends up through a keyed update
      comes back to that field on its next mount only when it is truthy (or
      is itself the empty array). */
  lemma SubFieldEditReachesField(cur: Value, i: int, key: string, v: Value)
    requires 0 <= i < |AsArray(cur)| && AsArray(cur)[i].Obj? && key != ""
    ensures Updated(cur, i, Some(key), v).Ok?
    ensures ObjectFieldLoad(Updated(cur, i, Some(key), v).value[i], key) == Ok(v) <==> Truthy(v) || v == Arr([])
  {
  }

  /** The discrepancy, on one input: an object item whose boolean field
      "enabled" is switched off is stored with false, yet on its next mount
      the field receives [] and its checkbox renders checked, whatever the
      field's default. */
  lemma FalseSubFieldRemountsChecked(flag: Setting)
    ensures var items := Arr([Obj(map["enabled" := Bool(true)])]);
      var edited := Updated(items, 0, Some("enabled"), Bool(false));
      && edited.Ok?
      && edited.value[0] == Obj(map["enabled" := Bool(false)])
      && ObjectFieldLoad(edited.value[0], "enabled") == Ok(Arr([]))
      && CheckboxChecked(InitialValue(ObjectFieldLoad(edited.value[0], "enabled").value, flag))
  {
  }

  /** Corrected, every value a nested field sends up other than null or
      undefined is handed to that field on its next mount. */
  lemma SubFieldEditReachesFieldFixed(cur: Value, i: int, key: string, v: Value)
    requires 0 <= i < |AsArray(cur)| && AsArray(cur)[i].Obj? && key != ""
    ensures Updated(cur, i, Some(key), v).Ok?
    ensures ObjectFieldLoadFixed(Updated(cur, i, Some(key), v).value[i], key) == Ok(v) <==> !v.Null? && !v.Undefined?
  {
  }

  /** Corrected, the field then STARTS from the value it sent up exactly when
      that value is truthy or equals the field's own default: the mount rule
      `valueAtLoad || setting.default` still replaces a handed-over false, 0,
      "" or NaN by the default. */
  lemma SubFieldEditStartsFieldFixed(cur: Value, i: int, key: string, v: Value, sub: Setting)
    requires 0 <= i < |AsArray(cur)| && AsArray(cur)[i].Obj? && key != ""
    requires !v.Null? && !v.Undefined?
    ensures Updated(cur, i, Some(key), v).Ok?
    ensures InitialValue(ObjectFieldLoadFixed(Updated(cur, i, Some(key), v).value[i], key).value, sub) == v
      <==> Truthy(v) || v == sub.default
  {
    SubFieldEditReachesFieldFixed(cur, i, key, v);
    ReloadKeepsValueIff(v, sub);
  }

  /** Corrected, the switched-off "enabled" field of the discrepancy above
      reopens unchecked exactly when its own default is falsy. */
  lemma FalseSubFieldRemountsFixed(flag: Setting)
    ensures var edited := Updated(Arr([Obj(map["enabled" := Bool(true)])]), 0, Some("enabled"), Bool(false));
      && edited.Ok?
      && ObjectFieldLoadFixed(edited.value[0], "enabled") == Ok(Bool(false))
      && (CheckboxChecked(InitialValue(ObjectFieldLoadFixed(edited.value[0], "enabled").value, flag)) <==> Truthy(flag.default))
  {
  }

  /** The descriptor each item of a scalar list is rendered with: the list's
      own descriptor with its kind replaced by the item kind. */
  function ItemSetting(s: Setting): (r: Setting)
    ensures r.kind == s.listof
    ensures r.(kind := s.kind) == s
  {
    s.(kind := s.listof)
  }

  /** The value an item of a scalar list is mounted with (`subValue || null`). */
  function ScalarItemLoad(item: Value): (r: Value)
    ensures Truthy(item) ==> r == item
    ensures !Truthy(item) ==> r == Null
  {
    Or(item, Null)
  }

  /** A scalar item starts from its stored value when that is truthy; a falsy
      one, such as the "" a fresh text item holds, starts from the LIST's own
      default, since the item descriptor inherits it. The item field also
      reports under the list's own name, which the wiring discards. */
  lemma ScalarItemStartsFrom(s: Setting, item: Value)
    ensures Truthy(item) ==> InitialValue(ScalarItemLoad(item), ItemSetting(s)) == item
    ensures !Truthy(item) ==> InitialValue(ScalarItemLoad(item), ItemSetting(s)) == s.default
    ensures ItemSetting(s).name == s.name
  {
  }
}
