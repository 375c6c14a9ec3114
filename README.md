# SettingElement value handling, modelled in Dafny

The adventure editor renders each field of an adventure's configuration from a
declarative `Setting` descriptor through the `SettingElement` component. Under
its markup the component keeps one piece of local state, the field's `value`,
and changes it through a few handlers. Each handler also reports the new value
to the parent through `updateFn(setting.name, newValue)`. List fields hold an
ordered sequence of items. Their handlers append an empty item, drop an item,
or replace an item or one key of it. Every item of a list is rendered by a
nested `SettingElement` whose `updateFn` is wired back into those handlers.

This project models that value handling:

- `js_value.dfy` (module `JsValue`): the JavaScript values the field stores
  (`undefined`, `null`, booleans, numbers, `NaN`, strings, File handles,
  objects, arrays) and the operators the handlers rely on: truthiness, `||`,
  `??`, `Array.isArray`, and reading and writing one key. An expression that
  would throw gives `TypeError`.
- `list_edits.dfy` (module `ListEdits`): the three list edits as functions
  from the current local value to the new item sequence. `.filter` and `.map`
  are modelled item by item, and their contracts give the result in slice
  form and in point-update form.
- `settings.dfy` (module `Settings`): the `Setting` descriptor and the pure
  rules derived from it. These are the initial value, the approval gate, the
  option list of a select, and the value and descriptor each list item's
  nested field is mounted with.
- `setting_element.dfy` (module `Element`): the class `SettingElement`. Its
  fields are the descriptor, the local `value`, and `calls`, the log of every
  `updateFn` call made. It has one method per handler. Every storing handler
  ends with exactly one new call, and that call carries the newly stored value.
  The predicate `InSync` (the parent's latest report equals the local value)
  is preserved by all of them. The file handler is the exception: it reports a
  file without storing it.

Modelling choices:

- `type`, `listof` and `includeDynamicOptions` are strings. The empty string
  stands for an absent one, because the code only compares them with
  non-empty literals.
- The handlers' state updaters run synchronously, one at a time.
- The module's code is taken to run in strict mode, as ES modules do. So
  `prior[subField] = value` throws on a primitive item, not only on `null`
  and `undefined`.
- A throwing updater leaves the value unchanged and makes no `updateFn` call,
  because `updateFn` is called after the new sequence is built.

Where the documented behaviour and the code differ, the model follows the code:

- `addToList` appends `{}` to a list of objects. The new item therefore does
  not hold one entry per `listSchema` field.
- `removeItem` and `updateItem` apply `.filter` and `.map` to `old || []`.
  So a truthy local value that is not an array throws. Only array values
  render rows, so the UI never reaches this case (`ListEdits.RowEditsSucceed`).
- A falsy stored value (`false`, `0`, `""`) never reaches the field on
  mount. Line 52 replaces it with the default. For object-item fields, line
  319 replaces it with `[]`.

## Model

| member | source | states |
|---|---|---|
| `JsValue.OrEmpty` | components/editor/setting-element.tsx:107 | `old`, or `[]` when falsy, used as the array receiver succeeds exactly for arrays and falsy values, and then gives the same items as the `Array.isArray` normalisation |
| `JsValue.AsArray` | components/editor/setting-element.tsx:296 | the tag-list and list normalisation presents an array's own items and presents any non-array value as the empty sequence |
| `JsValue.GetKey` | components/editor/setting-element.tsx:319 | `subValue[name]` throws exactly on null and undefined; on an object it reads the key, or undefined when the key is missing |
| `JsValue.SetKey` | components/editor/setting-element.tsx:132 | `prior[subField] = value` succeeds exactly on objects (and arrays and files); on an object the result is the same object with that one key set |
| `JsValue.SetThenGet` | components/editor/setting-element.tsx:132 | after a key of an object is set, reading that key gives the new value and every other key reads as before |
| `ListEdits.EmptyItem` | components/editor/setting-element.tsx:96-97 | the appended item is `{}` exactly for `listof == "object"`, `""` exactly for `"text"`, and `null` otherwise |
| `ListEdits.Appended` | components/editor/setting-element.tsx:99 | the new sequence is one longer, keeps all old items (none for a non-array) in order as its prefix, and ends with the empty item |
| `ListEdits.KeepOthers` | components/editor/setting-element.tsx:107-109 | filtering out index i drops exactly position i when it is in range, keeps the rest in order, and keeps everything when i is out of range |
| `ListEdits.Removed` | components/editor/setting-element.tsx:105-109 | `removeItem(i)` gives the old items without position i (length one less) for an in-range i, the same items for an out-of-range i, `[]` for a falsy old value, and throws only when the old value is a truthy non-array |
| `ListEdits.EditItem` | components/editor/setting-element.tsx:128-137 | the updated item is the old item with key `subField` set when `subField` is a non-empty string, and the new value itself otherwise |
| `ListEdits.MapEdit` | components/editor/setting-element.tsx:126-142 | the item-by-item `.map` equals replacing only position `index` by the edited item, leaves the sequence as it is when `index` is out of range, and throws exactly when that edit throws |
| `ListEdits.Updated` | components/editor/setting-element.tsx:124-142 | `updateItem` keeps the length and every other position, puts the value at `index` (or sets one key of the item there), and throws exactly for a truthy non-array or a key set on an item that cannot hold one |
| `ListEdits.AddThenRemoveRestores` | components/editor/setting-element.tsx:95-113 | appending an item and then removing the last position gives back the old items |
| `ListEdits.RemoveThenReinsert` | components/editor/setting-element.tsx:105-109 | inserting the removed item back at its position gives back the original list, so removal drops exactly that one item |
| `ListEdits.RowEditsSucceed` | components/editor/setting-element.tsx:296-304 | for any position of a rendered row, removal succeeds and shortens the list by one; a whole-item update, or a keyed update of an object item, succeeds |
| `ListEdits.SubFieldUpdateSetsOneKey` | components/editor/setting-element.tsx:129-133 | a keyed update of an object item adds or replaces exactly that key; every other key keeps its value |
| `ListEdits.UpdateThenRestore` | components/editor/setting-element.tsx:134-140 | writing the old item back at the same position undoes a whole-item update |
| `ListEdits.SubFieldUpdateThenRestore` | components/editor/setting-element.tsx:129-133 | writing a key's old value back undoes a keyed update |
| `Settings.InitialValue` | components/editor/setting-element.tsx:52 | a field starts from the loaded value when it is truthy and from the descriptor's default otherwise |
| `Settings.ReloadKeepsValueIff` | components/editor/setting-element.tsx:52 | a saved value survives a remount exactly when it is truthy or equals the default; a saved false, 0, "" or NaN reopens on the default |
| `Settings.IsDisabled` | components/editor/setting-element.tsx:149 | the gate is closed exactly when the descriptor requires approval and the user is not approved |
| `Settings.CheckboxChecked` | components/editor/setting-element.tsx:194 | a checkbox shows a boolean value as itself, shows any array, object or file as checked, shows a missing value or NaN as unchecked, and shows a string or number as checked exactly when it is non-empty or non-zero |
| `Settings.StaticOptions` | components/editor/setting-element.tsx:205 | `setting.options`, defaulted to empty, is the descriptor's options, or none when absent |
| `Settings.SelectOptions` | components/editor/setting-element.tsx:204-209 | the select lists the descriptor's options in order, followed by the dynamic themes in order exactly when `includeDynamicOptions == "image-themes"`; an option is listed iff it is one of those |
| `Settings.SelectedValue` | components/editor/setting-element.tsx:228 | a click forwards the option's value, or "" when it has none |
| `Settings.ItemFields` | components/editor/setting-element.tsx:315 | an object item renders one field per `listSchema` entry, or none when the schema is absent |
| `Settings.ObjectFieldLoad` | components/editor/setting-element.tsx:319 | as written, a field of an object item is mounted with the stored value only when it is truthy, and with `[]` otherwise; it throws on a null or undefined item; the value handed over is never falsy |
| `Settings.ObjectFieldLoadFixed` | components/editor/setting-element.tsx:319 | corrected, a field of an object item is mounted with any stored value other than null or undefined, and with `[]` when the key is missing |
| `Settings.SubFieldEditReachesField` | components/editor/setting-element.tsx:319-329 | as written, a value sent up by an object item's field comes back to it on remount exactly when the value is truthy or is `[]` |
| `Settings.FalseSubFieldRemountsChecked` | components/editor/setting-element.tsx:319 | counterexample: a boolean item field switched off is stored as false but remounts with `[]`, so its checkbox is rendered checked whatever the field's default |
| `Settings.SubFieldEditReachesFieldFixed` | components/editor/setting-element.tsx:319-329 | corrected, every value other than null or undefined sent up by an object item's field is handed to it on remount |
| `Settings.SubFieldEditStartsFieldFixed` | components/editor/setting-element.tsx:52 | corrected, a value other than null or undefined sent up by an object item's field is the value the remounted field starts from exactly when it is truthy or equals the field's default, because the mount rule still replaces a falsy value by the default |
| `Settings.FalseSubFieldRemountsFixed` | components/editor/setting-element.tsx:52 | corrected, a switched-off boolean item field is handed false and reopens unchecked exactly when its own default is falsy |
| `Settings.ItemSetting` | components/editor/setting-element.tsx:340-343 | a scalar item is rendered with the list's own descriptor, only its kind replaced by `listof` |
| `Settings.ScalarItemLoad` | components/editor/setting-element.tsx:337 | a scalar item is mounted with its stored value when truthy, and with null otherwise |
| `Settings.ScalarItemStartsFrom` | components/editor/setting-element.tsx:335-349 | a truthy scalar item starts from itself; a falsy one starts from the list's own default; the item reports under the list's name |
| `Element.SettingElement.constructor` | components/editor/setting-element.tsx:52 | a mounted field holds the loaded value when truthy, else the default, and has made no call |
| `Element.SettingElement.Store` | components/editor/setting-element.tsx:63-65 | the value is stored and exactly one call reports it under the field's name |
| `Element.SettingElement.OnInputChange` | components/editor/setting-element.tsx:54-58 | a file change reports the first file (undefined when none) without changing the local value; a change without a file list does nothing |
| `Element.SettingElement.OnTextboxChange` | components/editor/setting-element.tsx:60-66 | the raw string is stored and reported exactly once |
| `Element.SettingElement.OnTextboxIntChange` | components/editor/setting-element.tsx:68-74 | the parsed integer, or NaN when parsing fails, is stored and reported exactly once |
| `Element.SettingElement.OnTextboxFloatChange` | components/editor/setting-element.tsx:76-82 | the parsed number, or NaN when parsing fails, is stored and reported exactly once |
| `Element.SettingElement.OnCheckboxChange` | components/editor/setting-element.tsx:84-88 | the checked state is stored as a boolean and reported exactly once |
| `Element.SettingElement.OnSelectChange` | components/editor/setting-element.tsx:90-93 | the chosen string is stored and reported exactly once |
| `Element.SettingElement.OnSelectOption` | components/editor/setting-element.tsx:223-229 | clicking the k-th listed option stores and reports that option's value (or "") |
| `Element.SettingElement.OnTagListChange` | components/editor/setting-element.tsx:281-284 | the tag editor's replacement array is stored and reported exactly once, and the normalised value shown next is exactly those tags |
| `Element.SettingElement.AddToList` | components/editor/setting-element.tsx:95-103 | the local value becomes the appended sequence, and exactly one call reports it |
| `Element.SettingElement.RemoveItem` | components/editor/setting-element.tsx:105-113 | on success the local value becomes the sequence without position i and one call reports it; a throw changes nothing and calls nobody; a rendered row's index never throws |
| `Element.SettingElement.UpdateItem` | components/editor/setting-element.tsx:115-146 | on success the local value becomes the updated sequence and one call reports it; a throw changes nothing and calls nobody |
| `Element.SettingElement.OnObjectItemFieldChange` | components/editor/setting-element.tsx:323-329 | a report from a field of object item i under name n becomes a keyed update of key n of item i |
| `Element.SettingElement.OnScalarItemChange` | components/editor/setting-element.tsx:345-347 | a report from scalar item i ignores its key and replaces item i with the value |
| `Element.AddThenRemoveFromEmpty` | components/editor/setting-element.tsx:95-113 | on an empty list, add then remove at 0 calls the parent exactly twice, with the one-item list and then with `[]`, and ends on `[]` |
| `Element.EditObjectItemField` | components/editor/setting-element.tsx:315-333 | a checkbox edit in a field of object item i reaches the list as that one key of item i set; other keys and items are unchanged; one call reports the new list |

## Left out

- Rendering is not modelled. This covers the per-kind control dispatch, labels, descriptions, the "Coming Soon" alert, the approval overlay and its message, and the share link built from the site's base URL. Only `IsDisabled` and the checkbox's checked state (`CheckboxChecked`) are modelled. So the model does not show that the text, number and select inputs carry no `disabled` attribute when gated.
- React mechanics are not modelled: state updater scheduling, double invocation of updaters in development mode, component keys and re-render identity. Each handler updates `value` synchronously.
- Line 132 mutates `prior` in place, and the old array and the parent's copy may share that object. The model records only the resulting item, not the sharing.
- `parseInt` and `parseFloat` are not modelled. The integer and float handlers take the parse result as a parameter: a number, or none for `NaN`.
- File objects are modelled as opaque handles.
- The lazily loaded tag editor and the audio preview are components whose source is not part of this model. Only the tag editor's callback (lines 281-284) is modelled.
- `JsValue.GetKey`: on strings, arrays and numbers it always reads `undefined`. It does not model index or `length` reads or prototype members.
- `JsValue.SetKey`: on arrays and File objects the assignment leaves the modelled value unchanged. An index key on an array is not modelled as changing an element.
- Numbers are reals. `-0` and infinities are not modelled, and `NaN` is a separate value.
- `console.log` calls are not modelled.
- The rest of the repository is not modelled: pages, the webhook and trade routes, the quest narrative and the account components. It is routing, authentication, database access and I/O.

## Findings

| source | as written | input that shows it | evidently intended | confidence | as-written member | corrected member |
|---|---|---|---|---|---|---|
| components/editor/setting-element.tsx:319 | the field's mount value is `subValue[subField.name]` or-else `[]` | an object list item `{enabled: true}` whose boolean field is switched off: `updateItem` stores `{enabled: false}`, and on the next mount the field gets `[]`, so its checkbox renders checked | hand the stored value to the field, and fall back to `[]` only when the key is missing (`?? []`); this cures the unchecked-box symptom only when the sub-field's default is falsy, since line 52 (`valueAtLoad || setting.default`) is a second cause that swaps a handed-over false for the default | medium; not executed | `Settings.FalseSubFieldRemountsChecked` | `Settings.SubFieldEditReachesFieldFixed` |
