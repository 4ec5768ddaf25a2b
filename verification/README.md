# Container widgets of mongodbforms, in Dafny

mongodbforms lets a Django form edit MongoEngine documents. A `ListField`
or `MapField` has no single HTML input, so `mongodbforms/widgets.py`
defines container widgets that spread one Python value over several
sub-widget inputs and read it back from the flat submission a browser
posts:

- `ListWidget` renders a list as sub-widgets `name_0 … name_n`, the last
  one blank, and reads it back by walking `name_i` from 0 until an index is
  missing, keeping only values outside Django's `EMPTY_VALUES` (and `None`
  when files were posted, so positions line up with uploads).
- `MapWidget` renders a dict as groups `name_key_i` / `name_value_i`, the
  last group blank, and reads it back by walking `name_key_i` in `data`,
  dropping empty keys and letting a later key overwrite an earlier one.
- `BaseContainerWidget.id_for_label` points the container's `<label>` at
  `<id>_0`.
- `DeletableFileWidget` pairs a file input with a "delete" checkbox, and
  `ListOfFilesWidget` is a list widget of those, read back until the first
  item whose file part `name_i_0` was not posted.

The model is functional. Field names are the constructor
`Name = Base(text) | Sub(parent, kind, index)`, so `name + '_%s' % i` is
`Sub(name, Item, i)` and distinct constructions are distinct names
(`FormData.SpellingCollides` shows that the strings themselves can clash).
A submission is two maps from names, `data` and `files`. A sub-widget's
`value_from_datadict` is a function parameter (`FormData.Extractor`), its
`render` call is recorded as a `Slot(name, id, value)`, Python `None` is
`Option.None`, and `EMPTY_VALUES` is `FormData.Empty`: `None` plus a
caller-supplied `isEmpty` predicate for the other values. Every decoding
scan terminates on the set of submitted names of its run still ahead
(`FormData.Remaining`), so its length is bounded by `|data| + |files|`.
Renderers return `Result`: the `TypeError` of the type guard and the
`AttributeError` of a method the value lacks are error values.

Files: `form_data.dfy` (names, submissions, empty values, scans),
`base_container.dfy`, `list_widget.dfy`, `map_widget.dfy`,
`file_widgets.dfy`.

## Model

| member | source | states |
|---|---|---|
| FormData.Submitted | mongodbforms/widgets.py:98 | the names a list scan tests are exactly those in `data` or in `files`, and there are at most `len(data) + len(files)` of them |
| FormData.Gap | mongodbforms/widgets.py:96-106 | where a scan from an index stops: the first index whose name is missing, every index before it being present |
| FormData.GapWithinSubmission | mongodbforms/widgets.py:96-106 | a scan from index 0 visits no more indices than there are submitted names, so every decoding loop ends |
| FormData.GapFromInside | mongodbforms/widgets.py:96-106 | resuming a scan at any index inside the contiguous run stops at the same gap |
| FormData.SpellingCollides | mongodbforms/widgets.py:98 | the string `name + '_%s' % i` does not determine its parts: item 1, part 0 of `f` and item 0 of `f_1` are both `f_1_0` |
| BaseContainer.SubId | mongodbforms/widgets.py:77-78 | a non-empty container id gets a strictly longer id for each sub-widget, extending it; an empty or missing id is passed on unchanged |
| BaseContainer.IdForLabel | mongodbforms/widgets.py:30-34 | a non-empty id gets the suffix `_0`; an empty or missing id is returned unchanged |
| BaseContainer.LabelIsFirstItemId | mongodbforms/widgets.py:30-34 | the label id is the id the list renderer gives its sub-widget at index 0 |
| ListWidget.Render | mongodbforms/widgets.py:65-81 | as written: a non-list raises the type error, a tuple passes the guard and fails at `append`, `None` and lists render `n + 1` slots `name_0 … name_n` with derived ids, the elements and then the blank, and the caller's list ends up with the blank appended |
| ListWidget.RenderFixed | mongodbforms/widgets.py:65-81 | corrected: an error exactly for a non-list-or-tuple value; tuples render like lists; the caller's list is unchanged |
| ListWidget.RenderFixedAgrees | mongodbforms/widgets.py:65-81 | wherever the written renderer succeeds the corrected one renders the same slots |
| ListWidget.RenderTwiceGrows | mongodbforms/widgets.py:72-75 | rendering the same list object a second time shows one slot more than the list had, the stale blank included |
| ListWidget.RenderFixedIsRepeatable | mongodbforms/widgets.py:72-75 | the corrected renderer gives the same result when rendering again what the caller holds afterwards |
| ListWidget.LabelTargetsFirstSlot | mongodbforms/widgets.py:30-34 | for every list, tuple or `None`, the label id equals the id of the first rendered sub-widget |
| ListWidget.Decode | mongodbforms/widgets.py:94-107 | at most one value per contiguous submitted index; without files no empty value survives, and with files the only empty value kept is `None` |
| ListWidget.DecodeIsFilteredScan | mongodbforms/widgets.py:98-105 | the decoded list equals the reference filter applied to the sub-widget's values at indices `0 … gap-1` |
| ListWidget.DecodePreservesOrder | mongodbforms/widgets.py:98-105 | each decoded value is the sub-widget's value at a strictly increasing index below the gap, and an index appears exactly when its value passes the `EMPTY_VALUES` test |
| ListWidget.DecodeKeepsPositionsWithFiles | mongodbforms/widgets.py:100-105 | with files posted and a sub-widget that yields `None` or a non-empty value, position `i` of the result is index `i` of the submission |
| ListWidget.DecodeDeterminedBeforeGap | mongodbforms/widgets.py:96-107 | two submissions that agree on which indices up to the gap are present, on the values below it and on whether files were posted decode alike |
| ListWidget.DecodeIgnoresKeysBeyondGap | mongodbforms/widgets.py:98 | for a sub-widget reading only its own entry, extra entries past the gap change nothing unless they are the first files posted |
| ListWidget.SurvivorsInOrder | mongodbforms/widgets.py:104-105 | the reference filter keeps exactly the admitted values, at strictly increasing positions |
| ListWidget.RenderDecodeRoundTrip | mongodbforms/widgets.py:72-105 | rendering a list of non-empty values, posting the slots back and decoding with a plain input yields the list again, without the blank |
| MapWidget.Render | mongodbforms/widgets.py:116-153 | as written: a non-dict raises the type error, `None` passes the guard and fails at `items()`, a dict renders one group per entry plus a blank group with names `name_key_i` / `name_value_i` and ids `<id>_key_i`, `<id>_value_i`, `fieldset_<id>_i` |
| MapWidget.RenderFixed | mongodbforms/widgets.py:116-153 | corrected: an error exactly for a non-dict value; `None` renders like an empty dict |
| MapWidget.RenderFixedAgrees | mongodbforms/widgets.py:116-153 | wherever the written renderer succeeds the corrected one gives the same groups |
| MapWidget.LabelMatchesNoElement | mongodbforms/widgets.py:129-147 | with a non-empty id, the inherited label id `<id>_0` equals no fieldset, key or value id of any rendered group |
| MapWidget.IdForLabelFixed | mongodbforms/widgets.py:138-141 | corrected label id: a non-empty id is extended; an empty or missing one is unchanged |
| MapWidget.FixedLabelTargetsFirstKey | mongodbforms/widgets.py:138-141 | the corrected label id is the id of the first group's key sub-widget |
| MapWidget.Decode | mongodbforms/widgets.py:155-168 | no key of the result is empty, and there are at most as many keys as contiguous `name_key_i` in `data` |
| MapWidget.DecodeCharacterised | mongodbforms/widgets.py:156-168 | the keys are exactly the non-empty keys read below the first missing `name_key_i`, each mapped to the value read at the last index carrying it |
| MapWidget.ScanIgnoresFiles | mongodbforms/widgets.py:158 | the scanned indices depend on `data` alone; `files` matters only through what the sub-widgets read |
| MapWidget.RenderDecodeRoundTrip | mongodbforms/widgets.py:126-166 | rendering a dict with non-empty keys, posting the groups back and decoding with plain inputs yields the dict again, without the blank group |
| FileWidgets.Decompress | mongodbforms/widgets.py:204-205 | one value per part, in order: the stored file for the file input, an unticked box for the checkbox |
| FileWidgets.DeletableDecode | mongodbforms/widgets.py:207-211 | `None` exactly when `name_0` was posted in neither `data` nor `files`; otherwise the multi-widget's reading |
| FileWidgets.ListOfFiles | mongodbforms/widgets.py:227-236 | item `i` of the result is the deletable-file value at `name_i`, none is `None`, the next index reads `None`, and the length is bounded by the submission |
| FileWidgets.ListOfFilesIsMaximal | mongodbforms/widgets.py:231-235 | any list whose items are the non-`None` deletable-file values at indices `0 … k-1` is a prefix of the result |

## Left out

- HTML output: templates, `format_output`, `mark_safe`, `flatatt`, the `<fieldset>` markup, the delete label text. The model records the sub-widget render calls and ids instead.
- `build_attrs` and attributes other than `id`: only the `id` is modelled, as an optional string.
- `Media`, `_get_media`, `__deepcopy__`, and `__init__` wiring (`is_localized`, class-or-instance `data_widget`, the `TextInput` / `HiddenInput` key widgets).
- `HiddenMapWidget`: it differs only by `is_hidden`, which affects only the fieldset markup.
- `Html5SplitDateTimeWidget`: it only configures Django widgets.
- The Django sub-widgets themselves (`TextInput`, `FileInput`, `CheckboxInput`, `MultiWidget.value_from_datadict`) are parameters. The string `''` appended by the renderers is a parameter too (`blank`).
- Names are constructed values, not strings. The scans therefore cannot confuse the sub-fields of one container with another field whose name spells the same string. `FormData.SpellingCollides` shows such a clash is possible in the source.
- `ListOfFilesWidget.render` is `ListWidget.render` unchanged, so it has no separate member.

## Findings

| source | as written | input that shows it | evidently intended | confidence | as-written member | corrected member |
|---|---|---|---|---|---|---|
| mongodbforms/widgets.py:66-75 | the guard admits a tuple, then `value.append('')` is called on it | `render('f', (1, 2))` raises `AttributeError` | tuples render like lists, as the guard's message says | high (not executed) | ListWidget.Render | ListWidget.RenderFixed |
| mongodbforms/widgets.py:72-75 | the caller's list receives the blank `''` | rendering the same list `[1]` twice renders three sub-widgets the second time | append to a copy and leave the caller's value alone | high (not executed) | ListWidget.RenderTwiceGrows | ListWidget.RenderFixedIsRepeatable |
| mongodbforms/widgets.py:117-126 | the guard admits `None`, then `value.items()` is called on it | `render('m', None)` raises `AttributeError` | `None` renders like `{}`, as `ListWidget` does | high (not executed) | MapWidget.Render | MapWidget.RenderFixed |
| mongodbforms/widgets.py:30-34 | `MapWidget` inherits `id_for_label`, returning `<id>_0` | with `id='m'` the label targets `m_0`; the inputs are `m_key_0`, `m_value_0`, the fieldset `fieldset_m_0` | the label targets the first key input, `<id>_key_0` | medium (not executed) | MapWidget.LabelMatchesNoElement | MapWidget.FixedLabelTargetsFirstKey |
