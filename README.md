# TkinterUI form elements: value logic in Dafny

`forms.py` builds Tkinter input widgets for a form. Almost all of it is widget construction. Three groups of plain logic sit inside it, and this project models them with the widget calls stripped away. Each `tk.StringVar` is treated as a single string cell.

- **Choice sets** (`ChoiceForm`, `RadioForm`, and the choice-list operations of `MultiChoiceForm`). Each element keeps an ordered `choices` list and a selection cell.
  - The value setter accepts only members of the list.
  - `add_choice` refuses duplicates.
  - `remove_choice` refuses missing entries. When the selected choice is removed, the selection moves to the new first choice, or to `""`.
  - `clear_choices` empties both the list and the cell.
  - `ChoiceForm.regen_widgets` raises `ValueError` on an empty list, after the state has already changed. The other two kinds do not raise.
  - A `ChoiceForm` builds its option menu only after the empty-list check has passed. When `ChoiceForm.regen_widgets` raises, the old menu is already destroyed and no new one is built; tkinter's `OptionMenu` then answers `option_menu["menu"]` with `None`. A `ChoiceForm` constructed on an empty list has no menu either. In that state every `add_choice`, `remove_choice` or `clear_choices` first makes its list change. It then fails with an `AttributeError` when it uses the missing menu (lines 241, 253, 264). `remove_choice` therefore skips the selection repair. The state's `menuLive` flag records whether a menu exists. The error is `StaleMenu`. The value setter does not touch the menu.
  - `choice_logic.dfy` (module `ChoiceLogic`) states these operations as pure transitions `ChoiceState -> Step`. A `Step` is the new state plus `Done` or `Raised(error)`.
  - `choice_form.dfy` (module `ChoiceForms`) has the class `ChoiceElement`. Its fields are `choices`, `value` and `menuLive`, and a `kind` flag says which element it is. Each method changes the fields in place and is proved to leave exactly the state of the matching transition.
- **List encoding** (`ListForm`, `list_form.dfy`). The cell holds `",".join(xs)`; the getter returns `cell.split(",")`, or `[]` for an empty cell. `Join` and `Split` model Python's `str.join` and `str.split` with `","` as the separator. The lemmas state the round-trip law exactly: it holds precisely for lists with no comma in any element that are not `[""]`. They also show that storing the getter's result is a fixpoint.
- **Path and colour cells** (`FileForm`, `DirectoryForm`, `PathForm`, `ColorForm`, `path_form.dfy`). A falsy argument stores `""` (or `"#FFFFFF"` for colours); any other argument is stored verbatim.
  - `FileForm` has `clear` and `reset`, and `DirectoryForm` inherits them; both empty the cell. `PathForm` and `ColorForm` have neither.
  - The browse and colour-picker dialogs are I/O. Their answers become parameters, and a cancelled dialog leaves the cell unchanged.

Python's `None` is `Optional.Option.None` here. "Truthy" means `Some` of a non-empty string or list.

Facts of `forms.py` that shape the model:
- Constructing a `ChoiceForm` or `RadioForm` with an empty list fails only when `default` is falsy, and then with an `IndexError` from `choices[0]` (`NoFirstChoice`). A truthy default is accepted even when the list is empty. It is also accepted when the default is not among the choices.
- Construction never checks the default against the list. So the selection invariant, `value == "" || value in choices`, holds afterwards exactly as `NewSingleSpec` states. The setter, `add_choice` and `clear_choices` always preserve it. `remove_choice` preserves it on an element that has its option menu, provided the Tk menu calls succeed. On a `ChoiceForm` without a menu, `remove_choice` breaks it (`StaleRemoveBreaksConsistent`, `StaleRunExample`).
- No `Form` aggregation or submission code exists in `forms.py` (`Form` is an empty frame), so none is modelled.

## Model

| member | source | states |
|---|---|---|
| `ListForm.Split` | forms.py:166 | `str.split(",")` always yields at least one piece |
| `ListForm.JoinSplit` | forms.py:166-172 | `Join(Split(s)) == s` for every string, `""` included |
| `ListForm.SplitCommaFree` | forms.py:166 | no piece of a split contains `','` |
| `ListForm.SplitJoin` | forms.py:166-172 | `Split(Join(xs)) == xs` for a non-empty list with no comma in any element |
| `ListForm.JoinEmpty` | forms.py:166-172 | the join is `""` exactly for `[]` and `[""]`, so these are the inputs the getter's empty-cell branch catches |
| `ListForm.RoundTrip` | forms.py:163-174 | set then get returns `xs` if and only if no element contains a comma and `xs != [""]` |
| `ListForm.SetEmptyGet` | forms.py:166-174 | setting `None` or `[]` reads back as `[]` |
| `ListForm.GetSetFixpoint` | forms.py:163-174 | storing the getter's result leaves the cell unchanged for every cell, and the getter's elements are comma-free |
| `ListForm.LossyExamples` | forms.py:166-172 | `["a,b"]` reads back as `["a","b"]`, `["a,b","c"]` as `["a","b","c"]`, `[""]` as `[]` |
| `ListForm.InitialIsSet` | forms.py:152-154 | the constructor stores the same cell as the setter would (`join([]) == ""`) |
| `ChoiceLogic.FirstIndex` | forms.py:251 | the index `list.remove` deletes: holds the choice, with no earlier copy |
| `ChoiceLogic.RemoveFirst` | forms.py:251 | `list.remove` on a present value: the first occurrence is spliced out and the order of the rest kept. Python raises `ValueError` on an absent value; the model returns the list unchanged there instead. That case never arises, because every call is guarded by `in` (lines 250, 333, 485) |
| `ChoiceLogic.RemoveFirstCounts` | forms.py:251 | `list.remove` of a present value shortens the list by one and drops exactly one copy from its multiset |
| `ChoiceLogic.SetValueSpec` | forms.py:229-235 | the setter of `ChoiceForm` (and `RadioForm`, forms.py:467-473) stores the value exactly when it is in `choices`; otherwise it raises `ValueError` and changes nothing |
| `ChoiceLogic.AddChoiceSpec` | forms.py:237-246 | a new choice is appended at the end with the selection unchanged. The call returns, except on a `ChoiceForm` whose menu is gone, which raises at the menu access (line 241) after appending. A present choice raises `ValueError` with nothing changed (also `RadioForm` 475-481, `MultiChoiceForm` 322-329) |
| `ChoiceLogic.RemoveChoiceSpec` | forms.py:248-258 | a missing choice raises with nothing changed. Otherwise exactly one copy, the first, is removed, the length drops by one, and the multiset loses one copy. On a live element, the selection becomes the new first choice or `""` when it was the removed choice, and is unchanged otherwise. A `ChoiceForm` whose menu is gone raises at line 253, before the repair, so its selection is unchanged (also 483-491, 331-341) |
| `ChoiceLogic.RemoveChoiceRaises` | forms.py:248-258 | a removal raises `StaleMenu` exactly on a `ChoiceForm` whose menu is gone. It raises `EmptyChoices` exactly on a live `ChoiceForm` whose list was `[c]` (the check at 217-218). Otherwise it returns. On a live element the list and selection do not depend on the kind |
| `ChoiceLogic.ClearChoicesSpec` | forms.py:260-265 | clearing leaves no choices and `value == ""`. `ChoiceForm` then raises: at the menu access (264) if its menu was already gone, otherwise `ValueError` from re-rendering. Either way it is left without a menu. `RadioForm` (493-497) and `MultiChoiceForm` (343-348) return |
| `ChoiceLogic.StaleIsPermanent` | forms.py:213-265 | once a `ChoiceForm` has lost its menu, no operation brings it back. The value setter never re-renders, and each choice-list operation raises before reaching `regen_widgets` |
| `ChoiceLogic.SetValuePreservesConsistent` | forms.py:232-233 | the setter keeps the selection invariant: `value` is `""` or one of `choices` |
| `ChoiceLogic.AddChoicePreservesConsistent` | forms.py:239-240 | `add_choice` keeps the selection invariant |
| `ChoiceLogic.RemoveChoicePreservesConsistent` | forms.py:250-255 | on a live element, `remove_choice` keeps the selection invariant, repairing it when the selected choice goes |
| `ChoiceLogic.StaleRemoveBreaksConsistent` | forms.py:250-253 | on a `ChoiceForm` without a menu and with no duplicate choices, removing the non-empty selected choice leaves a selection that is not a choice |
| `ChoiceLogic.StaleRunExample` | forms.py:237-258 | from `ChoiceForm(["a"], "a")` the run remove `"a"`, add `"b"`, set `"b"`, remove `"b"` ends with `choices == []` and `value == "b"` |
| `ChoiceLogic.ClearChoicesPreservesConsistent` | forms.py:262-263 | `clear_choices` establishes the selection invariant |
| `ChoiceLogic.AddChoicePreservesDistinct` | forms.py:239-240 | `add_choice` never introduces a duplicate |
| `ChoiceLogic.RemoveChoiceFromDistinct` | forms.py:250-251 | on a duplicate-free list, `remove_choice` removes the choice completely and keeps the list duplicate-free |
| `ChoiceLogic.AddThenRemove` | forms.py:237-258 | adding a fresh choice and removing it restores the list and the selection, provided the selection was not that choice. The second call raises `StaleMenu` on a `ChoiceForm` without a menu; otherwise it ends as re-rendering the original list would |
| `ChoiceLogic.NewSingleSpec` | forms.py:208-211 | the initial cell is `default` if truthy, else `choices[0]`. Construction fails (`IndexError`) exactly when neither exists. The result is consistent exactly when the default is falsy or among the choices. A `ChoiceForm` built on an empty list starts without a menu, since `option_menu` is created only after the check at 217-218 (also `RadioForm` 449-452) |
| `ChoiceLogic.NewMultiSpec` | forms.py:271-276 | the multi-choice cell starts as the comma-joined default, which reads back as the default through the list codec when no element holds a comma and it is not `[""]` |
| `ChoiceForms.ChoiceElement.constructor` | forms.py:208-211 | fields after `ChoiceForm`/`RadioForm` construction: those of `NewSingle`, including no option menu for a `ChoiceForm` on an empty list |
| `ChoiceForms.ChoiceElement.Multi` | forms.py:271-276 | fields after `MultiChoiceForm` construction: those of `NewMulti` |
| `ChoiceForms.ChoiceElement.SetValue` | forms.py:229-235 | updates the cell in place as `ChoiceLogic.SetValue` says and returns its outcome; keeps the selection invariant |
| `ChoiceForms.ChoiceElement.AddChoice` | forms.py:237-246 | appends in place as `ChoiceLogic.AddChoice` says; keeps the selection invariant and distinctness |
| `ChoiceForms.ChoiceElement.RemoveChoice` | forms.py:248-258 | removes in place as `ChoiceLogic.RemoveChoice` says; on a live element, keeps the selection invariant; on a duplicate-free list, the choice is gone afterwards |
| `ChoiceForms.ChoiceElement.ClearChoices` | forms.py:260-265 | empties list and cell; the outcome is `ChoiceLogic.ClearChoices`'s |
| `PathForms.PathRoundTrip` | forms.py:378-381 | a path setter stores every string verbatim (so set/get round-trips, `""` included); `None` stores `""` (also 407-410, 440-443) |
| `PathForms.PathIdempotent` | forms.py:440-443 | setting the value read back changes nothing |
| `PathForms.ClearResetEmpty` | forms.py:383-390 | `clear` and `reset` both set `""`, the same as setting `None` |
| `PathForms.BrowseSpec` | forms.py:367-371 | cancelled dialogs leave the cell unchanged. Browsing never clears a path that is set. Choosing the same answer twice is the same as choosing it once. When the file dialog is cancelled, `PathForm` acts on the directory answer (429-433) |
| `PathForms.StoreColor` | forms.py:527-530 | a colour cell is never empty after the setter |
| `PathForms.ColorRoundTrip` | forms.py:527-530 | a colour reads back as set if and only if it is non-empty; `None` and `""` store `"#FFFFFF"` |
| `PathForms.ColorIdempotent` | forms.py:527-530 | setting the colour read back changes nothing |
| `PathForms.SelectColorSpec` | forms.py:516-520 | a cancelled colour dialog (`color[1]` falsy) leaves the cell unchanged, and picking never empties the cell. In particular, the non-empty colour the setter stores stays non-empty |

## Left out

- Widget building and packing: every `regen_widgets` body apart from the empty-list check, the OptionMenu `add_command`/`delete` calls and the Listbox `insert`/`delete` calls. These are Tk calls with no logic of their own. The model keeps only whether `ChoiceForm`'s menu exists. Calls on an existing menu are taken to succeed. Tk reads the label passed to `menu.delete(choice)` (forms.py:253) as a pattern, so a choice such as `"a[b"` may fail there even on a live menu. That would skip the selection repair at 254-256, and it is not modelled.
- `ChoiceLogic.RemoveChoicePreservesConsistent` and the matching clause of `ChoiceForms.ChoiceElement.RemoveChoice`: both hold only for an element that is not a `ChoiceForm` without its option menu. They also assume the Tk menu calls succeed (see above). Without a menu, the source itself breaks the invariant (`StaleRemoveBreaksConsistent`).
- The type check in `ChoiceForm.regen_widgets` (forms.py:219-220): the cell is always a `StringVar`, so it never raises.
- The OS file, directory and colour dialogs are I/O. Their answers are parameters of `Browse`, `BrowsePath` and `SelectColor`.
- The construction sequence: `FormElement.__init__` calls `regen_widgets()` (forms.py:27) before the subclass assigns its fields, which raises `AttributeError` in the real program. The constructors model the fields as they stand once assigned. They take the widgets to be built from those fields, so a `ChoiceForm` has an option menu exactly when its list is non-empty.
- `ChoiceForms.ChoiceElement.SetValue`: it requires a `ChoiceForm` or `RadioForm`. `MultiChoiceForm` has a different setter, which is left out (see below).
- `MultiChoiceForm`'s value getter and setter and `_on_select` (forms.py:287-320): they read Listbox selection state, which `regen_widgets` discards by rebuilding the Listbox.
- The scalar forms (`StringForm`, `IntForm`, `FloatForm`, `BoolForm`): their setters hand the value to Tk variable coercion, and `FloatForm` is floating point.
- `DictForm`: it depends on Python's `str()` of a dict and on `ast.literal_eval`, which is a foreign parser.
- `ColorPickerForm`: its `trace_add` observer only updates the display.
- `Form`: it is an empty frame. The file contains no aggregation or submission code.
- Aliasing: the caller's `choices` list is stored and mutated through the alias (forms.py:211, 452). The model owns its sequence.
- `windows.py` (`DockablePanedWindow`): it only toggles the layout orientation.
