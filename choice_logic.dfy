/** The choice-set logic shared by `ChoiceForm`, `RadioForm` and the
    choice-list operations of `MultiChoiceForm` (forms.py), as pure
    transitions on a snapshot of the element: its ordered `choices` list and
    the string held in its `_var` cell.  Each transition gives the new
    snapshot and whether the Python call returns or raises. */
module ChoiceLogic {
  import opened Optional
  import ListForm

  /** Which element: the three differ only in how they re-render. */
  datatype Kind = Choice | Radio | MultiChoice

  /** `ChoiceForm.regen_widgets` destroys its option menu and then refuses
      an empty list before building a new one; the other two rebuild
      whatever the list holds and return. */
  predicate RaisesOnEmpty(kind: Kind) {
    kind == Choice
  }

  /** The exceptions these operations raise. */
  datatype FormError =
    | NotInChoices(value: Option<string>)  // ValueError: value is not in the choices
    | ChoiceExists(choice: string)         // ValueError: choice already exists
    | ChoiceMissing(choice: string)        // ValueError: choice does not exist
    | EmptyChoices                         // ValueError: choices must be a non-empty list
    | StaleMenu                            // AttributeError: no option menu to update
    | NoFirstChoice                        // IndexError: choices[0] of an empty list

  datatype Outcome = Done | Raised(error: FormError)

  /** A snapshot of the element.  `menuLive` says whether a `ChoiceForm`
      has a usable option menu.  It has none when its list was empty the
      last time its widgets were built: the menu is created only once the
      empty-list check has passed, and a re-render that raised has already
      destroyed the old one, after which `option_menu["menu"]` is `None`.
      The other kinds keep no menu; for them the flag plays no part. */
  datatype ChoiceState = ChoiceState(choices: seq<string>, value: string, menuLive: bool)

  /** What one call leaves behind: the new snapshot and how the call ended.
      A call that raises may still have changed the state first. */
  datatype Step = Step(after: ChoiceState, outcome: Outcome)

  /** A `ChoiceForm` whose option menu is gone: the menu access at the
      start of each choice-list operation raises. */
  predicate Stale(kind: Kind, st: ChoiceState) {
    kind == Choice && !st.menuLive
  }

  /** The selection is one of the choices, or nothing is selected. */
  predicate Consistent(st: ChoiceState) {
    st.value == "" || st.value in st.choices
  }

  predicate Distinct(s: seq<string>) {
    forall i, j :: 0 <= i < j < |s| ==> s[i] != s[j]
  }

  // ---------------------------------------------------------------------
  // Python's list.remove

  /** Index of the first occurrence of `x`. */
  function FirstIndex(s: seq<string>, x: string): (i: nat)
    requires x in s
    ensures i < |s| && s[i] == x && x !in s[..i]
  {
    if s[0] == x then 0
    else
      var j := FirstIndex(s[1..], x);
      assert s[..j + 1] == [s[0]] + s[1..][..j];
      j + 1
  }

  /** `s.remove(x)` on a list that holds `x`, and `s` itself otherwise:
      the first occurrence is spliced out and the order of the rest kept. */
  function RemoveFirst(s: seq<string>, x: string): (r: seq<string>)
    ensures x !in s ==> r == s
    ensures x in s ==> r == s[..FirstIndex(s, x)] + s[FirstIndex(s, x) + 1..]
  {
    if s == [] then []
    else if s[0] == x then s[1..]
    else
      var rest := RemoveFirst(s[1..], x);
      assert x in s ==> x in s[1..] && FirstIndex(s, x) == FirstIndex(s[1..], x) + 1;
      [s[0]] + rest
  }

  /** `regen_widgets` once the list is updated: the old widgets go, and
      either the check on an empty list raises, leaving no menu, or the
      widgets are built again. */
  function Rerender(kind: Kind, st: ChoiceState): Step {
    if RaisesOnEmpty(kind) && st.choices == [] then Step(st.(menuLive := false), Raised(EmptyChoices))
    else Step(st.(menuLive := true), Done)
  }

  // ---------------------------------------------------------------------
  // The operations

  /** The `value` setter of `ChoiceForm` and `RadioForm`. */
  function SetValue(st: ChoiceState, v: Option<string>): Step {
    if v.Some? && v.value in st.choices then Step(st.(value := v.value), Done)
    else Step(st, Raised(NotInChoices(v)))
  }

  /** `add_choice`: append, then update the menu and re-render. */
  function AddChoice(kind: Kind, st: ChoiceState, c: string): Step {
    if c !in st.choices then
      var appended := st.(choices := st.choices + [c]);
      if Stale(kind, st) then Step(appended, Raised(StaleMenu))
      else Rerender(kind, appended)
    else Step(st, Raised(ChoiceExists(c)))
  }

  /** `remove_choice`: remove the first occurrence, update the menu,
      repair the selection if it was the removed choice, then re-render. */
  function RemoveChoice(kind: Kind, st: ChoiceState, c: string): Step {
    if c in st.choices then
      var removed := st.(choices := RemoveFirst(st.choices, c));
      if Stale(kind, st) then Step(removed, Raised(StaleMenu))
      else
        var rest := removed.choices;
        var value := if st.value == c then (if rest != [] then rest[0] else "") else st.value;
        Rerender(kind, removed.(value := value))
    else Step(st, Raised(ChoiceMissing(c)))
  }

  /** `clear_choices`: empty the list and the cell, update the menu, then
      re-render. */
  function ClearChoices(kind: Kind, st: ChoiceState): Step {
    var cleared := st.(choices := [], value := "");
    if Stale(kind, st) then Step(cleared, Raised(StaleMenu))
    else Rerender(kind, cleared)
  }

  datatype Built = Built(state: ChoiceState) | Failed(error: FormError)

  /** The fields `ChoiceForm.__init__` and `RadioForm.__init__` assign:
      the cell holds `default` if it is truthy and `choices[0]` otherwise.
      The widgets are taken to be built from those fields, so a
      `ChoiceForm` on an empty list has no option menu. */
  function NewSingle(kind: Kind, choices: seq<string>, default: Option<string>): Built {
    var menuLive := !(RaisesOnEmpty(kind) && choices == []);
    if TruthyString(default) then Built(ChoiceState(choices, default.value, menuLive))
    else if choices != [] then Built(ChoiceState(choices, choices[0], menuLive))
    else Failed(NoFirstChoice)
  }

  /** The fields `MultiChoiceForm.__init__` assigns: the cell holds the
      comma-joined default, or `""`. */
  function NewMulti(choices: seq<string>, default: Option<seq<string>>): ChoiceState {
    ChoiceState(choices, ListForm.InitialCell(default), true)
  }

  // ---------------------------------------------------------------------
  // What each operation promises

  /** The setter stores the value exactly when it is one of the choices;
      otherwise it raises and changes nothing. */
  lemma SetValueSpec(st: ChoiceState, v: Option<string>)
    ensures SetValue(st, v).outcome == Done <==> v.Some? && v.value in st.choices
    ensures SetValue(st, v).outcome == Done ==>
      SetValue(st, v).after == st.(value := v.value)
    ensures SetValue(st, v).outcome != Done ==>
      SetValue(st, v).after == st && SetValue(st, v).outcome == Raised(NotInChoices(v))
  {
  }

  /** A new choice goes at the end with the selection untouched; the call
      returns unless a `ChoiceForm`'s menu is gone, in which case it raises
      after appending.  A present choice raises with nothing changed. */
  lemma AddChoiceSpec(kind: Kind, st: ChoiceState, c: string)
    ensures c !in st.choices ==>
      var r := AddChoice(kind, st, c);
      && r.after.choices == st.choices + [c]
      && r.after.value == st.value
      && Stale(kind, r.after) == Stale(kind, st)
      && r.outcome == (if Stale(kind, st) then Raised(StaleMenu) else Done)
    ensures c in st.choices ==>
      AddChoice(kind, st, c) == Step(st, Raised(ChoiceExists(c)))
  {
  }

  /** A missing choice raises with nothing changed.  Otherwise the list
      loses exactly one copy of the choice, the first one, in place.  On a
      live element a selection that was the removed choice moves to the new
      first choice, or to nothing; when a `ChoiceForm`'s menu is gone the
      call raises before that repair. */
  lemma RemoveChoiceSpec(kind: Kind, st: ChoiceState, c: string)
    ensures c !in st.choices ==>
      RemoveChoice(kind, st, c) == Step(st, Raised(ChoiceMissing(c)))
    ensures c in st.choices ==>
      var r := RemoveChoice(kind, st, c).after;
      var i := FirstIndex(st.choices, c);
      && r.choices == st.choices[..i] + st.choices[i + 1..]
      && |r.choices| == |st.choices| - 1
      && multiset(r.choices) == multiset(st.choices) - multiset{c}
      && r.value == (if st.value != c || Stale(kind, st) then st.value
                     else if r.choices != [] then r.choices[0] else "")
  {
    if c in st.choices {
      RemoveFirstCounts(st.choices, c);
      RemovePresent(kind, st, c);
    }
  }

  /** The list and selection a removal of a present choice leaves. */
  lemma RemovePresent(kind: Kind, st: ChoiceState, c: string)
    requires c in st.choices
    ensures RemoveChoice(kind, st, c).after.choices == RemoveFirst(st.choices, c)
    ensures RemoveChoice(kind, st, c).after.value
      == (if st.value != c || Stale(kind, st) then st.value
          else if RemoveFirst(st.choices, c) != [] then RemoveFirst(st.choices, c)[0] else "")
  {
  }

  /** `list.remove` drops exactly one copy of a present value. */
  lemma RemoveFirstCounts(s: seq<string>, x: string)
    requires x in s
    ensures |RemoveFirst(s, x)| == |s| - 1
    ensures multiset(RemoveFirst(s, x)) == multiset(s) - multiset{x}
  {
    var i := FirstIndex(s, x);
    assert s == s[..i] + [s[i]] + s[i + 1..];
  }

  /** How a removal ends: a `ChoiceForm` with no menu raises from the menu
      access; a live `ChoiceForm` raises from re-rendering exactly when the
      list was `[c]`; otherwise the call returns.  On a live element the
      list and selection left behind do not depend on the kind. */
  lemma RemoveChoiceRaises(kind: Kind, st: ChoiceState, c: string)
    requires c in st.choices
    ensures RemoveChoice(kind, st, c).outcome == Raised(StaleMenu) <==> Stale(kind, st)
    ensures RemoveChoice(kind, st, c).outcome == Raised(EmptyChoices) <==>
      !Stale(kind, st) && kind == Choice && st.choices == [c]
    ensures RemoveChoice(kind, st, c).outcome !in {Raised(StaleMenu), Raised(EmptyChoices)} ==>
      RemoveChoice(kind, st, c).outcome == Done
    ensures !Stale(kind, st) ==>
      && RemoveChoice(kind, st, c).after.choices == RemoveChoice(Radio, st, c).after.choices
      && RemoveChoice(kind, st, c).after.value == RemoveChoice(Radio, st, c).after.value
  {
  }

  /** Clearing leaves no choices and no selection.  `ChoiceForm` then
      raises, from the menu access if its menu was already gone and from
      re-rendering otherwise, and is left without a menu; the other two
      return. */
  lemma ClearChoicesSpec(kind: Kind, st: ChoiceState)
    ensures ClearChoices(kind, st).after.choices == []
    ensures ClearChoices(kind, st).after.value == ""
    ensures ClearChoices(kind, st).outcome == Done <==> kind != Choice
    ensures kind == Choice ==>
      && ClearChoices(kind, st).outcome
         == Raised(if Stale(kind, st) then StaleMenu else EmptyChoices)
      && Stale(kind, ClearChoices(kind, st).after)
  {
  }

  /** Once a `ChoiceForm` has lost its menu, no operation brings it back. */
  lemma StaleIsPermanent(st: ChoiceState, v: Option<string>, c: string)
    requires Stale(Choice, st)
    ensures Stale(Choice, SetValue(st, v).after)
    ensures Stale(Choice, AddChoice(Choice, st, c).after)
    ensures Stale(Choice, RemoveChoice(Choice, st, c).after)
    ensures Stale(Choice, ClearChoices(Choice, st).after)
  {
  }

  // ---------------------------------------------------------------------
  // The selection invariant

  lemma SetValuePreservesConsistent(st: ChoiceState, v: Option<string>)
    requires Consistent(st)
    ensures Consistent(SetValue(st, v).after)
  {
  }

  lemma AddChoicePreservesConsistent(kind: Kind, st: ChoiceState, c: string)
    requires Consistent(st)
    ensures Consistent(AddChoice(kind, st, c).after)
  {
  }

  /** On a live element, removing a choice other than the selected one
      keeps the selection among the remaining choices, and removing the
      selected one repairs it. */
  lemma RemoveChoicePreservesConsistent(kind: Kind, st: ChoiceState, c: string)
    requires Consistent(st) && !Stale(kind, st)
    ensures Consistent(RemoveChoice(kind, st, c).after)
  {
  }

  /** On a `ChoiceForm` without a menu, removing the selected choice from
      a list without duplicates leaves a selection that is not a choice. */
  lemma StaleRemoveBreaksConsistent(st: ChoiceState, c: string)
    requires Stale(Choice, st) && Distinct(st.choices)
    requires c in st.choices && st.value == c && c != ""
    ensures !Consistent(RemoveChoice(Choice, st, c).after)
  {
    RemoveChoiceFromDistinct(Choice, st, c);
  }

  /** A sequence of calls that reaches that state from a consistent
      `ChoiceForm(["a"], "a")`: removing the last choice raises and drops
      the menu, the next add raises after appending, setting the value
      succeeds, and removing it leaves `value == "b"` with no choices. */
  lemma StaleRunExample()
    ensures
      var s0 := ChoiceState(["a"], "a", true);
      var s1 := RemoveChoice(Choice, s0, "a");
      var s2 := AddChoice(Choice, s1.after, "b");
      var s3 := SetValue(s2.after, Some("b"));
      var s4 := RemoveChoice(Choice, s3.after, "b");
      && Consistent(s0)
      && s1 == Step(ChoiceState([], "", false), Raised(EmptyChoices))
      && s2 == Step(ChoiceState(["b"], "", false), Raised(StaleMenu))
      && s3 == Step(ChoiceState(["b"], "b", false), Done)
      && s4 == Step(ChoiceState([], "b", false), Raised(StaleMenu))
      && !Consistent(s4.after)
  {
  }

  lemma ClearChoicesPreservesConsistent(kind: Kind, st: ChoiceState)
    ensures Consistent(ClearChoices(kind, st).after)
  {
  }

  // ---------------------------------------------------------------------
  // Distinct choice lists

  /** `add_choice` never creates a duplicate. */
  lemma AddChoicePreservesDistinct(kind: Kind, st: ChoiceState, c: string)
    requires Distinct(st.choices)
    ensures Distinct(AddChoice(kind, st, c).after.choices)
  {
  }

  /** On a list without duplicates, `remove_choice` takes the choice out
      completely and keeps the list free of duplicates. */
  lemma RemoveChoiceFromDistinct(kind: Kind, st: ChoiceState, c: string)
    requires Distinct(st.choices)
    ensures c !in RemoveChoice(kind, st, c).after.choices
    ensures Distinct(RemoveChoice(kind, st, c).after.choices)
  {
  }

  /** Adding a fresh choice and removing it again restores the list and
      the selection, unless the selection was that choice (possible only
      when it is the empty string).  Both calls raise on a `ChoiceForm`
      without a menu. */
  lemma AddThenRemove(kind: Kind, st: ChoiceState, c: string)
    requires c !in st.choices && st.value != c
    ensures
      var r := RemoveChoice(kind, AddChoice(kind, st, c).after, c);
      && r.after.choices == st.choices
      && r.after.value == st.value
      && (Stale(kind, st) ==> r.outcome == Raised(StaleMenu))
      && (!Stale(kind, st) ==> r.outcome == Rerender(kind, st).outcome)
  {
  }

  // ---------------------------------------------------------------------
  // Construction

  /** Construction fails only when there is no truthy default and no
      choice to fall back on.  The selection it makes is consistent exactly
      when the default is falsy or one of the choices: the source does not
      check a truthy default against the list.  A `ChoiceForm` built on
      an empty list starts without a menu. */
  lemma NewSingleSpec(kind: Kind, choices: seq<string>, default: Option<string>)
    ensures NewSingle(kind, choices, default).Failed? <==> !TruthyString(default) && choices == []
    ensures NewSingle(kind, choices, default).Built? ==>
      && NewSingle(kind, choices, default).state.choices == choices
      && NewSingle(kind, choices, default).state.value
         == (if TruthyString(default) then default.value else choices[0])
      && (Consistent(NewSingle(kind, choices, default).state)
          <==> !TruthyString(default) || default.value in choices)
      && (Stale(kind, NewSingle(kind, choices, default).state)
          <==> kind == Choice && choices == [])
  {
  }

  /** The multi-choice cell starts as the comma-joined default, which reads
      back through the list codec as the default when no element holds a
      comma and it is not `[""]`. */
  lemma NewMultiSpec(choices: seq<string>, default: seq<string>)
    requires ListForm.CommaFree(default) && default != [""]
    ensures NewMulti(choices, Some(default)).choices == choices
    ensures ListForm.Get(NewMulti(choices, Some(default)).value) == default
  {
    ListForm.RoundTrip(default);
  }
}
