/** The choice-bearing elements of forms.py as objects whose methods change
    their fields in place: `choices` is the element's list, `value` the
    string in its `_var` cell, and `menuLive` whether a `ChoiceForm` still
    has its option menu.  Each method leaves exactly the state, and returns
    exactly the outcome, of the matching ChoiceLogic transition. */
module ChoiceForms {
  import opened Optional
  import opened ChoiceLogic

  class ChoiceElement {
    const kind: Kind
    var choices: seq<string>
    var value: string
    var menuLive: bool

    function State(): ChoiceState
      reads this
    {
      ChoiceState(choices, value, menuLive)
    }

    /** `ChoiceForm(choices, default)` or `RadioForm(choices, default)`,
        for the inputs on which the field assignments do not raise. */
    constructor (kind: Kind, choices: seq<string>, default: Option<string>)
      requires kind != MultiChoice
      requires NewSingle(kind, choices, default).Built?
      ensures this.kind == kind
      ensures State() == NewSingle(kind, choices, default).state
    {
      var initial := NewSingle(kind, choices, default).state;
      this.kind := kind;
      this.choices := initial.choices;
      this.value := initial.value;
      this.menuLive := initial.menuLive;
    }

    /** `MultiChoiceForm(choices, default)`. */
    constructor Multi(choices: seq<string>, default: Option<seq<string>>)
      ensures kind == MultiChoice
      ensures State() == NewMulti(choices, default)
    {
      var initial := NewMulti(choices, default);
      this.kind := MultiChoice;
      this.choices := initial.choices;
      this.value := initial.value;
      this.menuLive := initial.menuLive;
    }

    /** The `value` setter of `ChoiceForm` and `RadioForm`. */
    method SetValue(v: Option<string>) returns (o: Outcome)
      requires kind != MultiChoice
      modifies this
      ensures State() == ChoiceLogic.SetValue(old(State()), v).after
      ensures o == ChoiceLogic.SetValue(old(State()), v).outcome
      ensures old(Consistent(State())) ==> Consistent(State())
    {
      if v.Some? && v.value in choices {
        value := v.value;
        o := Done;
      } else {
        o := Raised(NotInChoices(v));
      }
    }

    /** `regen_widgets`: drop the widgets, then either refuse an empty list
        (leaving no menu) or build them again. */
    method RegenWidgets() returns (o: Outcome)
      modifies this
      ensures State() == Rerender(kind, old(State())).after
      ensures o == Rerender(kind, old(State())).outcome
    {
      var r := Rerender(kind, State());
      menuLive := r.after.menuLive;
      o := r.outcome;
    }

    method AddChoice(c: string) returns (o: Outcome)
      modifies this
      ensures State() == ChoiceLogic.AddChoice(kind, old(State()), c).after
      ensures o == ChoiceLogic.AddChoice(kind, old(State()), c).outcome
      ensures old(Consistent(State())) ==> Consistent(State())
      ensures old(Distinct(choices)) ==> Distinct(choices)
    {
      if c !in choices {
        var stale := Stale(kind, State());
        choices := choices + [c];
        if stale {
          o := Raised(StaleMenu);
        } else {
          o := RegenWidgets();
        }
      } else {
        o := Raised(ChoiceExists(c));
      }
    }

    method RemoveChoice(c: string) returns (o: Outcome)
      modifies this
      ensures State() == ChoiceLogic.RemoveChoice(kind, old(State()), c).after
      ensures o == ChoiceLogic.RemoveChoice(kind, old(State()), c).outcome
      ensures old(Consistent(State()) && !Stale(kind, State())) ==> Consistent(State())
      ensures old(Distinct(choices)) ==> Distinct(choices) && c !in choices
    {
      ghost var before := State();
      if c in choices {
        var stale := Stale(kind, State());
        choices := RemoveFirst(choices, c);
        if stale {
          o := Raised(StaleMenu);
        } else {
          if value == c {
            value := if choices != [] then choices[0] else "";
          }
          o := RegenWidgets();
        }
      } else {
        o := Raised(ChoiceMissing(c));
      }
      if Consistent(before) && !Stale(kind, before) {
        RemoveChoicePreservesConsistent(kind, before, c);
      }
      if Distinct(before.choices) {
        RemoveChoiceFromDistinct(kind, before, c);
      }
    }

    method ClearChoices() returns (o: Outcome)
      modifies this
      ensures State() == ChoiceLogic.ClearChoices(kind, old(State())).after
      ensures o == ChoiceLogic.ClearChoices(kind, old(State())).outcome
      ensures choices == [] && value == ""
      ensures Consistent(State())
    {
      var stale := Stale(kind, State());
      choices := [];
      value := "";
      if stale {
        o := Raised(StaleMenu);
      } else {
        o := RegenWidgets();
      }
    }
  }
}
