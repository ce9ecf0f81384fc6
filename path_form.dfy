/** The value cells of `FileForm`, `DirectoryForm`, `PathForm` and
    `ColorForm` (forms.py): each setter stores its argument verbatim unless
    it is falsy, in which case it stores a fixed default.  The getters
    return the cell as it is, so a function's result is also what the
    element reads back. */
module PathForms {
  import opened Optional

  const White: string := "#FFFFFF"

  /** The cell the File/Directory/Path setter (and constructor) stores. */
  function StorePath(v: Option<string>): string {
    if TruthyString(v) then v.value else ""
  }

  /** `clear()`: the cell afterwards. */
  function Clear(cell: string): string {
    ""
  }

  /** `reset()` is `clear()`. */
  function Reset(cell: string): string {
    Clear(cell)
  }

  /** `browse_file` of `FileForm` and `DirectoryForm`, given what the
      dialog returned (`""` when cancelled). */
  function Browse(cell: string, picked: string): string {
    if picked != "" then picked else cell
  }

  /** `PathForm.browse_file`: the directory dialog's answer is used only
      when the file dialog was cancelled. */
  function BrowsePath(cell: string, fileAnswer: string, dirAnswer: string): string {
    Browse(cell, if fileAnswer != "" then fileAnswer else dirAnswer)
  }

  /** The cell the `ColorForm` setter (and constructor) stores. */
  function StoreColor(v: Option<string>): (r: string)
    ensures r != ""
  {
    if TruthyString(v) then v.value else White
  }

  /** `select_color`, given the hex part of the dialog's answer (`None`
      when cancelled). */
  function SelectColor(cell: string, picked: Option<string>): string {
    if TruthyString(picked) then picked.value else cell
  }

  /** Every string set on a path element reads back unchanged (the empty
      string included); `None` reads back as `""`. */
  lemma PathRoundTrip(s: string)
    ensures StorePath(Some(s)) == s
    ensures StorePath(None) == ""
  {
  }

  /** Storing what the element reads back changes nothing. */
  lemma PathIdempotent(v: Option<string>)
    ensures StorePath(Some(StorePath(v))) == StorePath(v)
  {
  }

  /** `clear` and `reset` both empty the cell, whatever it held. */
  lemma ClearResetEmpty(cell: string)
    ensures Clear(cell) == "" && Reset(cell) == ""
    ensures Reset(cell) == StorePath(None)
  {
  }

  /** A cancelled dialog leaves the cell unchanged, browsing never clears
      a path that is set, and repeating the same answer changes nothing. */
  lemma BrowseSpec(cell: string, picked: string, fileAnswer: string, dirAnswer: string)
    ensures Browse(cell, "") == cell && BrowsePath(cell, "", "") == cell
    ensures cell != "" ==> Browse(cell, picked) != "" && BrowsePath(cell, fileAnswer, dirAnswer) != ""
    ensures Browse(Browse(cell, picked), picked) == Browse(cell, picked)
    ensures fileAnswer == "" ==> BrowsePath(cell, fileAnswer, dirAnswer) == Browse(cell, dirAnswer)
  {
  }

  /** A colour reads back as set exactly when it is non-empty; `None` and
      `""` read back as white. */
  lemma ColorRoundTrip(s: string)
    ensures StoreColor(Some(s)) == s <==> s != ""
    ensures StoreColor(None) == White && StoreColor(Some("")) == White
  {
  }

  lemma ColorIdempotent(v: Option<string>)
    ensures StoreColor(Some(StoreColor(v))) == StoreColor(v)
  {
  }

  /** A cancelled colour dialog leaves the cell unchanged, and picking
      keeps the cell non-empty once the setter has filled it. */
  lemma SelectColorSpec(cell: string, picked: Option<string>, v: Option<string>)
    ensures SelectColor(cell, None) == cell && SelectColor(cell, Some("")) == cell
    ensures cell != "" ==> SelectColor(cell, picked) != ""
    ensures SelectColor(StoreColor(v), picked) != ""
  {
  }
}
