/** The comma codec behind `ListForm` (forms.py): the element keeps one
    string cell; the setter stores `",".join(xs)` and the getter gives back
    `cell.split(",")`, or `[]` when the cell is empty. */
module ListForm {
  import opened Optional

  const Separator: char := ','

  /** Python's `",".join(xs)`. */
  function Join(xs: seq<string>): string
  {
    if |xs| == 0 then ""
    else if |xs| == 1 then xs[0]
    else xs[0] + [Separator] + Join(xs[1..])
  }

  /** Python's `s.split(",")`: the pieces between separators, always at
      least one (`"".split(",") == [""]`). */
  function Split(s: string): (r: seq<string>)
    ensures |r| >= 1
    decreases |s|
  {
    if s == "" then [""]
    else
      var rest := Split(s[1..]);
      if s[0] == Separator then [""] + rest
      else [[s[0]] + rest[0]] + rest[1..]
  }

  /** No element holds the separator. */
  predicate CommaFree(xs: seq<string>) {
    forall i :: 0 <= i < |xs| ==> Separator !in xs[i]
  }

  /** The `value` getter on the stored cell. */
  function Get(cell: string): seq<string> {
    if cell == "" then [] else Split(cell)
  }

  /** The `value` setter: the cell it stores. */
  function Set(v: Option<seq<string>>): string {
    if v.Some? then Join(v.value) else ""
  }

  /** The cell the constructor stores for `default`. */
  function InitialCell(default: Option<seq<string>>): string {
    if TruthyList(default) then Join(default.value) else ""
  }

  // ---------------------------------------------------------------------
  // Join and Split

  lemma JoinCons(a: string, xs: seq<string>)
    requires xs != []
    ensures Join([a] + xs) == a + [Separator] + Join(xs)
  {
  }

  lemma JoinPrependChar(c: char, xs: seq<string>)
    requires xs != []
    ensures Join([[c] + xs[0]] + xs[1..]) == [c] + Join(xs)
  {
  }

  /** Joining the pieces of a split gives back the string, for every
      string, the empty one included. */
  lemma {:induction false} JoinSplit(s: string)
    ensures Join(Split(s)) == s
    decreases |s|
  {
    if s != "" {
      var rest := Split(s[1..]);
      JoinSplit(s[1..]);
      if s[0] == Separator {
        JoinCons("", rest);
      } else {
        JoinPrependChar(s[0], rest);
      }
      assert s == [s[0]] + s[1..];
    }
  }

  /** Splitting never yields a piece that holds the separator. */
  lemma {:induction false} SplitCommaFree(s: string)
    ensures CommaFree(Split(s))
    decreases |s|
  {
    if s != "" {
      SplitCommaFree(s[1..]);
      var rest := Split(s[1..]);
      if s[0] != Separator {
        assert Separator !in rest[0];
        assert Separator !in [s[0]] + rest[0];
      }
    }
  }

  /** A separator-free prefix glues onto the first piece of the rest. */
  lemma {:induction false} SplitPrefix(a: string, t: string)
    requires Separator !in a
    ensures Split(a + t) == [a + Split(t)[0]] + Split(t)[1..]
    decreases |a|
  {
    if a == "" {
      assert a + t == t;
      assert a + Split(t)[0] == Split(t)[0];
      assert [Split(t)[0]] + Split(t)[1..] == Split(t);
    } else {
      SplitPrefix(a[1..], t);
      assert (a + t)[1..] == a[1..] + t;
      assert [a[0]] + (a[1..] + Split(t)[0]) == a + Split(t)[0];
    }
  }

  /** Splitting a join gives back the list when no element holds the
      separator and the list is not empty. */
  lemma {:induction false} SplitJoin(xs: seq<string>)
    requires xs != [] && CommaFree(xs)
    ensures Split(Join(xs)) == xs
    decreases |xs|
  {
    if |xs| == 1 {
      SplitPrefix(xs[0], "");
      assert xs[0] + "" == xs[0];
    } else {
      var t := Join(xs[1..]);
      assert CommaFree(xs[1..]) by {
        forall i | 0 <= i < |xs[1..]| ensures Separator !in xs[1..][i] {
          assert xs[1..][i] == xs[i + 1];
        }
      }
      SplitJoin(xs[1..]);
      assert Separator !in xs[0];
      SplitPrefix(xs[0], [Separator] + t);
      assert xs[0] + [Separator] + t == xs[0] + ([Separator] + t);
      assert ([Separator] + t)[1..] == t;
      assert Split([Separator] + t) == [""] + xs[1..];
      assert xs[0] + "" == xs[0];
      assert [xs[0]] + xs[1..] == xs;
    }
  }

  /** The join is empty exactly for `[]` and `[""]`. */
  lemma JoinEmpty(xs: seq<string>)
    ensures Join(xs) == "" <==> xs == [] || xs == [""]
  {
  }

  // ---------------------------------------------------------------------
  // The element's get/set laws

  /** Setting a list and reading it back returns that list exactly when no
      element holds a comma and the list is not `[""]`. */
  lemma RoundTrip(xs: seq<string>)
    ensures Get(Set(Some(xs))) == xs <==> CommaFree(xs) && xs != [""]
  {
    JoinEmpty(xs);
    if CommaFree(xs) && xs != [""] && xs != [] {
      SplitJoin(xs);
    }
    if Join(xs) != "" {
      SplitCommaFree(Join(xs));
    }
  }

  /** Setting `None` or `[]` reads back as `[]`. */
  lemma SetEmptyGet()
    ensures Get(Set(None)) == []
    ensures Get(Set(Some([]))) == []
  {
  }

  /** Storing what the getter returned leaves the cell as it was, and no
      element the getter returns holds a comma. */
  lemma GetSetFixpoint(cell: string)
    ensures Set(Some(Get(cell))) == cell
    ensures CommaFree(Get(cell))
  {
    if cell != "" {
      JoinSplit(cell);
      SplitCommaFree(cell);
    }
  }

  /** The lossy cases: an element holding a comma comes back split, and
      `[""]` comes back as `[]`. */
  lemma LossyExamples()
    ensures Get(Set(Some(["a,b"]))) == ["a", "b"]
    ensures Get(Set(Some(["a,b", "c"]))) == ["a", "b", "c"]
    ensures Get(Set(Some([""]))) == []
  {
    assert "b"[1..] == "" && "c"[1..] == "";
    assert ['b'] + "" == "b" && ['c'] + "" == "c" && ['a'] + "" == "a";
    assert [""][1..] == [];
    assert Split("b") == ["b"];
    assert Split(",b") == ["", "b"];
    assert "a,b"[1..] == ",b" && ",b"[1..] == "b";
    assert Split("a,b") == ["a", "b"];
    assert Split("c") == ["c"];
    assert Split(",c") == ["", "c"];
    assert "b,c"[1..] == ",c" && ",c"[1..] == "c";
    assert "a,b,c"[1..] == ",b,c" && ",b,c"[1..] == "b,c";
    assert Split("b,c") == ["b", "c"];
    assert Split(",b,c") == ["", "b", "c"];
    assert Split("a,b,c") == ["a", "b", "c"];
  }

  /** The constructor stores the same cell the setter would. */
  lemma InitialIsSet(default: Option<seq<string>>)
    ensures InitialCell(default) == Set(default)
  {
  }
}
