/** Python's `None` next to an ordinary value.  The form setters take
    `str | None` or `list | None`; `None` is `None` here. */
module Optional {

  datatype Option<+T> = None | Some(value: T)

  /** Python truthiness of an optional string: `None` and `""` are falsy. */
  predicate TruthyString(o: Option<string>) {
    o.Some? && o.value != ""
  }

  /** Python truthiness of an optional list: `None` and `[]` are falsy. */
  predicate TruthyList<T>(o: Option<seq<T>>) {
    o.Some? && o.value != []
  }
}
