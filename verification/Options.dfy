/** The optional value used throughout: a SQL NULL, or a JavaScript undefined/null. */
module Options {
  datatype Option<+T> = None | Some(value: T) {
    function GetOr(default: T): T {
      match this
      case Some(v) => v
      case None => default
    }
  }

  /** SQL's COALESCE over two nullable values. */
  function Coalesce<T>(first: Option<T>, second: Option<T>): Option<T> {
    if first.Some? then first else second
  }

  /** JavaScript truthiness of an optional string: absent and empty are alike. */
  predicate Given(text: Option<string>) {
    text.Some? && text.value != ""
  }

  /** The position of a row with a property; tables here hold at most one, so which one is found never matters. */
  function FindRow<T>(rows: seq<T>, p: T -> bool): (r: Option<nat>)
    ensures r.Some? ==> r.value < |rows| && p(rows[r.value])
    ensures r.None? ==> forall i :: 0 <= i < |rows| ==> !p(rows[i])
  {
    if rows == [] then None
    else if p(rows[|rows| - 1]) then Some(|rows| - 1)
    else FindRow(rows[..|rows| - 1], p)
  }
}
