/** The one optional-value type shared by every module, and what several modules do with it. */
module Wrappers {
  datatype Option<+T> = None | Some(value: T) {
    function GetOr(default: T): T {
      match this
      case Some(v) => v
      case None => default
    }
  }

  /** `asString`: the empty string is as good as none. */
  function AsString(s: Option<string>): Option<string> {
    if s.Some? && s.value != "" then s else None
  }

  function Larger(a: int, b: int): int {
    if a > b then a else b
  }
}
