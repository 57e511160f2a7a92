/** Optional values and JavaScript's falsy-string defaulting, shared by every module of the hub. */
module Options {

  /** A value that may be missing: JavaScript's `undefined` or `null`. */
  datatype Option<+T> = None | Some(value: T) {

    /** The carried value, or `default` when there is none. */
    function GetOr(default: T): T {
      match this
      case Some(v) => v
      case None => default
    }
  }

  /** JavaScript's `s || fallback` on a string. The empty string is falsy; a
      missing field is represented by the empty string, since the hub only
      ever reads such fields through `||`. */
  function Or(s: string, fallback: string): string {
    if s != "" then s else fallback
  }
}
