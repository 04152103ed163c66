/** Small shared vocabulary: an optional value (JavaScript's `undefined`/`null`)
    and the truthiness test the application applies to its session cookie. */
module Common {

  /** An optional value; `None` stands for `undefined` or `null`. */
  datatype Option<+T> = None | Some(value: T) {

    /** The value, or `default` when absent (a JavaScript default parameter). */
    function GetOr(default: T): T {
      match this
      case Some(v) => v
      case None => default
    }
  }

  /** A cookie value is truthy in JavaScript when it is present and not the
      empty string; `!cookie` and `!token` test exactly this. */
  predicate HasToken(cookie: Option<string>) {
    cookie.Some? && cookie.value != ""
  }
}
