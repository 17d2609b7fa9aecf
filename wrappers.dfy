/** Small value wrappers shared by the screens: JavaScript's optional values
    (`undefined` / `null`) and the outcome of `JSON.parse` on a stream payload. */
module Wrappers {

  /** An optional value: `None` stands for `undefined` or `null`. */
  datatype Option<+T> = None | Some(value: T) {

    /** The value, or `default` when absent (JavaScript's `x ?? default`). */
    function GetOr(default: T): T {
      match this
      case Some(v) => v
      case None => default
    }
  }

  /** The result of parsing an event payload: the decoded value, or a parse error. */
  datatype Parsed<+T> = Parsed(value: T) | Malformed
}

/** Records the screens pass around without looking inside them. */
module Records {

  /** A user or lecturer profile as the server returns it (typed `any` in the store). */
  datatype Profile = Profile(fields: map<string, string>)

  /** The two kinds of toast notice the screens raise. */
  datatype Icon = Success | Error

  /** A toast notice: its icon and its title text. */
  datatype Notice = Notice(icon: Icon, title: string)

  /** The outcome of an `axios.post` whose failure reason the handler does not inspect. */
  datatype PostOutcome = Created | Failed
}
