/** The optional value used for PHP builtins that return a value or `false`. */
module Wrappers {

  /** A value that may be absent. Stands for PHP's `false` where a builtin
      (`getenv`, `strpos`) returns either a value or `false`. */
  datatype Option<+T> = None | Some(value: T)
}
