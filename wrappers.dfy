/** Values standing in for Java's null references and checked exceptions. */
module Wrappers {

  /** A Java reference that may be null: `None` is null. */
  datatype Option<+T> = None | Some(value: T)

  /** The outcome of a `void` Java method that may throw: `Pass` returned normally, `Fail` threw `error`. */
  datatype Outcome<+E> = Pass | Fail(error: E)
}
