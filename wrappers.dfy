/** Optional values and results with the Java exception a failed call throws. */
module Wrappers {

  /** A Java reference that may be null. */
  datatype Option<+T> = None | Some(value: T)

  /** The exceptions the modelled code throws, by Java class. */
  datatype JavaException =
    | NullPointer
    | AssertionError
    | IllegalArgument
    | IllegalState
    | IndexOutOfBounds
    | ClassCast
    | DuplicateComponentKeyRegistration
    | AmbiguousComponentResolution
    /** ClassNotFoundException, InstantiationException or IllegalAccessException from reflection. */
    | ReflectiveOperation

  /** The value a Java method returns, or the exception it throws. */
  datatype Result<+T> = Success(value: T) | Failure(error: JavaException)

  /** A Java method returning void: it completes, or it throws. */
  datatype Outcome = Pass | Fail(error: JavaException)
}
