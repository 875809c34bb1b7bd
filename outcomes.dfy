/** Null-able values and thrown exceptions, written as explicit values. */
module Outcomes {

  /** A Java reference that may be null. */
  datatype Option<+T> = None | Some(value: T)

  /** The exceptions the modelled code throws or lets escape. */
  datatype Fault =
    | DuplicateUserEmailDetected  // the service's own checked exception (two rows where one was expected)
    | NullPointer                 // a method call on a null reference

  /** What a Java method does: return a value or throw. */
  datatype Outcome<+T> = Returned(value: T) | Threw(fault: Fault)
}
