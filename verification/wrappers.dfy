/**
  Failure-carrying datatypes shared by every module of the model.

  Ruby code signals failure by raising; here a raised exception becomes an
  `Err` (for operations that return a value) or a `Fail` (for operations that
  only change state), carrying the exception class and its message.
 */
module Wrappers {

  datatype Option<+T> = None | Some(value: T) {
    function GetOr(default: T): T {
      match this
      case Some(v) => v
      case None => default
    }
  }

  /** The Ruby exception classes the modelled code raises or rescues. */
  datatype ErrorKind =
    | ArgumentError     // Ruby's ArgumentError
    | PuppetError       // Puppet::Error
    | DevError          // Puppet::DevError
    | ClientError       // Puppet::Network::ClientError
    | NoMethodError     // a bitwise operator sent to a non-Integer
    | RemoteError       // anything raised by the remote compiler driver
    | CompileError      // anything raised while compiling a node
    | ApplyError        // anything raised while applying a catalog
    | SystemCallError   // an Errno exception from the file system

  datatype Error = Error(kind: ErrorKind, message: string)

  datatype Result<+T> = Ok(value: T) | Err(error: Error) {
    predicate IsFailure() { Err? }

    function PropagateFailure<U>(): Result<U>
      requires Err?
    {
      Err(error)
    }

    function Extract(): T
      requires Ok?
    {
      value
    }
  }

  /** The outcome of an operation whose only product is a new state. */
  datatype Outcome = Pass | Fail(error: Error)
}
