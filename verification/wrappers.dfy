/** Option and Result types used by every builder, and the taxonomy of the
    generator's fatal errors. Every error aborts the whole run, so a builder
    either produces its full value or one `Error`. */
module Wrappers {

  datatype Option<+T> = None | Some(value: T) {

    /** The encapsulated value, or `default` when there is none
        (Python's `x if x is not None else default`). */
    function GetOr(default: T): T {
      match this
      case Some(v) => v
      case None => default
    }
  }

  /** Why a run was aborted. Lookups in a header or registry that fail are
      `NotFound`; the rest mirror the raised exceptions and failed asserts. */
  datatype Error =
    | NotFound(table: string, key: string)
    | MissingAnnotation(generic: string, at: string)
    | PointerMissing(generic: string, at: string)
    | SpaceMissing(at: string)
    | IndexOutOfRange(at: string)
    | UnknownGenericArgument(args: set<string>)
    | UnknownDefaultArgument(args: set<string>)
    | DuplicateField(field: string)
    | UnknownField(fields: set<string>)
    | UnexpectedChild(kind: string)
    | NotAStruct(name: string)
    | TypedefAndStruct
    | NoTypedefOrStruct
    | NoRename
    | UnknownSpecialization(specialization: string)

  /** A value, or the error that aborted the run; usable with `:-`. */
  datatype Result<+T> = Ok(value: T) | Err(error: Error) {

    predicate IsFailure() {
      Err?
    }

    function PropagateFailure<U>(): Result<U>
      requires Err?
    {
      Err(error)
    }

    function Extract(): T
      requires Ok?
    {
      value
    }
  }
}
