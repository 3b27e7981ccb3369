/** Failure values of the loader and planner, and the failure-compatible
    wrappers the rest of the model threads them through. */
module Errors {

  /** The conditions the planner reports. Payloads keep the offending key or
      attribute name; the debug rendering of the XML node that the program
      appends is not modelled. */
  datatype DataError =
    | InvalidXml(slice: string)
    | AttributeNotFound(attribute: string)
    | AttributeBadValue(attribute: string)
    | TagNotFound(tag: string)
    | DuplicateValue(key: string)
    | XmlPartNotFound(section: string)
    | NoChildren
    | SubstrNotFound(marker: string)
    | EmptyResultForItem(item: string)
    | ReverseTranslationNotFound(name: string)
    | PriorityBlackListsIntersection(name: string)
    | UnknownProductionMethod(name: string)
    | UnknownWare(name: string)
    | AllMethodsBlacklisted(name: string)
    | NoProductionMethods(name: string)

  datatype Option<+T> = None | Some(value: T) {
    predicate IsFailure() { None? }

    function PropagateFailure<U>(): Option<U>
      requires None?
    {
      None
    }

    function Extract(): T
      requires Some?
    {
      value
    }

    function GetOr(default: T): T {
      match this
      case Some(v) => v
      case None => default
    }
  }

  datatype Result<+T> = Ok(value: T) | Err(error: DataError) {
    predicate IsFailure() { Err? }

    function PropagateFailure<U>(): Result<U>
      requires Err?
    {
      Err(error)
    }

    function Extract(): T
      requires Ok?
    {
      value
    }
  }

  /** A check that either passes or names what is wrong. */
  datatype Outcome = Pass | Fail(error: DataError) {
    predicate IsFailure() { Fail? }

    function PropagateFailure<U>(): Result<U>
      requires Fail?
    {
      Err(error)
    }
  }
}
