/** Failure-compatible wrappers shared by every module of the model.
    A PHP exception or engine error thrown by the original code becomes a
    `Failure` carrying one `Error`; a normal return becomes a `Success`. */
module Results {

  /** The exceptions and engine errors the modelled code can raise. */
  datatype Error =
    | MissingTagName                      // buildDomTemplate without template or tag name
    | NoTemplate                          // getPrintable with an empty template
    | UnsupportedAttributeType(typeName: string)
    | MissingContentHook                  // DomTag::getContentMarkup not overridden
    | NoTemplateData                      // addTemplateData()
    | UnsupportedParameters               // addTemplateData with an unusable shape
    | UnsetScalarOffset                   // unset() of an offset of a string
    | ViewNotFound(path: string)          // view() of a path no view exists for
    | MissingViewDirectory                // setTemplateDirectory of a directory that does not exist
    | TypeError(context: string)          // null reaching a `string` parameter or return
    | UnprintableFieldValue               // setValue rejecting a printable object
    | UnknownAlias(alias: string)
    | UnknownClass(className: string, alias: string)
    | ClassNotFound(className: string)    // `new` of a class that is not declared
    | MissingHeaderLabel(column: string)
    | UndefinedRelation(name: string)     // relation accessor that does not exist
    | RelationFallbackBroken              // fallbackRelationPritableValue
    | MemberCallOnArray(methodName: string)
    | ColumnsNotConfigured
    | HeadersNotConfigured
    | ColumnNamesNotSpecified
    | HeaderNamesNotSpecified

  datatype Option<+T> = None | Some(value: T) {
    function GetOr(default: T): T {
      match this
      case Some(v) => v
      case None => default
    }
  }

  datatype Result<+T> = Success(value: T) | Failure(error: Error) {

    predicate IsFailure() {
      Failure?
    }

    function PropagateFailure<U>(): Result<U>
      requires Failure?
    {
      Failure(error)
    }

    function Extract(): T
      requires Success?
    {
      value
    }
  }
}
