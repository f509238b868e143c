/** The error answers the views give instead of a page or a payload. */
module Http {

  datatype Error =
    | BadRequest        // 400: a required query parameter is missing or a field is invalid
    | Forbidden         // 403 answered by the view itself
    | NotFound          // 404 from `get_object_or_404`
    | PermissionDenied  // 403 raised as `PermissionDenied`
    | MethodNotAllowed  // 405
    | IntegrityError    // an unhandled database constraint violation (500)
  {
    /** The HTTP status code the framework answers with. */
    function StatusCode(): int {
      match this
      case BadRequest => 400
      case Forbidden => 403
      case NotFound => 404
      case PermissionDenied => 403
      case MethodNotAllowed => 405
      case IntegrityError => 500
    }
  }
}
