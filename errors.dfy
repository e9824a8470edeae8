/** The three error kinds the API raises (utils/exceptions.py), each with its detail text. */
module Errors {

  datatype Error =
    | NotFound(detail: string)
    | Validation(detail: string)
    | BadRequest(detail: string)
  {
    /** The HTTP status code the kind is reported with. */
    function StatusCode(): (code: int)
      ensures code == 404 <==> NotFound?
      ensures code == 422 <==> Validation?
      ensures code == 400 <==> BadRequest?
    {
      match this
      case NotFound(_) => 404
      case Validation(_) => 422
      case BadRequest(_) => 400
    }
  }
}
