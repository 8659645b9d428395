/** The JSON response bodies the completion pipeline can send, with their status. */
module Http {

  /** One entry of the validation `details` list: the offending field path and its message. */
  datatype FieldError = FieldError(field: string, message: string)

  datatype Body =
    | ValidationFailure(error: string, details: seq<FieldError>)  // {error, details}
    | CompletionBody(completion: string, success: bool)          // {completion, success}
    | ErrorBody(error: string, message: string)                   // {error, message}

  datatype Response = Response(status: nat, body: Body)
}
