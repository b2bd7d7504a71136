/** The request and response vocabulary of the handlers: HTTP methods and
    status codes (section 15 of RFC 9110), the already-decoded request body,
    and what a handler writes back. */
module Http {
  import opened Domain

  const MethodGet: string := "GET"
  const MethodPost: string := "POST"
  const MethodDelete: string := "DELETE"

  const StatusOK: int := 200
  const StatusCreated: int := 201
  const StatusNoContent: int := 204
  const StatusBadRequest: int := 400
  const StatusNotFound: int := 404
  const StatusMethodNotAllowed: int := 405
  const StatusInternalServerError: int := 500

  /** A request body after JSON decoding into a struct of string fields: a
      decoding failure, or the decoded fields by JSON name. A field the body
      does not mention decodes to the empty string. */
  datatype Body = Malformed | Decoded(fields: map<string, string>)

  function Field(body: Body, name: string): string
    requires body.Decoded?
  {
    if name in body.fields then body.fields[name] else ""
  }

  /** The method (verb), the URL path and the body of a request. */
  datatype Request = Request(verb: string, path: string, body: Body)

  /** What follows the status line. */
  datatype Payload =
    | NoBody                              // only a status was written
    | NotFoundPage                        // http.NotFound's plain-text page
    | ErrorBody(message: string)          // transport.WriteError: {"error": message}
    | QuestionBody(question: Question)    // transport.WriteJSON of one question
    | QuestionsBody(questions: seq<Question>)
    | AnswerBody(answer: Answer)
    | HealthBody(status: string)          // {"status": status}

  datatype Response = Response(status: int, payload: Payload)

  function WriteHeader(status: int): Response {
    Response(status, NoBody)
  }

  function WriteError(status: int, message: string): Response {
    Response(status, ErrorBody(message))
  }

  /** http.NotFound. */
  function NotFound(): Response {
    Response(StatusNotFound, NotFoundPage)
  }

  /** The status codes the handlers use. */
  predicate KnownStatus(status: int) {
    status in {StatusOK, StatusCreated, StatusNoContent, StatusBadRequest,
               StatusNotFound, StatusMethodNotAllowed, StatusInternalServerError}
  }
}
