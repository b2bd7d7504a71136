/** internal/http/question_handler.go: the handlers of /questions and
    /questions/{id}. The collection handler switches on the method first and
    creating then checks the body and the blank text; the by-id handler checks
    the path and the id first and the method last. Each calls the question
    service and maps its error to a status and a fixed message. The handler
    struct only holds the service, so each handler takes the service. */
module QuestionHandler {
  import opened Domain
  import opened Errors
  import opened Http
  import opened Strings
  import opened Strconv
  import QS = QuestionService

  const QuestionsPrefix: string := "/questions/"

  /** HandleQuestions: GET lists, POST creates, any other method gets 405
      with no body. */
  function HandleQuestions(svc: QS.Service, verb: string, body: Body): (r: Response)
    ensures verb == MethodGet ==> r == ListQuestions(svc)
    ensures verb == MethodPost ==> r == CreateQuestion(svc, body)
    ensures verb != MethodGet && verb != MethodPost ==> r == WriteHeader(StatusMethodNotAllowed)
    ensures KnownStatus(r.status)
  {
    if verb == MethodGet then ListQuestions(svc)
    else if verb == MethodPost then CreateQuestion(svc, body)
    else WriteHeader(StatusMethodNotAllowed)
  }

  /** HandleQuestionByID: an empty id, or one holding a slash, is a 404 page
      before anything is parsed; an id that is not a positive integer is 400
      "invalid question id" whatever the method; only then are GET and DELETE
      dispatched with the parsed id, and any other method gets 405. */
  function HandleQuestionByID(svc: QS.Service, verb: string, path: string): (r: Response)
    ensures var idStr := TrimPrefix(path, QuestionsPrefix);
            && (idStr == "" || '/' in idStr ==> r == NotFound())
            && (idStr != "" && '/' !in idStr && !IsPositiveId(idStr) ==>
                  r == WriteError(StatusBadRequest, "invalid question id"))
            && ('/' !in idStr && IsPositiveId(idStr) ==>
                  && (verb == MethodGet ==> r == GetQuestion(svc, Atoi(idStr).value))
                  && (verb == MethodDelete ==> r == DeleteQuestion(svc, Atoi(idStr).value))
                  && (verb != MethodGet && verb != MethodDelete ==> r == WriteHeader(StatusMethodNotAllowed)))
    ensures KnownStatus(r.status)
  {
    var idStr := TrimPrefix(path, QuestionsPrefix);
    if idStr == "" then NotFound()
    else if '/' in idStr then NotFound()
    else if !IsPositiveId(idStr) then WriteError(StatusBadRequest, "invalid question id")
    else QuestionById(svc, verb, Atoi(idStr).value)
  }

  /** The method switch of HandleQuestionByID, once the id is parsed. */
  function QuestionById(svc: QS.Service, verb: string, id: int): (r: Response)
    ensures verb == MethodGet ==> r == GetQuestion(svc, id)
    ensures verb == MethodDelete ==> r == DeleteQuestion(svc, id)
    ensures verb != MethodGet && verb != MethodDelete ==> r == WriteHeader(StatusMethodNotAllowed)
    ensures KnownStatus(r.status)
  {
    if verb == MethodGet then GetQuestion(svc, id)
    else if verb == MethodDelete then DeleteQuestion(svc, id)
    else WriteHeader(StatusMethodNotAllowed)
  }

  /** createQuestion: malformed JSON is 400 "invalid json" and blank text is
      400 "text is required", neither depending on the service; otherwise a
      stored question is 201 with that question, whose text is the body's
      text as sent (not trimmed), and a failed create is 500. */
  function CreateQuestion(svc: QS.Service, body: Body): (r: Response)
    ensures body.Malformed? ==> r == WriteError(StatusBadRequest, "invalid json")
    ensures body.Decoded? && IsBlank(Field(body, "text")) ==>
              r == WriteError(StatusBadRequest, "text is required")
    ensures body.Decoded? && !IsBlank(Field(body, "text")) ==>
              var created := QS.CreateQuestion(svc, Field(body, "text"));
              && (created.Ok? ==> r == Response(StatusCreated, QuestionBody(created.value))
                                  && created.value.text == Field(body, "text"))
              && (created.Err? ==> r == WriteError(StatusInternalServerError, "failed to create question"))
    ensures KnownStatus(r.status)
  {
    match body
    case Malformed => WriteError(StatusBadRequest, "invalid json")
    case Decoded(_) =>
      var text := Field(body, "text");
      if TrimsToEmpty(text) then WriteError(StatusBadRequest, "text is required")
      else
        match QS.CreateQuestion(svc, text)
        case Err(_) => WriteError(StatusInternalServerError, "failed to create question")
        case Ok(q) => Response(StatusCreated, QuestionBody(q))
  }

  /** listQuestions: a failed list is 500 "failed to list questions"; a
      successful one is 200 with the store's sequence as it came. */
  function ListQuestions(svc: QS.Service): (r: Response)
    ensures svc.questions.getAll.Err? ==> r == WriteError(StatusInternalServerError, "failed to list questions")
    ensures svc.questions.getAll.Ok? ==> r == Response(StatusOK, QuestionsBody(svc.questions.getAll.value))
    ensures KnownStatus(r.status)
  {
    match QS.ListQuestions(svc)
    case Err(_) => WriteError(StatusInternalServerError, "failed to list questions")
    case Ok(qs) => Response(StatusOK, QuestionsBody(qs))
  }

  /** getQuestion: ErrQuestionNotFound is 404 "question not found", any other
      error 500 "failed to get question", success 200 with the question. */
  function GetQuestion(svc: QS.Service, id: int): (r: Response)
    ensures var res := QS.GetQuestionWithAnswers(svc, id);
            && (res == Err(QuestionNotFound) ==> r == WriteError(StatusNotFound, "question not found"))
            && (res.Err? && res.error != QuestionNotFound ==>
                  r == WriteError(StatusInternalServerError, "failed to get question"))
            && (res.Ok? ==> r == Response(StatusOK, QuestionBody(res.value)))
  {
    match QS.GetQuestionWithAnswers(svc, id)
    case Err(e) =>
      if e == QuestionNotFound then WriteError(StatusNotFound, "question not found")
      else WriteError(StatusInternalServerError, "failed to get question")
    case Ok(q) => Response(StatusOK, QuestionBody(q))
  }

  /** deleteQuestion: ErrQuestionNotFound is 404 "question not found", any
      other error 500 "failed to delete question", success 204 with no body. */
  function DeleteQuestion(svc: QS.Service, id: int): (r: Response)
    ensures var res := QS.DeleteQuestion(svc, id);
            && (res == Failure(QuestionNotFound) ==> r == WriteError(StatusNotFound, "question not found"))
            && (res.Failure? && res.error != QuestionNotFound ==>
                  r == WriteError(StatusInternalServerError, "failed to delete question"))
            && (res.Success? ==> r == WriteHeader(StatusNoContent))
  {
    match QS.DeleteQuestion(svc, id)
    case Failure(e) =>
      if e == QuestionNotFound then WriteError(StatusNotFound, "question not found")
      else WriteError(StatusInternalServerError, "failed to delete question")
    case Success => WriteHeader(StatusNoContent)
  }
}
