/** internal/http/answer_handler.go: the handlers of
    /questions/{id}/answers and /answers/{id}, in the same
    check-then-call-then-map style as the question handlers. */
module AnswerHandler {
  import opened Domain
  import opened Errors
  import opened Http
  import opened Strings
  import opened Strconv
  import AS = AnswerService

  const QuestionsPrefix: string := "/questions/"
  const AnswersPrefix: string := "/answers/"
  const AnswersSuffix: string := "/answers"

  /** The part of the path after /questions/ is `{id}/answers` with a
      slash-free id (possibly empty). */
  predicate IsAnswersPath(rest: string) {
    |rest| >= |AnswersSuffix| && rest[|rest| - |AnswersSuffix|..] == AnswersSuffix
    && '/' !in rest[..|rest| - |AnswersSuffix|]
  }

  /** The id segment of such a path. */
  function IdSegment(rest: string): string
    requires IsAnswersPath(rest)
  {
    rest[..|rest| - |AnswersSuffix|]
  }

  /** The handler's test on the split path, `len(parts) == 2 && parts[1] ==
      "answers"`, holds exactly for `{id}/answers` paths, and then the first
      part is the id segment. */
  lemma SplitAnswersPath(rest: string)
    ensures var parts := Split(rest, '/');
            (|parts| == 2 && parts[1] == "answers") <==> IsAnswersPath(rest)
    ensures IsAnswersPath(rest) ==> Split(rest, '/') == [IdSegment(rest), "answers"]
  {
    var parts := Split(rest, '/');
    if |parts| == 2 && parts[1] == "answers" {
      TwoPartsIsAnswersPath(rest, parts[0]);
    }
    if IsAnswersPath(rest) {
      AnswersPathIsTwoParts(rest);
    }
  }

  /** A split into a segment and "answers" comes from an `{id}/answers` path. */
  lemma TwoPartsIsAnswersPath(rest: string, x: string)
    requires Split(rest, '/') == [x, "answers"]
    ensures IsAnswersPath(rest) && IdSegment(rest) == x
  {
    SplitIntoTwo(rest, '/', x, "answers");
    assert rest == x + AnswersSuffix;
    assert rest[|rest| - |AnswersSuffix|..] == AnswersSuffix;
    assert rest[..|rest| - |AnswersSuffix|] == x;
  }

  /** An `{id}/answers` path splits into the id segment and "answers". */
  lemma AnswersPathIsTwoParts(rest: string)
    requires IsAnswersPath(rest)
    ensures Split(rest, '/') == [IdSegment(rest), "answers"]
  {
    var x := IdSegment(rest);
    assert rest == x + ['/'] + "answers" by {
      assert rest == x + rest[|rest| - |AnswersSuffix|..];
    }
    assert '/' !in "answers";
    SplitIntoTwo(rest, '/', x, "answers");
  }

  /** HandleCreateForQuestion: any method but POST is 405 before the path is
      looked at; a path that is not `/questions/{id}/answers` with a
      slash-free id is a 404 page; an id that is not a positive integer is
      400 "invalid question id"; then the body is handled with the parsed id. */
  function HandleCreateForQuestion(svc: AS.Service, verb: string, path: string, body: Body): (r: Response)
    ensures verb != MethodPost ==> r == WriteHeader(StatusMethodNotAllowed)
    ensures var rest := TrimPrefix(path, QuestionsPrefix);
            && (verb == MethodPost && !IsAnswersPath(rest) ==> r == NotFound())
            && (verb == MethodPost && IsAnswersPath(rest) && !IsPositiveId(IdSegment(rest)) ==>
                  r == WriteError(StatusBadRequest, "invalid question id"))
            && (verb == MethodPost && IsAnswersPath(rest) && IsPositiveId(IdSegment(rest)) ==>
                  r == CreateForQuestion(svc, Atoi(IdSegment(rest)).value, body))
    ensures KnownStatus(r.status)
  {
    if verb != MethodPost then WriteHeader(StatusMethodNotAllowed)
    else
      var rest := TrimPrefix(path, QuestionsPrefix);
      var parts := Split(rest, '/');
      SplitAnswersPath(rest);
      if |parts| != 2 || parts[1] != "answers" then NotFound()
      else
        match Atoi(parts[0])
        case NumError => WriteError(StatusBadRequest, "invalid question id")
        case Int(id) =>
          if id <= 0 then WriteError(StatusBadRequest, "invalid question id")
          else CreateForQuestion(svc, id, body)
  }

  /** The rest of HandleCreateForQuestion, once the question id is parsed:
      malformed JSON is 400 "invalid json" and a blank user_id or text is 400
      "user_id and text are required", neither depending on the service;
      otherwise ErrQuestionNotFound is 404 "question not found", any other
      error 500 "failed to create answer", and success 201 with an answer
      whose question id is the parsed id and whose user id and text are the
      body's values as sent. */
  function CreateForQuestion(svc: AS.Service, id: int, body: Body): (r: Response)
    ensures body.Malformed? ==> r == WriteError(StatusBadRequest, "invalid json")
    ensures body.Decoded? && (IsBlank(Field(body, "user_id")) || IsBlank(Field(body, "text"))) ==>
              r == WriteError(StatusBadRequest, "user_id and text are required")
    ensures body.Decoded? && !IsBlank(Field(body, "user_id")) && !IsBlank(Field(body, "text")) ==>
              var res := AS.CreateAnswer(svc, id, Field(body, "user_id"), Field(body, "text"));
              && (res == Err(QuestionNotFound) ==> r == WriteError(StatusNotFound, "question not found"))
              && (res.Err? && res.error != QuestionNotFound ==>
                    r == WriteError(StatusInternalServerError, "failed to create answer"))
              && (res.Ok? ==> r == Response(StatusCreated, AnswerBody(res.value))
                              && res.value.questionId == id
                              && res.value.userId == Field(body, "user_id")
                              && res.value.text == Field(body, "text"))
    ensures KnownStatus(r.status)
  {
    match body
    case Malformed => WriteError(StatusBadRequest, "invalid json")
    case Decoded(_) =>
      var userId := Field(body, "user_id");
      var text := Field(body, "text");
      if TrimsToEmpty(userId) || TrimsToEmpty(text) then
        WriteError(StatusBadRequest, "user_id and text are required")
      else
        AnswerCreated(AS.CreateAnswer(svc, id, userId, text))
  }

  /** The last step of HandleCreateForQuestion: ErrQuestionNotFound is 404
      "question not found", any other error 500 "failed to create answer",
      and a created answer 201 with the answer. */
  function AnswerCreated(res: Result<Answer>): (r: Response)
    ensures res == Err(QuestionNotFound) ==> r == WriteError(StatusNotFound, "question not found")
    ensures res.Err? && res.error != QuestionNotFound ==>
              r == WriteError(StatusInternalServerError, "failed to create answer")
    ensures res.Ok? ==> r == Response(StatusCreated, AnswerBody(res.value))
    ensures KnownStatus(r.status)
  {
    match res
    case Err(e) =>
      if e == QuestionNotFound then WriteError(StatusNotFound, "question not found")
      else WriteError(StatusInternalServerError, "failed to create answer")
    case Ok(a) => Response(StatusCreated, AnswerBody(a))
  }

  /** HandleAnswerByID: an empty id is a 404 page and an id that is not a
      positive integer is 400 "invalid answer id", both whatever the method;
      then GET and DELETE are dispatched with the parsed id and any other
      method gets 405. */
  function HandleAnswerByID(svc: AS.Service, verb: string, path: string): (r: Response)
    ensures var idStr := TrimPrefix(path, AnswersPrefix);
            && (idStr == "" ==> r == NotFound())
            && (idStr != "" && !IsPositiveId(idStr) ==> r == WriteError(StatusBadRequest, "invalid answer id"))
            && (IsPositiveId(idStr) ==>
                  && (verb == MethodGet ==> r == GetAnswer(svc, Atoi(idStr).value))
                  && (verb == MethodDelete ==> r == DeleteAnswer(svc, Atoi(idStr).value))
                  && (verb != MethodGet && verb != MethodDelete ==> r == WriteHeader(StatusMethodNotAllowed)))
    ensures KnownStatus(r.status)
  {
    var idStr := TrimPrefix(path, AnswersPrefix);
    if idStr == "" then NotFound()
    else if !IsPositiveId(idStr) then WriteError(StatusBadRequest, "invalid answer id")
    else AnswerById(svc, verb, Atoi(idStr).value)
  }

  /** The method switch of HandleAnswerByID, once the id is parsed. */
  function AnswerById(svc: AS.Service, verb: string, id: int): (r: Response)
    ensures verb == MethodGet ==> r == GetAnswer(svc, id)
    ensures verb == MethodDelete ==> r == DeleteAnswer(svc, id)
    ensures verb != MethodGet && verb != MethodDelete ==> r == WriteHeader(StatusMethodNotAllowed)
    ensures KnownStatus(r.status)
  {
    if verb == MethodGet then GetAnswer(svc, id)
    else if verb == MethodDelete then DeleteAnswer(svc, id)
    else WriteHeader(StatusMethodNotAllowed)
  }

  /** getAnswer: ErrAnswerNotFound is 404 "answer not found", any other error
      500 "failed to get answer", success 200 with the answer. */
  function GetAnswer(svc: AS.Service, id: int): (r: Response)
    ensures var res := AS.GetAnswer(svc, id);
            && (res == Err(AnswerNotFound) ==> r == WriteError(StatusNotFound, "answer not found"))
            && (res.Err? && res.error != AnswerNotFound ==>
                  r == WriteError(StatusInternalServerError, "failed to get answer"))
            && (res.Ok? ==> r == Response(StatusOK, AnswerBody(res.value)))
  {
    match AS.GetAnswer(svc, id)
    case Err(e) =>
      if e == AnswerNotFound then WriteError(StatusNotFound, "answer not found")
      else WriteError(StatusInternalServerError, "failed to get answer")
    case Ok(a) => Response(StatusOK, AnswerBody(a))
  }

  /** deleteAnswer: ErrAnswerNotFound is 404 "answer not found", any other
      error 500 "failed to delete answer", success 204 with no body. */
  function DeleteAnswer(svc: AS.Service, id: int): (r: Response)
    ensures var res := AS.DeleteAnswer(svc, id);
            && (res == Failure(AnswerNotFound) ==> r == WriteError(StatusNotFound, "answer not found"))
            && (res.Failure? && res.error != AnswerNotFound ==>
                  r == WriteError(StatusInternalServerError, "failed to delete answer"))
            && (res.Success? ==> r == WriteHeader(StatusNoContent))
  {
    match AS.DeleteAnswer(svc, id)
    case Failure(e) =>
      if e == AnswerNotFound then WriteError(StatusNotFound, "answer not found")
      else WriteError(StatusInternalServerError, "failed to delete answer")
    case Success => WriteHeader(StatusNoContent)
  }
}
