/** internal/http/router.go: which handler a path reaches. The ServeMux
    holds four patterns: "/health" and "/questions" match exactly,
    "/questions/" and "/answers/" match every path they start. The closure
    registered under "/questions/" then picks one of three handlers with the
    hand-written tests modelled here. */
module Router {
  import opened Domain
  import opened Errors
  import opened Repository
  import opened Http
  import opened Strings
  import opened Strconv
  import opened MemStore
  import QS = QuestionService
  import AS = AnswerService
  import QH = QuestionHandler
  import AH = AnswerHandler

  const HealthPath: string := "/health"
  const QuestionsPath: string := "/questions"
  const QuestionsPrefix: string := "/questions/"
  const AnswersPrefix: string := "/answers/"
  const AnswersSuffix: string := "/answers"

  /** The handler a path reaches; Unrouted when no registered pattern
      matches and the mux answers by itself. */
  datatype Target = Health | Questions | QuestionById | CreateForQuestion | AnswerById | Unrouted

  /** hasSuffix: false when s is shorter than suffix, otherwise whether s ends
      with it; that is, whether s is something followed by suffix. */
  function HasSuffix(s: string, suffix: string): (r: bool)
    ensures r <==> exists p :: s == p + suffix
  {
    if |s| < |suffix| then
      assert forall p :: |p + suffix| >= |suffix|;
      false
    else
      var p := s[..|s| - |suffix|];
      assert s == p + s[|s| - |suffix|..];
      assert forall p' :: s == p' + suffix ==> s[|s| - |suffix|..] == suffix;
      s[|s| - |suffix|..] == suffix
  }

  /** The /health handler: 405 with no body for any method but GET, and 200
      with {"status":"ok"} for GET. */
  function HealthCheck(verb: string): (r: Response)
    ensures verb != MethodGet ==> r == WriteHeader(StatusMethodNotAllowed)
    ensures verb == MethodGet ==> r == Response(StatusOK, HealthBody("ok"))
  {
    if verb != MethodGet then WriteHeader(StatusMethodNotAllowed)
    else Response(StatusOK, HealthBody("ok"))
  }

  /** The closure registered under "/questions/": the bare prefix goes to the
      collection handler, a longer path ending in "/answers" to
      HandleCreateForQuestion, and every other path to HandleQuestionByID;
      exactly one of the three. */
  function QuestionsSubtree(path: string): (t: Target)
    requires QuestionsPrefix <= path
    ensures t == Questions <==> path == QuestionsPrefix
    ensures t == CreateForQuestion <==> path != QuestionsPrefix && HasSuffix(path, AnswersSuffix)
    ensures t == QuestionById <==> path != QuestionsPrefix && !HasSuffix(path, AnswersSuffix)
  {
    if path == QuestionsPrefix then Questions
    else if |path| > |QuestionsPrefix| && HasSuffix(path, AnswersSuffix) then CreateForQuestion
    else QuestionById
  }

  /** The mux's choice of pattern for a clean path, then the closure. */
  function Route(path: string): (t: Target)
    ensures t == Health <==> path == HealthPath
    ensures t == Questions <==> path == QuestionsPath || path == QuestionsPrefix
    ensures t == AnswerById <==> AnswersPrefix <= path
    ensures QuestionsPrefix <= path ==> t == QuestionsSubtree(path)
    ensures t == Unrouted <==>
              path != HealthPath && path != QuestionsPath && !(QuestionsPrefix <= path) && !(AnswersPrefix <= path)
  {
    if path == HealthPath then Health
    else if path == QuestionsPath then
      assert path[1] != AnswersPrefix[1];
      Questions
    else if QuestionsPrefix <= path then
      assert path[1] != AnswersPrefix[1];
      QuestionsSubtree(path)
    else if AnswersPrefix <= path then
      assert path[1] != QuestionsPath[1] && path[1] != HealthPath[1];
      AnswerById
    else Unrouted
  }

  /** What the server does with a request: a handler's response, or nothing
      modelled when the path reaches no handler. */
  datatype Dispatch = Handled(response: Response) | LeftToMux

  /** NewRouter, applied to a request. Every response a handler writes uses
      one of the seven status codes of the error mapping. */
  function Serve(qSvc: QS.Service, aSvc: AS.Service, req: Request): (d: Dispatch)
    ensures d.LeftToMux? <==> Route(req.path) == Unrouted
    ensures d.Handled? ==> KnownStatus(d.response.status)
  {
    match Route(req.path)
    case Health => Handled(HealthCheck(req.verb))
    case Questions => Handled(QH.HandleQuestions(qSvc, req.verb, req.body))
    case QuestionById => Handled(QH.HandleQuestionByID(qSvc, req.verb, req.path))
    case CreateForQuestion => Handled(AH.HandleCreateForQuestion(aSvc, req.verb, req.path, req.body))
    case AnswerById => Handled(AH.HandleAnswerByID(aSvc, req.verb, req.path))
    case Unrouted => LeftToMux
  }

  /** The server wired over two repositories, both services sharing the
      question repository. */
  function ServeWith(questions: QuestionRepository, answers: AnswerRepository, req: Request): Dispatch {
    Serve(QS.Service(questions), AS.Service(answers, questions), req)
  }

  // ------------------------------------------------------------ path routing

  /** A slash-free segment after /questions/ ends the path in "/answers" only
      when the segment is "answers" itself: the suffix then borrows the slash
      of the prefix. */
  lemma SegmentEndsWithAnswers(s: string)
    requires '/' !in s
    ensures HasSuffix(QuestionsPrefix + s, AnswersSuffix) <==> s == "answers"
  {
    var path := QuestionsPrefix + s;
    if s == "answers" {
      assert path == QuestionsPath + AnswersSuffix;
    }
    if HasSuffix(path, AnswersSuffix) {
      var k := |path| - |AnswersSuffix|;
      assert path[k..] == AnswersSuffix;
      assert path[k] == '/';
      assert |s| < 8;
      assert path[k] == QuestionsPrefix[k];
      assert k == 10;
      assert s == path[11..];
    }
  }

  /** A non-empty slash-free segment after /questions/ reaches
      HandleQuestionByID, except the segment "answers", which reaches
      HandleCreateForQuestion. */
  lemma QuestionSegmentRoute(s: string)
    requires s != "" && '/' !in s
    ensures Route(QuestionsPrefix + s) == if s == "answers" then CreateForQuestion else QuestionById
  {
    var path := QuestionsPrefix + s;
    SegmentEndsWithAnswers(s);
    assert QuestionsPrefix <= path;
    assert path != QuestionsPrefix;
  }

  /** /questions/{id}/answers reaches HandleCreateForQuestion and hands it
      the segment as the id. */
  lemma AnswersPathRoute(s: string)
    requires '/' !in s
    ensures Route(QuestionsPrefix + s + AnswersSuffix) == CreateForQuestion
    ensures var rest := TrimPrefix(QuestionsPrefix + s + AnswersSuffix, QuestionsPrefix);
            AH.IsAnswersPath(rest) && AH.IdSegment(rest) == s
  {
    var path := QuestionsPrefix + s + AnswersSuffix;
    assert path == (QuestionsPrefix + s) + AnswersSuffix;
    assert QuestionsPrefix <= path;
    var rest := TrimPrefix(path, QuestionsPrefix);
    assert rest == s + AnswersSuffix;
    assert rest[..|rest| - |AnswersSuffix|] == s;
  }

  // ---------------------------------------------- invalid ids, for all paths

  /** Any method on /questions/{s}, with s a slash-free segment other than
      "answers" that is not a positive integer, is 400 "invalid question id":
      the id is checked before the method. */
  lemma BadQuestionIdIs400(qSvc: QS.Service, aSvc: AS.Service, verb: string, s: string, body: Body)
    requires s != "" && '/' !in s && s != "answers" && !IsPositiveId(s)
    ensures Serve(qSvc, aSvc, Request(verb, QuestionsPrefix + s, body))
            == Handled(WriteError(StatusBadRequest, "invalid question id"))
  {
    QuestionSegmentRoute(s);
    assert TrimPrefix(QuestionsPrefix + s, QuestionsPrefix) == s;
  }

  /** POST /questions/{s}/answers with s slash-free and not a positive
      integer is 400 "invalid question id", before the body is read. */
  lemma BadParentIdIs400(qSvc: QS.Service, aSvc: AS.Service, s: string, body: Body)
    requires '/' !in s && !IsPositiveId(s)
    ensures Serve(qSvc, aSvc, Request(MethodPost, QuestionsPrefix + s + AnswersSuffix, body))
            == Handled(WriteError(StatusBadRequest, "invalid question id"))
  {
    AnswersPathRoute(s);
  }

  /** Any method on /answers/{s}, with s non-empty and not a positive
      integer, is 400 "invalid answer id". */
  lemma BadAnswerIdIs400(qSvc: QS.Service, aSvc: AS.Service, verb: string, s: string, body: Body)
    requires s != "" && !IsPositiveId(s)
    ensures Serve(qSvc, aSvc, Request(verb, AnswersPrefix + s, body))
            == Handled(WriteError(StatusBadRequest, "invalid answer id"))
  {
    var path := AnswersPrefix + s;
    assert AnswersPrefix <= path;
    assert !(QuestionsPrefix <= path) by { assert path[1] != QuestionsPrefix[1]; }
    assert TrimPrefix(path, AnswersPrefix) == s;
  }

  /** The one segment that escapes the rule above: /questions/answers reaches
      HandleCreateForQuestion, so it is 405 for any method but POST and a 404
      page for POST, never 400. */
  lemma QuestionsAnswersPath(qSvc: QS.Service, aSvc: AS.Service, verb: string, body: Body)
    ensures Serve(qSvc, aSvc, Request(verb, QuestionsPrefix + "answers", body))
            == Handled(if verb == MethodPost then NotFound() else WriteHeader(StatusMethodNotAllowed))
  {
    assert '/' !in "answers";
    QuestionSegmentRoute("answers");
    var rest := TrimPrefix(QuestionsPrefix + "answers", QuestionsPrefix);
    assert rest == "answers";
  }

  // ----------------------------------------------- missing records, end to end

  /** The path segment of a positive 64-bit id is slash-free, is not
      "answers", and parses back to the id. */
  lemma IdSegment(id: int)
    requires 0 < id <= MaxInt
    ensures var s := FormatInt(id);
            s != "" && '/' !in s && s != "answers" && IsPositiveId(s) && Atoi(s).value == id
  {
    AtoiFormatInt(id);
    FormatIntIsSegment(id);
    var s := FormatInt(id);
    assert s != "answers" by {
      assert IsDigit(s[0]);
    }
  }

  /** /questions/{id} for a positive 64-bit id reaches the method switch of
      HandleQuestionByID with that id, whatever the method. */
  lemma QuestionIdDispatch(qSvc: QS.Service, aSvc: AS.Service, verb: string, id: int, body: Body)
    requires 0 < id <= MaxInt
    ensures Serve(qSvc, aSvc, Request(verb, QuestionsPrefix + FormatInt(id), body))
            == Handled(QH.QuestionById(qSvc, verb, id))
  {
    IdSegment(id);
    QuestionSegmentRoute(FormatInt(id));
    assert TrimPrefix(QuestionsPrefix + FormatInt(id), QuestionsPrefix) == FormatInt(id);
  }

  /** /answers/{id} for a positive 64-bit id reaches the method switch of
      HandleAnswerByID with that id, whatever the method. */
  lemma AnswerIdDispatch(qSvc: QS.Service, aSvc: AS.Service, verb: string, id: int, body: Body)
    requires 0 < id <= MaxInt
    ensures Serve(qSvc, aSvc, Request(verb, AnswersPrefix + FormatInt(id), body))
            == Handled(AH.AnswerById(aSvc, verb, id))
  {
    IdSegment(id);
    var path := AnswersPrefix + FormatInt(id);
    assert !(QuestionsPrefix <= path) by { assert path[1] != QuestionsPrefix[1]; }
    assert TrimPrefix(path, AnswersPrefix) == FormatInt(id);
  }

  /** POST /questions/{id}/answers for a positive 64-bit id reaches the body
      handling of HandleCreateForQuestion with that id. */
  lemma ParentIdDispatch(qSvc: QS.Service, aSvc: AS.Service, id: int, body: Body)
    requires 0 < id <= MaxInt
    ensures Serve(qSvc, aSvc, Request(MethodPost, QuestionsPrefix + FormatInt(id) + AnswersSuffix, body))
            == Handled(AH.CreateForQuestion(aSvc, id, body))
  {
    IdSegment(id);
    AnswersPathRoute(FormatInt(id));
  }

  /** For an id the store does not hold, GET /questions/{id} is 404 "question
      not found", and so is DELETE /questions/{id} when the store's delete
      reports not-found. */
  lemma MissingQuestionIs404(questions: QuestionRepository, answers: AnswerRepository, id: int, verb: string, body: Body)
    requires 0 < id <= MaxInt
    requires verb == MethodGet ==> questions.getById(id) == Err(RecordNotFound)
    requires verb == MethodDelete ==> questions.delete(id) == Failure(RecordNotFound)
    requires verb == MethodGet || verb == MethodDelete
    ensures ServeWith(questions, answers, Request(verb, QuestionsPrefix + FormatInt(id), body))
            == Handled(WriteError(StatusNotFound, "question not found"))
  {
    QuestionIdDispatch(QS.Service(questions), AS.Service(answers, questions), verb, id, body);
  }

  /** For a question id the store does not hold, a well-formed POST
      /questions/{id}/answers is 404 "question not found", whatever the answer
      repository would reply: the answer store is never asked. */
  lemma MissingParentIs404(questions: QuestionRepository, answers: AnswerRepository, id: int, userId: string, text: string)
    requires 0 < id <= MaxInt
    requires questions.getById(id) == Err(RecordNotFound)
    requires !IsBlank(userId) && !IsBlank(text)
    ensures ServeWith(questions, answers,
                      Request(MethodPost, QuestionsPrefix + FormatInt(id) + AnswersSuffix,
                              Decoded(map["user_id" := userId, "text" := text])))
            == Handled(WriteError(StatusNotFound, "question not found"))
  {
    var post := Decoded(map["user_id" := userId, "text" := text]);
    ParentIdDispatch(QS.Service(questions), AS.Service(answers, questions), id, post);
    assert Field(post, "user_id") == userId && Field(post, "text") == text;
  }

  /** For an answer id the store does not hold, GET /answers/{id} is 404
      "answer not found", and so is DELETE /answers/{id} when the store's
      delete reports not-found. */
  lemma MissingAnswerIs404(questions: QuestionRepository, answers: AnswerRepository, id: int, verb: string, body: Body)
    requires 0 < id <= MaxInt
    requires verb == MethodGet ==> answers.getById(id) == Err(RecordNotFound)
    requires verb == MethodDelete ==> answers.delete(id) == Failure(RecordNotFound)
    requires verb == MethodGet || verb == MethodDelete
    ensures ServeWith(questions, answers, Request(verb, AnswersPrefix + FormatInt(id), body))
            == Handled(WriteError(StatusNotFound, "answer not found"))
  {
    AnswerIdDispatch(QS.Service(questions), AS.Service(answers, questions), verb, id, body);
  }

  // --------------------------------------------- successful requests, end to end

  /** GET /questions/{id} for a question the store finds is 200 with what the
      store returned. */
  lemma FoundQuestionIs200(questions: QuestionRepository, answers: AnswerRepository, id: int, q: Question, body: Body)
    requires 0 < id <= MaxInt
    requires questions.getById(id) == Ok(q)
    ensures ServeWith(questions, answers, Request(MethodGet, QuestionsPrefix + FormatInt(id), body))
            == Handled(Response(StatusOK, QuestionBody(q)))
  {
    QuestionIdDispatch(QS.Service(questions), AS.Service(answers, questions), MethodGet, id, body);
  }

  /** GET /answers/{id} for an answer the store finds is 200 with what the
      store returned. */
  lemma FoundAnswerIs200(questions: QuestionRepository, answers: AnswerRepository, id: int, a: Answer, body: Body)
    requires 0 < id <= MaxInt
    requires answers.getById(id) == Ok(a)
    ensures ServeWith(questions, answers, Request(MethodGet, AnswersPrefix + FormatInt(id), body))
            == Handled(Response(StatusOK, AnswerBody(a)))
  {
    AnswerIdDispatch(QS.Service(questions), AS.Service(answers, questions), MethodGet, id, body);
  }

  /** POST /questions with a non-blank text, when the store accepts the new
      question under id n, is 201 with the question: id n, the text as sent,
      no answers. */
  lemma CreatedQuestionIs201(questions: QuestionRepository, answers: AnswerRepository, text: string, n: int)
    requires !IsBlank(text)
    requires questions.create(QS.NewQuestion(text)) == Ok(n)
    ensures ServeWith(questions, answers, Request(MethodPost, QuestionsPath, Decoded(map["text" := text])))
            == Handled(Response(StatusCreated, QuestionBody(Question(n, text, []))))
  {
    var post := Decoded(map["text" := text]);
    assert Field(post, "text") == text;
  }

  /** POST /questions/{id}/answers with a non-blank user id and text, when
      the question store finds the question and the answer store accepts the
      new answer under id n, is 201 with the answer: id n, the question's id,
      the user id and text as sent. */
  lemma CreatedAnswerIs201(questions: QuestionRepository, answers: AnswerRepository, id: int,
                           userId: string, text: string, n: int)
    requires 0 < id <= MaxInt
    requires questions.getById(id).Ok?
    requires answers.create(AS.NewAnswer(id, userId, text)) == Ok(n)
    requires !IsBlank(userId) && !IsBlank(text)
    ensures ServeWith(questions, answers,
                      Request(MethodPost, QuestionsPrefix + FormatInt(id) + AnswersSuffix,
                              Decoded(map["user_id" := userId, "text" := text])))
            == Handled(Response(StatusCreated, AnswerBody(Answer(n, id, userId, text))))
  {
    var post := Decoded(map["user_id" := userId, "text" := text]);
    ParentIdDispatch(QS.Service(questions), AS.Service(answers, questions), id, post);
    assert Field(post, "user_id") == userId && Field(post, "text") == text;
  }

  // ------------------------------------------------------------ round trips

  /** Any question store that accepts a new question under id n and then
      finds it under n makes POST /questions and GET /questions/{n} a round
      trip: the GET returns the question the POST reported, with the text as
      sent. The in-memory store is such a store (CreateThenGet in
      QuestionService). */
  lemma PostThenGetQuestion(before: QuestionRepository, after: QuestionRepository, answers: AnswerRepository,
                            text: string, n: int, body: Body)
    requires !IsBlank(text) && 0 < n <= MaxInt
    requires before.create(QS.NewQuestion(text)) == Ok(n)
    requires QS.GetQuestionWithAnswers(QS.Service(after), n) == Ok(Question(n, text, []))
    ensures ServeWith(before, answers, Request(MethodPost, QuestionsPath, Decoded(map["text" := text])))
            == Handled(Response(StatusCreated, QuestionBody(Question(n, text, []))))
    ensures ServeWith(after, answers, Request(MethodGet, QuestionsPrefix + FormatInt(n), body))
            == Handled(Response(StatusOK, QuestionBody(Question(n, text, []))))
  {
    CreatedQuestionIs201(before, answers, text, n);
    FoundQuestionIs200(after, answers, n, Question(n, text, []), body);
  }

  /** The same for answers: an answer store that accepts the new answer under
      id n and then finds it under n, behind a question store that holds the
      question, makes POST /questions/{id}/answers and GET /answers/{n} a
      round trip. The in-memory stores are such stores (CreateThenGet in
      AnswerService). */
  lemma PostThenGetAnswer(questions: QuestionRepository, before: AnswerRepository, after: AnswerRepository,
                          questionId: int, userId: string, text: string, n: int, body: Body)
    requires 0 < questionId <= MaxInt && 0 < n <= MaxInt
    requires !IsBlank(userId) && !IsBlank(text)
    requires questions.getById(questionId).Ok?
    requires before.create(AS.NewAnswer(questionId, userId, text)) == Ok(n)
    requires AS.GetAnswer(AS.Service(after, questions), n) == Ok(Answer(n, questionId, userId, text))
    ensures ServeWith(questions, before,
                      Request(MethodPost, QuestionsPrefix + FormatInt(questionId) + AnswersSuffix,
                              Decoded(map["user_id" := userId, "text" := text])))
            == Handled(Response(StatusCreated, AnswerBody(Answer(n, questionId, userId, text))))
    ensures ServeWith(questions, after, Request(MethodGet, AnswersPrefix + FormatInt(n), body))
            == Handled(Response(StatusOK, AnswerBody(Answer(n, questionId, userId, text))))
  {
    CreatedAnswerIs201(questions, before, questionId, userId, text, n);
    FoundAnswerIs200(questions, after, n, Answer(n, questionId, userId, text), body);
  }

  /** The paths of the handler-test requests below, spelled with FormatInt. */
  lemma WalkthroughPaths()
    ensures QuestionsPrefix + FormatInt(1) + AnswersSuffix == "/questions/1/answers"
    ensures QuestionsPrefix + FormatInt(999) + AnswersSuffix == "/questions/999/answers"
  {
    assert FormatInt(1) == "1" by { assert ('0' as int + 1) as char == '1'; }
    assert FormatInt(999) == "999" by {
      assert ('0' as int + 9) as char == '9';
      assert NatDigits(9) == "9";
      assert NatDigits(99) == "9" + "9";
      assert NatDigits(999) == "99" + "9";
    }
  }

  /** The handler test of a created question, on a zero-valued store: the
      first question gets id 1 and comes back with the text as sent. */
  lemma WalkthroughQuestion()
    ensures ServeWith(QuestionRepositoryOf(0, []), AnswerRepositoryOf(0, []),
                      Request(MethodPost, QuestionsPath, Decoded(map["text" := "What is GORM?"])))
            == Handled(Response(StatusCreated, QuestionBody(Question(1, "What is GORM?", []))))
  {
    assert !IsBlank("What is GORM?") by { assert !IsSpace("What is GORM?"[0]); }
    CreatedQuestionIs201(QuestionRepositoryOf(0, []), AnswerRepositoryOf(0, []), "What is GORM?", 1);
  }

  /** The handler test of a created answer: the question store is seeded
      with question 1 and keeps its zero counter, the answer store is
      zero-valued, and the first answer gets id 1. */
  lemma WalkthroughAnswer()
    ensures ServeWith(QuestionRepositoryOf(0, [Question(1, "What is GORM?", [])]), AnswerRepositoryOf(0, []),
                      Request(MethodPost, "/questions/1/answers",
                              Decoded(map["user_id" := "user-123", "text" := "Answer text"])))
            == Handled(Response(StatusCreated, AnswerBody(Answer(1, 1, "user-123", "Answer text"))))
  {
    assert !IsBlank("user-123") by { assert !IsSpace("user-123"[0]); }
    assert !IsBlank("Answer text") by { assert !IsSpace("Answer text"[0]); }
    WalkthroughPaths();
    CreatedAnswerIs201(QuestionRepositoryOf(0, [Question(1, "What is GORM?", [])]), AnswerRepositoryOf(0, []),
                       1, "user-123", "Answer text", 1);
  }

  /** The handler test of a missing question: on zero-valued stores, an
      answer to question 999 is 404 "question not found". */
  lemma WalkthroughMissingParent()
    ensures ServeWith(QuestionRepositoryOf(0, []), AnswerRepositoryOf(0, []),
                      Request(MethodPost, "/questions/999/answers",
                              Decoded(map["user_id" := "user-123", "text" := "Answer text"])))
            == Handled(WriteError(StatusNotFound, "question not found"))
  {
    assert !IsBlank("user-123") by { assert !IsSpace("user-123"[0]); }
    assert !IsBlank("Answer text") by { assert !IsSpace("Answer text"[0]); }
    WalkthroughPaths();
    MissingParentIs404(QuestionRepositoryOf(0, []), AnswerRepositoryOf(0, []), 999, "user-123", "Answer text");
  }
}
