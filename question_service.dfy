/** internal/service/question_service.go: the question business rules. The
    service turns the store's not-found into ErrQuestionNotFound and passes
    every other error on unchanged. */
module QuestionService {
  import opened Domain
  import opened Errors
  import opened Repository
  import opened MemStore

  /** QuestionService: holds the question repository. */
  datatype Service = Service(questions: QuestionRepository)

  /** The record CreateQuestion hands to the store: the given text, the zero
      id, no answers. */
  function NewQuestion(text: string): Question {
    Question(0, text, [])
  }

  /** CreateQuestion: the store receives a question whose text is exactly the
      argument; on success the same record comes back carrying the id the
      store assigned, on failure the store's error comes back unchanged. */
  function CreateQuestion(s: Service, text: string): (r: Result<Question>)
    ensures var reply := s.questions.create(NewQuestion(text));
            && (reply.Ok? ==> r == Ok(Question(reply.value, text, [])))
            && (reply.Err? ==> r == Err(reply.error))
  {
    var q := NewQuestion(text);
    match s.questions.create(q)
    case Err(e) => Err(e)
    case Ok(id) => Ok(q.(id := id))
  }

  /** ListQuestions: exactly what the store's GetAll returns, values and errors alike. */
  function ListQuestions(s: Service): (r: Result<seq<Question>>)
    ensures r == s.questions.getAll
  {
    s.questions.getAll
  }

  /** GetQuestionWithAnswers: a missing row becomes ErrQuestionNotFound, any
      other reply of the store is returned as it is, and the store's not-found
      never reaches the caller. */
  function GetQuestionWithAnswers(s: Service, id: int): (r: Result<Question>)
    ensures s.questions.getById(id) == Err(RecordNotFound) ==> r == Err(QuestionNotFound)
    ensures s.questions.getById(id) != Err(RecordNotFound) ==> r == s.questions.getById(id)
    ensures r != Err(RecordNotFound)
  {
    match s.questions.getById(id)
    case Err(e) => if e == RecordNotFound then Err(QuestionNotFound) else Err(e)
    case Ok(q) => Ok(q)
  }

  /** DeleteQuestion: the same translation for the store's delete; success is
      success. Removing the question's answers is left to the database. */
  function DeleteQuestion(s: Service, id: int): (r: Outcome)
    ensures s.questions.delete(id) == Failure(RecordNotFound) ==> r == Failure(QuestionNotFound)
    ensures s.questions.delete(id) != Failure(RecordNotFound) ==> r == s.questions.delete(id)
    ensures r != Failure(RecordNotFound)
  {
    match s.questions.delete(id)
    case Failure(e) => if e == RecordNotFound then Failure(QuestionNotFound) else Failure(e)
    case Success => Success
  }

  /** CreateQuestion run against the in-memory store, where the store fills
      the id into the record in place and keeps a copy: the reply is the one
      the store's state before the call prescribes, and the stored copy is the
      returned question. */
  method CreateQuestionIn(store: QuestionStore, text: string) returns (r: Result<Question>)
    requires store.Valid()
    modifies store
    ensures store.Valid()
    ensures r == CreateQuestion(Service(old(store.Repository())), text)
    ensures r.Ok? && store.questions == old(store.questions) + [r.value]
    ensures store.nextId == r.value.id + 1
  {
    var q := NewQuestion(text);
    var reply := store.Create(q);
    match reply
    case Err(e) => r := Err(e);
    case Ok(id) => r := Ok(q.(id := id));
  }

  /** Creating a question in a consistent in-memory store and then fetching
      it by the id it was given returns the same question, and that id is
      positive. */
  lemma CreateThenGet(nextId: int, qs: seq<Question>, text: string)
    requires ValidQuestions(nextId, qs)
    ensures var created := CreateQuestion(Service(QuestionRepositoryOf(nextId, qs)), text);
            && created.Ok? && created.value.id > 0 && created.value.text == text
            && ValidQuestions(created.value.id + 1, qs + [created.value])
            && GetQuestionWithAnswers(Service(QuestionRepositoryOf(created.value.id + 1, qs + [created.value])),
                                      created.value.id) == created
  {
    var q := NewQuestion(text).(id := AssignedId(nextId));
    QuestionStoreAfterCreate(nextId, qs, q);
  }
}
