/** internal/service/answer_service.go: the answer business rules. Creating
    an answer first checks that the parent question exists. */
module AnswerService {
  import opened Domain
  import opened Errors
  import opened Repository
  import opened MemStore

  /** AnswerService: holds the answer repository and the question repository. */
  datatype Service = Service(answers: AnswerRepository, questions: QuestionRepository)

  /** The record CreateAnswer hands to the store. */
  function NewAnswer(questionId: int, userId: string, text: string): Answer {
    Answer(0, questionId, userId, text)
  }

  /** CreateAnswer. A missing parent gives ErrQuestionNotFound and any other
      failure of the parent lookup is returned unchanged; in both cases the
      result does not depend on the answer repository at all. With the parent
      present, the store receives an answer with the given question id, user
      id and text, and the result is that answer with the assigned id, or the
      store's error unchanged. */
  function CreateAnswer(s: Service, questionId: int, userId: string, text: string): (r: Result<Answer>)
    ensures var parent := s.questions.getById(questionId);
            && (parent == Err(RecordNotFound) ==> r == Err(QuestionNotFound))
            && (parent.Err? && parent.error != RecordNotFound ==> r == Err(parent.error))
            && (parent.Ok? ==>
                  var reply := s.answers.create(NewAnswer(questionId, userId, text));
                  && (reply.Ok? ==> r == Ok(Answer(reply.value, questionId, userId, text)))
                  && (reply.Err? ==> r == Err(reply.error)))
    ensures r.Ok? ==> r.value.questionId == questionId && r.value.userId == userId && r.value.text == text
  {
    match s.questions.getById(questionId)
    case Err(e) => if e == RecordNotFound then Err(QuestionNotFound) else Err(e)
    case Ok(_) =>
      var a := NewAnswer(questionId, userId, text);
      match s.answers.create(a)
      case Err(e) => Err(e)
      case Ok(id) => Ok(a.(id := id))
  }

  /** GetAnswer: a missing row becomes ErrAnswerNotFound, any other reply is
      returned as it is. */
  function GetAnswer(s: Service, id: int): (r: Result<Answer>)
    ensures s.answers.getById(id) == Err(RecordNotFound) ==> r == Err(AnswerNotFound)
    ensures s.answers.getById(id) != Err(RecordNotFound) ==> r == s.answers.getById(id)
    ensures r != Err(RecordNotFound)
  {
    match s.answers.getById(id)
    case Err(e) => if e == RecordNotFound then Err(AnswerNotFound) else Err(e)
    case Ok(a) => Ok(a)
  }

  /** DeleteAnswer: the same translation for the store's delete. */
  function DeleteAnswer(s: Service, id: int): (r: Outcome)
    ensures s.answers.delete(id) == Failure(RecordNotFound) ==> r == Failure(AnswerNotFound)
    ensures s.answers.delete(id) != Failure(RecordNotFound) ==> r == s.answers.delete(id)
    ensures r != Failure(RecordNotFound)
  {
    match s.answers.delete(id)
    case Failure(e) => if e == RecordNotFound then Failure(AnswerNotFound) else Failure(e)
    case Success => Success
  }

  /** CreateAnswer run against the in-memory stores: the reply is the one the
      stores' states prescribe; the answer store is left exactly as it was
      when the parent question is missing, and otherwise gains the returned
      answer. The question store is only read. */
  method CreateAnswerIn(questions: QuestionStore, answers: AnswerStore, questionId: int, userId: string, text: string)
    returns (r: Result<Answer>)
    requires answers.Valid()
    modifies answers
    ensures answers.Valid()
    ensures r == CreateAnswer(Service(old(answers.Repository()), questions.Repository()), questionId, userId, text)
    ensures r.Err? ==> answers.answers == old(answers.answers) && answers.nextId == old(answers.nextId)
    ensures r.Ok? ==> answers.answers == old(answers.answers) + [r.value] && answers.nextId == r.value.id + 1
  {
    var parent := questions.GetById(questionId);
    if parent.Err? {
      var e := parent.error;
      r := if e == RecordNotFound then Err(QuestionNotFound) else Err(e);
      return;
    }
    var a := NewAnswer(questionId, userId, text);
    var reply := answers.Create(a);
    match reply
    case Err(e) => r := Err(e);
    case Ok(id) => r := Ok(a.(id := id));
  }

  /** With the parent present in the question store, whatever that store's
      counter, and a consistent answer store, creating an answer and then
      fetching it by its id returns the same answer, whose question id is the
      parent's. */
  lemma CreateThenGet(qNext: int, qs: seq<Question>, aNext: int, ans: seq<Answer>,
                      questionId: int, userId: string, text: string)
    requires ValidAnswers(aNext, ans)
    requires exists i :: 0 <= i < |qs| && qs[i].id == questionId
    ensures var created := CreateAnswer(Service(AnswerRepositoryOf(aNext, ans), QuestionRepositoryOf(qNext, qs)),
                                        questionId, userId, text);
            && created.Ok? && created.value.id > 0 && created.value.questionId == questionId
            && ValidAnswers(created.value.id + 1, ans + [created.value])
            && GetAnswer(Service(AnswerRepositoryOf(created.value.id + 1, ans + [created.value]), QuestionRepositoryOf(qNext, qs)),
                         created.value.id) == created
  {
    var a := NewAnswer(questionId, userId, text).(id := AssignedId(aNext));
    AnswerStoreAfterCreate(aNext, ans, a);
  }
}
