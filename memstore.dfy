/** The in-memory repositories that the handler tests of internal/http use
    in place of the database: a counter for the next id, which starts at
    zero and is bumped to 1 on first use, and a list to which each created
    record is appended. A lookup scans the list for the first record with the
    id and reports the store's not-found when there is none; delete always
    succeeds and removes nothing. */
module MemStore {
  import opened Domain
  import opened Errors
  import opened Repository

  /** The id the next create assigns. */
  function AssignedId(nextId: int): (id: int)
    ensures id >= nextId && (nextId >= 0 ==> id >= 1)
  {
    if nextId == 0 then 1 else nextId
  }

  // ---------------------------------------------------------------- questions

  /** The first question with the given id, or the store's not-found: the
      record returned sits at an index before which no record has the id. */
  function FindQuestion(qs: seq<Question>, id: int): (r: Result<Question>)
    ensures r.Ok? <==> exists i :: 0 <= i < |qs| && qs[i].id == id
    ensures r.Ok? ==> r.value.id == id && r.value in qs
    ensures r.Ok? ==> exists i :: 0 <= i < |qs| && qs[i] == r.value && forall j :: 0 <= j < i ==> qs[j].id != id
    ensures r.Err? ==> r.error == RecordNotFound
  {
    if |qs| == 0 then Err(RecordNotFound)
    else if qs[0].id == id then Ok(qs[0])
    else
      var r := FindQuestion(qs[1..], id);
      assert forall i :: 1 <= i < |qs| ==> qs[i] == qs[1..][i - 1];
      r
  }

  /** The store's invariant: the counter is not negative, ids are positive, below the counter, and
      increase along the list (so no two records share an id). */
  ghost predicate ValidQuestions(nextId: int, qs: seq<Question>) {
    && nextId >= 0
    && (forall i :: 0 <= i < |qs| ==> 1 <= qs[i].id < nextId)
    && (forall i, j :: 0 <= i < j < |qs| ==> qs[i].id < qs[j].id)
  }

  /** What the store replies to each repository call in the given state. */
  function QuestionRepositoryOf(nextId: int, qs: seq<Question>): QuestionRepository {
    QuestionRepository(
      (q: Question) => Ok(AssignedId(nextId)),
      Ok(qs),
      (id: int) => FindQuestion(qs, id),
      (id: int) => Success)
  }

  /** Appending a record whose id is absent makes it what a lookup of that id finds. */
  lemma {:induction false} FindQuestionAppended(qs: seq<Question>, q: Question)
    requires forall i :: 0 <= i < |qs| ==> qs[i].id != q.id
    ensures FindQuestion(qs + [q], q.id) == Ok(q)
  {
    if |qs| > 0 {
      assert (qs + [q])[1..] == qs[1..] + [q];
      FindQuestionAppended(qs[1..], q);
    }
  }

  /** A create keeps the invariant, and the created record is found by its id. */
  lemma QuestionStoreAfterCreate(nextId: int, qs: seq<Question>, q: Question)
    requires ValidQuestions(nextId, qs)
    requires q.id == AssignedId(nextId)
    ensures ValidQuestions(q.id + 1, qs + [q])
    ensures FindQuestion(qs + [q], q.id) == Ok(q)
  {
    FindQuestionAppended(qs, q);
  }

  /** The question double of the handler tests. */
  class QuestionStore {
    var nextId: int
    var questions: seq<Question>

    ghost predicate Valid()
      reads this
    {
      ValidQuestions(nextId, questions)
    }

    /** The replies this store gives in its current state. */
    ghost function Repository(): QuestionRepository
      reads this
    {
      QuestionRepositoryOf(nextId, questions)
    }

    /** A zero-valued store: counter 0, no records. */
    constructor ()
      ensures Valid() && nextId == 0 && questions == []
    {
      nextId := 0;
      questions := [];
    }

    /** Create: fills the next id into the record and appends it; the reply is
        the assigned id, and the counter moves past it. */
    method Create(q: Question) returns (r: Result<int>)
      requires Valid()
      modifies this
      ensures Valid()
      ensures r == old(Repository()).create(q) && r == Ok(AssignedId(old(nextId)))
      ensures questions == old(questions) + [q.(id := r.value)] && nextId == r.value + 1
    {
      if nextId == 0 {
        nextId := 1;
      }
      var stored := q.(id := nextId);
      nextId := nextId + 1;
      QuestionStoreAfterCreate(old(nextId), questions, stored);
      questions := questions + [stored];
      r := Ok(stored.id);
    }

    /** GetAll: the stored list. */
    method GetAll() returns (r: Result<seq<Question>>)
      ensures r == Repository().getAll && r == Ok(questions)
    {
      r := Ok(questions);
    }

    /** GetByID: scans the list and returns the first record with the id, or
        the store's not-found. */
    method GetById(id: int) returns (r: Result<Question>)
      ensures r == Repository().getById(id)
      ensures r.Ok? <==> exists i :: 0 <= i < |questions| && questions[i].id == id
    {
      var i := 0;
      while i < |questions|
        invariant 0 <= i <= |questions|
        invariant FindQuestion(questions, id) == FindQuestion(questions[i..], id)
      {
        if questions[i].id == id {
          return Ok(questions[i]);
        }
        assert questions[i..][1..] == questions[i + 1..];
        i := i + 1;
      }
      r := Err(RecordNotFound);
    }

    /** Delete: reports success and leaves the records in place. */
    method Delete(id: int) returns (r: Outcome)
      ensures r == Repository().delete(id) && r == Success
    {
      r := Success;
    }
  }

  // ------------------------------------------------------------------ answers

  /** The first answer with the given id, or the store's not-found. */
  function FindAnswer(ans: seq<Answer>, id: int): (r: Result<Answer>)
    ensures r.Ok? <==> exists i :: 0 <= i < |ans| && ans[i].id == id
    ensures r.Ok? ==> r.value.id == id && r.value in ans
    ensures r.Ok? ==> exists i :: 0 <= i < |ans| && ans[i] == r.value && forall j :: 0 <= j < i ==> ans[j].id != id
    ensures r.Err? ==> r.error == RecordNotFound
  {
    if |ans| == 0 then Err(RecordNotFound)
    else if ans[0].id == id then Ok(ans[0])
    else
      var r := FindAnswer(ans[1..], id);
      assert forall i :: 1 <= i < |ans| ==> ans[i] == ans[1..][i - 1];
      r
  }

  ghost predicate ValidAnswers(nextId: int, ans: seq<Answer>) {
    && nextId >= 0
    && (forall i :: 0 <= i < |ans| ==> 1 <= ans[i].id < nextId)
    && (forall i, j :: 0 <= i < j < |ans| ==> ans[i].id < ans[j].id)
  }

  /** What the answer store replies in the given state; listing by question
      gives nothing, as the double does. */
  function AnswerRepositoryOf(nextId: int, ans: seq<Answer>): AnswerRepository {
    AnswerRepository(
      (a: Answer) => Ok(AssignedId(nextId)),
      (id: int) => FindAnswer(ans, id),
      (id: int) => Success,
      (questionId: int) => Ok([]))
  }

  lemma {:induction false} FindAnswerAppended(ans: seq<Answer>, a: Answer)
    requires forall i :: 0 <= i < |ans| ==> ans[i].id != a.id
    ensures FindAnswer(ans + [a], a.id) == Ok(a)
  {
    if |ans| > 0 {
      assert (ans + [a])[1..] == ans[1..] + [a];
      FindAnswerAppended(ans[1..], a);
    }
  }

  lemma AnswerStoreAfterCreate(nextId: int, ans: seq<Answer>, a: Answer)
    requires ValidAnswers(nextId, ans)
    requires a.id == AssignedId(nextId)
    ensures ValidAnswers(a.id + 1, ans + [a])
    ensures FindAnswer(ans + [a], a.id) == Ok(a)
  {
    FindAnswerAppended(ans, a);
  }

  /** The answer double of the handler tests. */
  class AnswerStore {
    var nextId: int
    var answers: seq<Answer>

    ghost predicate Valid()
      reads this
    {
      ValidAnswers(nextId, answers)
    }

    ghost function Repository(): AnswerRepository
      reads this
    {
      AnswerRepositoryOf(nextId, answers)
    }

    constructor ()
      ensures Valid() && nextId == 0 && answers == []
    {
      nextId := 0;
      answers := [];
    }

    method Create(a: Answer) returns (r: Result<int>)
      requires Valid()
      modifies this
      ensures Valid()
      ensures r == old(Repository()).create(a) && r == Ok(AssignedId(old(nextId)))
      ensures answers == old(answers) + [a.(id := r.value)] && nextId == r.value + 1
    {
      if nextId == 0 {
        nextId := 1;
      }
      var stored := a.(id := nextId);
      nextId := nextId + 1;
      AnswerStoreAfterCreate(old(nextId), answers, stored);
      answers := answers + [stored];
      r := Ok(stored.id);
    }

    method GetById(id: int) returns (r: Result<Answer>)
      ensures r == Repository().getById(id)
      ensures r.Ok? <==> exists i :: 0 <= i < |answers| && answers[i].id == id
    {
      var i := 0;
      while i < |answers|
        invariant 0 <= i <= |answers|
        invariant FindAnswer(answers, id) == FindAnswer(answers[i..], id)
      {
        if answers[i].id == id {
          return Ok(answers[i]);
        }
        assert answers[i..][1..] == answers[i + 1..];
        i := i + 1;
      }
      r := Err(RecordNotFound);
    }

    method Delete(id: int) returns (r: Outcome)
      ensures r == Repository().delete(id) && r == Success
    {
      r := Success;
    }

    method ListByQuestionId(questionId: int) returns (r: Result<seq<Answer>>)
      ensures r == Repository().listByQuestionId(questionId) && r == Ok([])
    {
      r := Ok([]);
    }
  }
}
