/** The two repository interfaces the services depend on. A repository is
    given by what it replies to each call in the current state of the
    database; whatever implements it (the GORM adapter, a test double) is
    outside the core. */
module Repository {
  import opened Domain
  import opened Errors

  /** QuestionRepository. `create` receives the record the caller built and
      replies with the id the store filled into it, or an error; `getById`
      loads a question with its answers. */
  datatype QuestionRepository = QuestionRepository(
    create: Question -> Result<int>,
    getAll: Result<seq<Question>>,
    getById: int -> Result<Question>,
    delete: int -> Outcome)

  /** AnswerRepository, with the same conventions. */
  datatype AnswerRepository = AnswerRepository(
    create: Answer -> Result<int>,
    getById: int -> Result<Answer>,
    delete: int -> Outcome,
    listByQuestionId: int -> Result<seq<Answer>>)
}
