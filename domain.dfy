/** The two stored records of internal/domain. CreatedAt is filled in by the
    database and is not modelled. */
module Domain {

  /** An answer row: its own id, the id of the question it belongs to, the
      author and the text. */
  datatype Answer = Answer(id: int, questionId: int, userId: string, text: string)

  /** A question row. `answers` is filled only when the store loads a single
      question with its answers; a freshly built question has none. */
  datatype Question = Question(id: int, text: string, answers: seq<Answer>)
}
