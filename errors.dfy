/** The error values that flow between the store, the services and the
    handlers, as Go `error` values compared with errors.Is. */
module Errors {

  datatype Error =
    | RecordNotFound          // gorm.ErrRecordNotFound, the store's "no such row"
    | QuestionNotFound        // service.ErrQuestionNotFound
    | AnswerNotFound          // service.ErrAnswerNotFound
    | Other(reason: string)   // any other failure of the store

  /** A value or the error returned beside it. */
  datatype Result<T> = Ok(value: T) | Err(error: Error)

  /** A lone `error` return: nil, or the error. */
  datatype Outcome = Success | Failure(error: Error)
}
