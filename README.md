# question-service, modelled in Dafny

question-service is a small HTTP service written in Go. It stores
questions and the answers users give to them. Requests go through four
layers:

- **Router** (`internal/http/router.go`). A `ServeMux` with four patterns:
  `/health`, `/questions`, `/questions/` and `/answers/`. The closure under
  `/questions/` sends each path to one of three handlers, using its own
  `hasSuffix`.
- **Handlers** (`internal/http/question_handler.go`,
  `internal/http/answer_handler.go`). The collection and answer-creation
  handlers check the method first; answer creation then checks the path and
  the id, and both creates then check the JSON body and the blank fields.
  The by-id handlers check the path and the id first and the method last, so
  PUT /questions/abc is 400, not 405. Each handler then calls a service and
  maps the service's error to a status code and a fixed message.
- **Services** (`internal/service`). The services turn the store's "record
  not found" into `ErrQuestionNotFound` or `ErrAnswerNotFound` and pass any
  other error on unchanged. Creating an answer first checks that its
  question exists.
- **Repositories** (`internal/repository`). Two interfaces over the
  database.

The model follows the same layers, one module per source file:

| module | file | models |
|---|---|---|
| `Domain`, `Errors` | domain.dfy, errors.dfy | the records and the error values |
| `Repository` | repository.dfy | the repository interfaces, as the replies a store gives in its current state |
| `MemStore` | memstore.dfy | the in-memory repositories of the handler tests, as classes with a counter and a record list |
| `QuestionService`, `AnswerService` | question_service.dfy, answer_service.dfy | the services, as functions over a repository, plus methods that run them against the in-memory stores |
| `Http` | http.dfy | methods, status codes, the decoded body, and what a handler writes |
| `Strings`, `Strconv` | strings.dfy, strconv.dfy | `strings.TrimSpace`, `TrimPrefix`, `Split` and `strconv.Atoi` as the handlers use them |
| `QuestionHandler`, `AnswerHandler` | question_handler.dfy, answer_handler.dfy | the handlers, as functions from service, method, path and body to a response |
| `Router` | router.dfy | `hasSuffix`, the health handler, the routing, and end-to-end properties of whole requests |

Every handler is pure apart from what it writes, so handlers, services and
the router are functions. The in-memory stores change their fields on each
create, so they are classes with `modifies` clauses. Their lookup is a loop,
proved equal to a recursive reference definition.

The end-to-end lemmas in `Router` state what the service answers to a
request:

- the status and body for an invalid id, a missing record, a created record
  and a found record;
- that a POST followed by a GET returns the created record;
- the three handler tests, each on the stores that test builds.

## Model

| member | source | states |
|---|---|---|
| Strings.TrimLeftSpace | internal/http/question_handler.go:88 | the result is a suffix of the input, everything dropped is white space, and the result is empty or starts with a non-space |
| Strings.TrimRightSpace | internal/http/question_handler.go:88 | the result is a prefix of the input, everything dropped is white space, and the result is empty or ends with a non-space |
| Strings.TrimSpace | internal/http/question_handler.go:88 | the input is the result with only white space around it, and the result neither starts nor ends with white space |
| Strings.TrimSpaceEmptyIffBlank | internal/http/answer_handler.go:64 | trimming gives the empty string exactly when every character is white space |
| Strings.TrimsToEmpty | internal/http/answer_handler.go:64 | the handlers' blank test `TrimSpace(x) == ""` holds iff x is all white space |
| Strings.TrimPrefix | internal/http/question_handler.go:40 | the prefix is removed when the string starts with it; otherwise the string is unchanged |
| Strings.Split | internal/http/answer_handler.go:35 | at least one segment, none contains the separator, and joining them with the separator gives the input back |
| Strings.SplitNoSeparator | internal/http/answer_handler.go:35 | a string without the separator splits into itself alone |
| Strings.SplitAfterSegment | internal/http/answer_handler.go:35 | a separator-free first segment followed by the separator splits off as one segment |
| Strings.SplitJoin | internal/http/answer_handler.go:35 | splitting the join of separator-free segments gives the segments back |
| Strings.SplitIntoTwo | internal/http/answer_handler.go:35-36 | the split is exactly [x, y] iff the input is x, the separator, y, with no separator in x or y |
| Strconv.Atoi | internal/http/question_handler.go:51 | a parsed value is within the 64-bit int range and comes from an optional sign followed by one or more digits; any character other than a digit or sign makes it an error |
| Strconv.SampleIds | internal/http/question_handler.go:51-52 | "abc", "" and "+" do not parse; "0" and "-1" parse but are not accepted as ids; "+7" and "007" are 7 |
| Strconv.AtoiSignedDigits | internal/http/answer_handler.go:41-42 | every optional sign followed by one or more digits, leading zeros included, parses to its signed value when that fits in 64 bits, and is an error otherwise |
| Strconv.AtoiFormatInt | internal/http/answer_handler.go:103 | every 64-bit int written in decimal parses back to itself |
| Strconv.FormatIntIsSegment | internal/http/router.go:39 | a formatted number is non-empty and has no slash, so it is one path segment |
| MemStore.AssignedId | internal/http/question_handler_test.go:25-28 | the id a create assigns is at least the counter, and at least 1 when the counter is not negative |
| MemStore.FindQuestion | internal/http/question_handler_test.go:38-46 | a lookup succeeds iff some stored question has the id; it then returns the first stored question with that id, and otherwise the store's not-found |
| MemStore.QuestionStoreAfterCreate | internal/http/question_handler_test.go:24-32 | a create keeps the store's invariant (ids positive, increasing, below the counter), and the created record is found by its id |
| MemStore.QuestionStore.constructor | internal/http/question_handler_test.go:53 | a zero-valued store: counter 0, no records, invariant holds |
| MemStore.QuestionStore.Create | internal/http/question_handler_test.go:24-32 | the reply is the assigned id; the record with that id is appended; the counter moves one past it; the invariant is kept |
| MemStore.QuestionStore.GetAll | internal/http/question_handler_test.go:34-36 | returns the stored list |
| MemStore.QuestionStore.GetById | internal/http/question_handler_test.go:38-46 | the scanning loop returns what the reference lookup returns; it succeeds iff a stored question has the id |
| MemStore.QuestionStore.Delete | internal/http/question_handler_test.go:48-50 | always reports success |
| MemStore.FindAnswer | internal/http/answer_handler_test.go:34-42 | a lookup succeeds iff some stored answer has the id; it then returns the first stored answer with that id, and otherwise the store's not-found |
| MemStore.AnswerStoreAfterCreate | internal/http/answer_handler_test.go:24-32 | a create keeps the store's invariant, and the created answer is found by its id |
| MemStore.AnswerStore.constructor | internal/http/answer_handler_test.go:52 | a zero-valued store: counter 0, no records, invariant holds |
| MemStore.AnswerStore.Create | internal/http/answer_handler_test.go:24-32 | the reply is the assigned id; the answer with that id is appended; the counter moves one past it; the invariant is kept |
| MemStore.AnswerStore.GetById | internal/http/answer_handler_test.go:34-42 | the scanning loop returns what the reference lookup returns; it succeeds iff a stored answer has the id |
| MemStore.AnswerStore.Delete | internal/http/answer_handler_test.go:44-46 | always reports success |
| MemStore.AnswerStore.ListByQuestionId | internal/http/answer_handler_test.go:48-50 | always an empty list, no error |
| QuestionService.CreateQuestion | internal/service/question_service.go:22-32 | the store receives a question with exactly the given text and no answers; on success the result is that question with the store's id, on failure the store's error unchanged |
| QuestionService.ListQuestions | internal/service/question_service.go:35-37 | the store's list or error, unchanged |
| QuestionService.GetQuestionWithAnswers | internal/service/question_service.go:40-50 | the store's not-found becomes ErrQuestionNotFound; every other reply passes through; the store's not-found never reaches the caller |
| QuestionService.DeleteQuestion | internal/service/question_service.go:53-62 | the same translation for delete; success stays success |
| QuestionService.CreateQuestionIn | internal/service/question_service.go:22-32 | run against the in-memory store, the result is what the function gives for the store's state before the call; the store gains exactly the returned question and its counter moves one past the new id |
| QuestionService.CreateThenGet | internal/service/question_service.go:22-50 | in a consistent in-memory store, a created question has a positive id and the given text, and fetching that id returns it |
| AnswerService.CreateAnswer | internal/service/answer_service.go:25-46 | a missing question gives ErrQuestionNotFound and another lookup error passes through, both without using the answer store; otherwise the store receives the answer with the given question id, user id and text, and the result is that answer with the store's id, or the store's error |
| AnswerService.GetAnswer | internal/service/answer_service.go:49-58 | the store's not-found becomes ErrAnswerNotFound; every other reply passes through |
| AnswerService.DeleteAnswer | internal/service/answer_service.go:61-70 | the same translation for delete |
| AnswerService.CreateAnswerIn | internal/service/answer_service.go:25-46 | run against the in-memory stores, whatever the question store's counter, the result is what the function gives; on error the answer store is left exactly as it was, otherwise it gains exactly the returned answer and its counter moves one past the new id |
| AnswerService.CreateThenGet | internal/service/answer_service.go:25-58 | with the question present in the question store (any counter), a created answer has a positive id and the question's id, and fetching it returns it |
| QuestionHandler.HandleQuestions | internal/http/question_handler.go:27-36 | GET lists, POST creates, any other method is 405 with no body |
| QuestionHandler.HandleQuestionByID | internal/http/question_handler.go:39-69 | an empty id or one with a slash is a 404 page; an id that is not a positive integer is 400 "invalid question id" for every method; only then are GET and DELETE dispatched with the parsed id, and other methods get 405 |
| QuestionHandler.QuestionById | internal/http/question_handler.go:61-68 | GET fetches, DELETE deletes, any other method is 405 |
| QuestionHandler.CreateQuestion | internal/http/question_handler.go:75-111 | malformed JSON is 400 "invalid json"; blank text is 400 "text is required"; neither uses the service; otherwise 201 with the created question carrying the text as sent, or 500 "failed to create question" |
| QuestionHandler.ListQuestions | internal/http/question_handler.go:113-127 | a failed list is 500 "failed to list questions"; otherwise 200 with the store's list |
| QuestionHandler.GetQuestion | internal/http/question_handler.go:129-152 | ErrQuestionNotFound is 404 "question not found", another error 500 "failed to get question", success 200 with the question |
| QuestionHandler.DeleteQuestion | internal/http/question_handler.go:154-175 | ErrQuestionNotFound is 404 "question not found", another error 500 "failed to delete question", success 204 with no body |
| AnswerHandler.SplitAnswersPath | internal/http/answer_handler.go:34-39 | the test "two parts, the second is answers" holds exactly for `{id}/answers` paths with a slash-free id, and the first part is then the id |
| AnswerHandler.TwoPartsIsAnswersPath | internal/http/answer_handler.go:35-36 | a split into a segment and "answers" comes from `{segment}/answers` |
| AnswerHandler.AnswersPathIsTwoParts | internal/http/answer_handler.go:35-36 | an `{id}/answers` path splits into the id and "answers" |
| AnswerHandler.HandleCreateForQuestion | internal/http/answer_handler.go:26-93 | any method but POST is 405 before the path is read; a path other than `{id}/answers` is a 404 page; an id that is not a positive integer is 400 "invalid question id"; then the body is handled with the parsed id |
| AnswerHandler.CreateForQuestion | internal/http/answer_handler.go:52-92 | malformed JSON is 400 "invalid json"; a blank user_id or text is 400 "user_id and text are required"; neither uses the service; then a missing question is 404, another error 500, and success 201 with an answer holding the parsed id and the fields as sent |
| AnswerHandler.AnswerCreated | internal/http/answer_handler.go:73-92 | ErrQuestionNotFound is 404 "question not found", another error 500 "failed to create answer", a created answer 201 |
| AnswerHandler.HandleAnswerByID | internal/http/answer_handler.go:96-121 | an empty id is a 404 page; an id that is not a positive integer is 400 "invalid answer id" for every method; then GET and DELETE are dispatched and other methods get 405 |
| AnswerHandler.AnswerById | internal/http/answer_handler.go:113-120 | GET fetches, DELETE deletes, any other method is 405 |
| AnswerHandler.GetAnswer | internal/http/answer_handler.go:123-139 | ErrAnswerNotFound is 404 "answer not found", another error 500 "failed to get answer", success 200 with the answer |
| AnswerHandler.DeleteAnswer | internal/http/answer_handler.go:141-157 | ErrAnswerNotFound is 404 "answer not found", another error 500 "failed to delete answer", success 204 |
| Router.HasSuffix | internal/http/router.go:55-60 | true exactly when the string is something followed by the suffix |
| Router.HealthCheck | internal/http/router.go:14-23 | GET is 200 with {"status":"ok"}; any other method is 405 with no body |
| Router.QuestionsSubtree | internal/http/router.go:31-46 | exactly one of three handlers: the bare prefix goes to the collection handler, a longer path ending in "/answers" to answer creation, and anything else to the by-id handler |
| Router.Route | internal/http/router.go:10-52 | each registered pattern is reached exactly by the paths it matches, and /questions/... paths are decided by the closure; other paths reach no handler |
| Router.Serve | internal/http/router.go:10-52 | a request is left to the mux iff its path reaches no handler; every handled response has one of the seven status codes the handlers use |
| Router.SegmentEndsWithAnswers | internal/http/router.go:39 | for a slash-free segment after /questions/, the path ends in "/answers" iff the segment is "answers" itself |
| Router.QuestionSegmentRoute | internal/http/router.go:38-45 | /questions/{s}, with s non-empty and slash-free, reaches the by-id handler, except s = "answers", which reaches answer creation |
| Router.AnswersPathRoute | internal/http/router.go:38-42 | /questions/{s}/answers reaches answer creation, which reads s as the id |
| Router.BadQuestionIdIs400 | internal/http/question_handler.go:51-59 | any method on /questions/{s}, with s not a positive integer, is 400 "invalid question id" |
| Router.BadParentIdIs400 | internal/http/answer_handler.go:41-50 | POST /questions/{s}/answers with s not a positive integer is 400 "invalid question id", whatever the body |
| Router.BadAnswerIdIs400 | internal/http/answer_handler.go:103-111 | any method on /answers/{s}, with s not a positive integer, is 400 "invalid answer id" |
| Router.QuestionsAnswersPath | internal/http/router.go:39-42 | /questions/answers is 405 for any method but POST and a 404 page for POST, never 400 |
| Router.IdSegment | internal/http/question_handler.go:46-52 | the decimal form of a positive 64-bit id is one path segment, is not "answers", and parses back to the id |
| Router.QuestionIdDispatch | internal/http/router.go:44-45 | /questions/{id} reaches the by-id method switch with that id, for every method |
| Router.AnswerIdDispatch | internal/http/router.go:49 | /answers/{id} reaches the by-id method switch with that id, for every method |
| Router.ParentIdDispatch | internal/http/router.go:38-42 | POST /questions/{id}/answers reaches the body handling of answer creation with that id |
| Router.MissingQuestionIs404 | internal/http/question_handler.go:129-138 | GET, or DELETE, of /questions/{id} for a question the store does not hold is 404 "question not found" |
| Router.MissingParentIs404 | internal/service/answer_service.go:25-33 | a well-formed answer for a question the store does not hold is 404 "question not found", whatever the answer store would reply |
| Router.MissingAnswerIs404 | internal/http/answer_handler.go:123-130 | GET, or DELETE, of /answers/{id} for an answer the store does not hold is 404 "answer not found" |
| Router.FoundQuestionIs200 | internal/http/question_handler.go:129-151 | GET /questions/{id} for a question the store finds is 200 with that question |
| Router.FoundAnswerIs200 | internal/http/answer_handler.go:123-138 | GET /answers/{id} for an answer the store finds is 200 with that answer |
| Router.CreatedQuestionIs201 | internal/http/question_handler.go:75-110 | POST /questions with non-blank text is 201 with the question: the store's id, the text as sent, no answers |
| Router.CreatedAnswerIs201 | internal/http/answer_handler.go:52-92 | POST /questions/{id}/answers with non-blank fields, the question present, is 201 with the answer: the store's id, the question id, and the fields as sent |
| Router.PostThenGetQuestion | internal/http/question_handler.go:96-151 | with a store that finds what it created, POST /questions then GET /questions/{n} returns the question the POST reported |
| Router.PostThenGetAnswer | internal/http/answer_handler.go:73-138 | with a store that finds what it created, POST /questions/{id}/answers then GET /answers/{n} returns the answer the POST reported |
| Router.WalkthroughQuestion | internal/http/question_handler_test.go:52-73 | on a zero-valued store, POST /questions {"text":"What is GORM?"} is 201 with question 1 and that text |
| Router.WalkthroughAnswer | internal/http/answer_handler_test.go:51-80 | with question 1 seeded into a store whose counter is zero, and an empty answer store, POST /questions/1/answers is 201 with answer 1 of question 1, user "user-123", text "Answer text" |
| Router.WalkthroughMissingParent | internal/http/answer_handler_test.go:82-107 | on zero-valued stores, POST /questions/999/answers is 404 "question not found" |

## Left out

- The GORM repositories (`internal/repository`) are not modelled. A repository is any set of replies. Preloading a question's answers and the cascade on delete happen in the database, so the model does not show that a created answer appears in its question's GET.
- GORM's `Delete` reports success for a missing row. With the database, DELETE of a missing id is therefore 204. The 404 case of `Router.MissingQuestionIs404` and `Router.MissingAnswerIs404` needs a store that reports not-found, as the service code allows for.
- JSON decoding is not modelled. The body arrives as `Malformed` or as decoded string fields, and a missing field reads as "". Go's case-insensitive matching of field names, unknown fields and non-string values are not modelled.
- `transport.WriteJSON` and `transport.WriteError` are not part of this model. A response is a status and a payload value, not bytes or headers.
- `http.NotFound` writes a plain-text "404 page not found" body, so the model's payload is `NotFoundPage` rather than an empty body.
- ServeMux path cleaning, redirects and its own 404 for unregistered paths are not modelled. Such requests are `LeftToMux`. Paths are taken as already clean.
- Logging (zap) is left out. The handler constructors also take a logger, which `NewRouter` does not pass.
- `CreatedAt` and the request context are left out.
- `internal/app`, `internal/db`, `internal/config`, `cmd/api` and `cmd/migrate` are not part of this model.
- `Strconv.Atoi` keeps one error, where Go distinguishes a syntax error from a range error; the handlers treat both alike. A 64-bit platform `int` is assumed.
- `MemStore`'s counter starts at zero and is bumped to 1 on the first create, as the test doubles do. A question store seeded with question 1 and a zero counter, as one handler test builds, breaks the store's invariant; only creating into a store needs the invariant, so reading from such a store is covered.
- The service tests' doubles (`internal/service/*_test.go`) are not modelled separately. Their behaviour is covered by the services' contracts over arbitrary repositories.
- `AnswerRepository.ListByQuestionID` is declared but no service calls it. Only the test double's version is modelled.
- Strings are sequences of Unicode code points, where Go strings are bytes. For valid UTF-8 nothing changes, since every prefix, suffix and separator the core uses is ASCII; a request path holding invalid UTF-8 (a percent-decoded `%FF`, say) cannot be represented.
