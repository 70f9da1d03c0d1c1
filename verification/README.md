# Quizo: a model of the quiz store, the auth routes and the question builder

Quizo is a quiz-authoring web application. Teachers sign up and log in, then
create, list, read, edit and delete quizzes made of multiple_choice and
fill_blank questions. This project models its core in Dafny and proves what
the code promises:

- **The quiz router** (`backend/src/routes/quiz.ts`):
  - the request-body schema and its parser (`QuizSchema`);
  - the database as four immutable relations plus one id counter (`Store`);
  - the two read handlers, `GET /` and `GET /:id` (`QuizRead`);
  - the three write handlers, `POST /`, `PUT /:id` and `DELETE /:id`, as
    transactions that either commit or give back the store they started
    from (`QuizWrite`).
- **Accounts** (`backend/src/routes/auth.ts`): `/signup` and `/login` over a
  username-keyed user map. Password hashing and token signing are abstract
  functions (`Auth`).
- **The guard** (`backend/src/middleware/auth.ts`): token extraction from the
  Authorization header, with `String.prototype.replace` modelled exactly,
  and the three outcomes (`Guard`, `JsString`).
- **The question builder** shared by `CreateQuiz.tsx` and `EditQuiz.tsx`, as
  a state machine with an invariant (`QuestionBuilder`). The two pages
  around it add submit guards, the sanitising map of loaded questions and
  `removeQuestion` (`QuizPages`).
- **Cross-checks between client and server** (`CrossCheck`):
  - the builder accepts questions with blank options, which the server's
    schema refuses;
  - a quiz loaded into the edit page and sent back unchanged is stored
    unchanged.

## Modelling decisions

- **One id counter.** All four relations take ids from one counter
  (`Db.nextId`), so a larger id always means a later insert. `Children(m, p, n)`
  is the ascending list of ids whose parent column is `p`, which is what
  `ORDER BY id` returns.
- **Transactions.** A transaction is a `Tx(db, step)`. A fault is injected
  as `failAt: Option<nat>`, the index of the statement that raises; COMMIT
  counts as a statement. ROLLBACK hands back the store from before BEGIN.
  Each write handler states both directions: it fails exactly when a
  statement in its window raises.
- **Auth faults.** The auth routes have no transaction, but the same
  `failAt` names which of their calls raises (signup: SELECT, hash,
  INSERT, sign; login: SELECT, compare, sign). A raise lands in the
  catch-all 400. Nothing is undone, so a raise from `jwt.sign` after the
  INSERT leaves the user stored.
- **Abstract crypto.** bcrypt and jsonwebtoken are the function-valued
  fields of a `Crypto` record. `Sound(c)` collects the four facts the
  routes rely on:
  - a password matches its own hash;
  - a signature is a non-empty string;
  - a token verifies to its own claims until it expires;
  - from its expiry time on, it no longer verifies.
- **Already-typed bodies.** Request bodies are modelled as typed JSON. An
  absent optional field is `None`, and the question type is still a string
  checked against the enum.
- **Options listed by id.** The option query has no ORDER BY, so the code
  promises no option order. The model lists options by id, which is
  insertion order; that is one order the database may return. The answer
  query of a fill_blank question has no ORDER BY either, and the handler
  takes the first row; the model takes the answer row with the least id.
- **Answers must be truthy.** The answer row of a fill_blank question is
  written only for a truthy answer, that is a non-empty string.
  `QuizWrite.Normalize` is the stored form of a question: options dropped
  from fill_blank questions, answers dropped from multiple_choice ones, and
  an empty answer dropped.
- **The "Bearer " prefix is not anchored.** The guard removes the FIRST
  occurrence of `"Bearer "` wherever it stands, not only at the start of
  the header. A header that is just the prefix leaves an empty token, which
  is refused like a missing header. The conventional form of the header,
  `Bearer <token>` (section 2.1 of RFC 6750), is one case of this.

## Model

| member | source | states |
|---|---|---|
| QuizSchema.KindOf | backend/src/routes/quiz.ts:15 | the type enum accepts exactly the two spellings `multiple_choice` and `fill_blank`, and maps each to its kind |
| QuizSchema.ParseChoices | backend/src/routes/quiz.ts:8-11 | an option list passes exactly when every option has non-empty text |
| QuizSchema.ParseQuestion | backend/src/routes/quiz.ts:13-18 | a question passes iff its text is non-empty, its type is known, and its options (if present) number at most four and all have text; the parsed question sends back the same body |
| QuizSchema.ParseQuestions | backend/src/routes/quiz.ts:23 | a question list passes iff every question does; the result has one parsed question per input, in order |
| QuizSchema.ParseQuiz | backend/src/routes/quiz.ts:20-24 | a body passes iff title and description are non-empty and every question passes (the empty list included); the parsed quiz keeps title and description and turns back into the same body |
| QuizSchema.ParseToBody | backend/src/routes/quiz.ts:13-18 | parsing the body form of a typed question gives it back exactly when it is valid, and fails otherwise |
| QuizSchema.ParseQuizToBody | backend/src/routes/quiz.ts:20-24 | parsing the body form of a valid quiz gives back that quiz |
| Store.Children | backend/src/routes/quiz.ts:111-114 | the child ids of a parent are exactly the ids under the counter whose parent column matches, in ascending order |
| Store.DeleteQuestionsOf | backend/src/routes/quiz.ts:162 | a question survives iff it belongs to another quiz; an option or answer survives iff its question survives; quizzes and counter are untouched |
| Store.DeleteQuizRow | backend/src/routes/quiz.ts:204-207 | deleting a quiz row removes exactly that quiz and, by cascade, its questions with their options and answers |
| Store.AddQuizRowWf | backend/src/routes/quiz.ts:40-43 | inserting a quiz row keeps the store well formed |
| Store.AddQuestionRowWf | backend/src/routes/quiz.ts:48-51 | inserting a question under an existing quiz keeps the store well formed |
| Store.AddOptionRowWf | backend/src/routes/quiz.ts:55-60 | inserting an option under a multiple_choice question keeps the store well formed |
| Store.AddAnswerRowWf | backend/src/routes/quiz.ts:61-66 | inserting an answer under a fill_blank question keeps the store well formed |
| Store.SetQuizTextWf | backend/src/routes/quiz.ts:151-154 | replacing a quiz's title and description keeps the store well formed |
| Store.DeleteQuestionsOfWf | backend/src/routes/quiz.ts:162 | removing a quiz's questions keeps the store well formed |
| Store.DeleteQuizRowWf | backend/src/routes/quiz.ts:204-207 | deleting a quiz keeps the store well formed |
| QuizRead.ViewQuestion | backend/src/routes/quiz.ts:118-131 | a multiple_choice question carries its option rows and no answer; a fill_blank question carries no options |
| QuizRead.ViewQuestionRows | backend/src/routes/quiz.ts:118-131 | a question keeps its stored text and type; a multiple_choice question carries exactly the option rows pointing at it, each with its id, text and flag, in ascending id order; a fill_blank question carries an answer iff an answer row points at it, and then that of the row with the least id |
| QuizRead.LookupQuiz | backend/src/routes/quiz.ts:99-102 | a quiz is owned iff it exists with the caller as teacher, and foreign iff it exists with another teacher |
| QuizRead.Get | backend/src/routes/quiz.ts:97-135 | the quiz is returned iff the caller owns it, as its stored record (title, description, owner, creation time); its questions come in ascending id order, each is a stored question of the quiz read with its children, and every stored question of the quiz is among them |
| QuizRead.ForeignLooksAbsent | backend/src/routes/quiz.ts:99-106 | another teacher's quiz gives the same 404 as a missing one: removing it does not change the answer |
| QuizRead.InsertByDate | backend/src/routes/quiz.ts:87 | inserting a record into a newest-first list keeps it newest first and adds exactly that record |
| QuizRead.SortByDate | backend/src/routes/quiz.ts:87 | the sorted list is newest first and a permutation of the input |
| QuizRead.List | backend/src/routes/quiz.ts:84-90 | the list is newest first, holds exactly the caller's quizzes as stored, and holds no quiz twice |
| QuizWrite.InsertOptions | backend/src/routes/quiz.ts:55-60 | the option loop fails iff a fault falls within its statements, and otherwise advances one statement per option |
| QuizWrite.InsertOptionsEffect | backend/src/routes/quiz.ts:55-60 | the option loop appends the submitted options, in order and with their flags, to the question; the rest of the question and every other question are unchanged |
| QuizWrite.InsertQuestion | backend/src/routes/quiz.ts:48-66 | one iteration fails iff a fault falls within its question row and child rows |
| QuizWrite.Normalize | backend/src/routes/quiz.ts:54-66 | a multiple_choice question is stored with its options (none for an absent list) and no answer; a fill_blank question with no options, and with its answer iff that answer is a non-empty string |
| QuizWrite.InsertQuestionEffect | backend/src/routes/quiz.ts:48-66 | one iteration adds one question at the fresh id that reads back as the stored form of the input, appends it to its quiz's list only, and keeps every other question |
| QuizWrite.InsertQuestions | backend/src/routes/quiz.ts:47-67 | the question loop fails iff a fault falls within its statements |
| QuizWrite.InsertQuestionsFrame | backend/src/routes/quiz.ts:47-67 | the question loop keeps the store well formed, touches no quiz row, and leaves earlier questions and other quizzes' question lists unchanged |
| QuizWrite.InsertQuestionsEffect | backend/src/routes/quiz.ts:47-67 | the question loop appends the stored forms of the submitted questions, in order, to the quiz's question list |
| QuizWrite.CreateTx | backend/src/routes/quiz.ts:37-69 | the create transaction fails iff a fault falls within its statements, and a commit returns the fresh id |
| QuizWrite.Create | backend/src/routes/quiz.ts:29-81 | an invalid body gives 400 with the store unchanged; a valid one is created iff no statement raises; every failure is 400 with the store unchanged |
| QuizWrite.CreateEffect | backend/src/routes/quiz.ts:40-70 | a successful create adds exactly one quiz, owned by the caller, whose questions read back as the stored forms of the submitted ones, and leaves every other quiz's questions unchanged |
| QuizWrite.UpdateTx | backend/src/routes/quiz.ts:148-187 | for a quiz the caller does not own, the transaction never commits and ends with no row iff neither the UPDATE nor the ROLLBACK that follows it raises; for an owned quiz it aborts iff a fault falls within its statements |
| QuizWrite.Update | backend/src/routes/quiz.ts:142-199 | an invalid body gives 400; a valid body for a quiz the caller does not own gives 404, or 400 when the UPDATE or the ROLLBACK of the no-row path raises; 404 comes exactly in that case; such a quiz is never updated; for an owned quiz the update succeeds iff no statement raises; every failure leaves the store unchanged |
| QuizWrite.UpdatePrefix | backend/src/routes/quiz.ts:151-162 | after the UPDATE and the DELETE, the quiz has the new text and no questions, and every other quiz's questions are unchanged |
| QuizWrite.UpdateCommitted | backend/src/routes/quiz.ts:151-187 | a committed update replaces title and description, keeps owner and creation time, replaces the whole question list by the stored forms of the submitted ones, and leaves other quizzes alone |
| QuizWrite.UpdateEffect | backend/src/routes/quiz.ts:142-199 | a successful update happened on a quiz the caller owns, replaces its text and its whole question list (no old question survives), and touches no other quiz |
| QuizWrite.Delete | backend/src/routes/quiz.ts:202-211 | a quiz is deleted iff the caller owns it; otherwise the answer is 404 and nothing changes |
| QuizWrite.DeleteEffect | backend/src/routes/quiz.ts:204-211 | after a delete the quiz reads as not found, none of its questions remain, and every other quiz's questions are unchanged |
| QuizWrite.CreateThenGet | backend/src/routes/quiz.ts:40-135 | fetching a quiz right after creating it gives the submitted title and description, the caller as owner, and the stored forms of the submitted questions in order, options in the order the model lists them |
| QuizWrite.UpdateThenGet | backend/src/routes/quiz.ts:142-199 | fetching a quiz right after updating it gives the new title, description and questions, with the original owner and creation time, options in the order the model lists them |
| QuizWrite.UpdateForeignAsAbsent | backend/src/routes/quiz.ts:151-159 | updating another teacher's quiz answers exactly as updating a missing one, and changes nothing |
| QuizWrite.DeleteForeignAsAbsent | backend/src/routes/quiz.ts:204-210 | deleting another teacher's quiz answers 404 exactly as deleting a missing one, and changes nothing |
| QuizWrite.WritesKeepAnswersFilled | backend/src/routes/quiz.ts:61-66 | no write handler ever stores an empty fill_blank answer |
| QuizWrite.StoredFormIsNormal | backend/src/routes/quiz.ts:125-130 | what the read path shows of a stored question is already in stored form |
| Auth.Issue | backend/src/routes/auth.ts:36-40 | a token's claims name the user's id and name and expire 24 hours after issue |
| Auth.SecretOf | backend/src/routes/auth.ts:38 | the signing secret is the environment variable when it is set and non-empty, and `secret` otherwise |
| Auth.Signup | backend/src/routes/auth.ts:14-47 | invalid credentials give 400; a taken name gives 400 "Username already exists" unless the SELECT raises; the reply is a token iff the credentials are valid, the name is free and none of the four calls raises, and then it is 201 with a token for the next id and the name; the user row, holding the salted hash under the next id, is written iff the credentials are valid, the name is free and none of SELECT, hash or INSERT raises, and otherwise the users are unchanged; a raise from sign after the INSERT replies 400 with the user stored; every other reply is 400 |
| Auth.Login | backend/src/routes/auth.ts:49-74 | invalid credentials give 400; login succeeds iff the name exists, the password matches its hash and none of SELECT, compare or sign raises; 401 comes exactly for an unknown name or a wrong password when the calls that decide it do not raise, so both get the same 401; every other reply is 400; success is 200 with a token for the stored id and name |
| Auth.SignupKeepsUsersWf | backend/src/routes/auth.ts:31-34 | signup keeps user ids distinct and below the counter |
| Auth.SignupThenLogin | backend/src/routes/auth.ts:28-68 | whoever signup stored (valid credentials, a free name, and none of SELECT, hash or INSERT raising, even if sign then raised) can log in with the same password at any later time and gets a token for the same id and name, or 400 when a login call raises |
| Auth.SignFaultTakesName | backend/src/routes/auth.ts:19-46 | a signup whose token signing raises replies 400 yet keeps the user, so signing up again under that name gets "Username already exists" |
| Auth.IssuedTokenVerifies | backend/src/routes/auth.ts:36-40 | a token either route issues verifies to its user's id and name at any time within the 24 hours after issue |
| Auth.IssuedTokenExpires | backend/src/routes/auth.ts:36-40 | once the 24 hours after issue are over, the token no longer verifies |
| JsString.Trim | frontend/Quizzo/src/pages/CreateQuiz.tsx:88 | the trimmed string is an infix surrounded only by white space, and neither starts nor ends with white space |
| JsString.TrimEmptyIffBlank | frontend/Quizzo/src/pages/CreateQuiz.tsx:88 | a string trims to empty exactly when all its characters are white space |
| JsString.IndexFrom | backend/src/middleware/auth.ts:12 | the search finds the first occurrence of the pattern at or after a position, or reports that there is none |
| JsString.ReplaceFirst | backend/src/middleware/auth.ts:12 | only the first occurrence of the pattern is replaced; without one the string is returned unchanged |
| Guard.TokenOf | backend/src/middleware/auth.ts:12 | a token exists iff the header does; a header without `"Bearer "` is the token unchanged; otherwise the token is the header with the seven characters of its first occurrence cut out |
| Guard.Authenticate | backend/src/middleware/auth.ts:11-25 | a missing or empty token is "Authentication required"; a token the verifier refuses is "Invalid token"; the request passes iff the token verifies, and then with the decoded claims; every refusal is a 401 |
| Guard.HeaderWithoutPrefixIsToken | backend/src/middleware/auth.ts:12 | a header without the prefix is the token unchanged |
| Guard.BearerHeaderGivesToken | backend/src/middleware/auth.ts:12 | the header `Bearer <token>` yields `<token>` |
| Guard.BareBearerIsMissing | backend/src/middleware/auth.ts:12-16 | a header of just the prefix yields an empty token and is answered like a missing header |
| Guard.PrefixCutAnywhere | backend/src/middleware/auth.ts:12 | whatever precedes the first prefix is kept and the prefix alone is cut: `a + "Bearer " + b` yields `a + b` when `a` holds no earlier occurrence |
| Guard.PrefixCutFromMiddle | backend/src/middleware/auth.ts:12 | an illustration of the row above on one header: the prefix is cut from the middle too, so `Token Bearer abc` yields `Token abc` |
| Guard.OnlyFirstPrefixCut | backend/src/middleware/auth.ts:12 | a doubled prefix loses only its first copy |
| Guard.IssuedTokenPasses | backend/src/middleware/auth.ts:12-21 | a token the auth routes issued, sent as `Bearer <token>` within 24 hours, gets the request through with the user's claims |
| Guard.ExpiredTokenRefused | backend/src/middleware/auth.ts:12-24 | the same token sent after its 24 hours is refused with 401 "Invalid token" |
| QuestionBuilder.Fresh | frontend/Quizzo/src/pages/CreateQuiz.tsx:31-38 | the starting question is an empty multiple_choice question with two blank options and no answer |
| QuestionBuilder.AddQuestion | frontend/Quizzo/src/pages/CreateQuiz.tsx:87-104 | blank text, or a multiple_choice question without a correct option, changes nothing; otherwise the question is appended after the earlier ones and the current question is reset |
| QuestionBuilder.AddOption | frontend/Quizzo/src/pages/CreateQuiz.tsx:106-112 | absent options or four options change nothing; otherwise exactly one blank option is appended; the count never goes above four |
| QuestionBuilder.UpdateOption | frontend/Quizzo/src/pages/CreateQuiz.tsx:114-122 | only the addressed option changes, to the given text and flag; length, other options, text, type and answer are kept; absent options change nothing |
| QuestionBuilder.UpdateOptionUndo | frontend/Quizzo/src/pages/CreateQuiz.tsx:114-122 | writing an option's former contents back undoes an edit |
| QuestionBuilder.ChangeType | frontend/Quizzo/src/pages/CreateQuiz.tsx:182-189 | switching type empties the text and gives two blank options (multiple_choice) or an empty answer and no options (fill_blank) |
| QuestionBuilder.Step | frontend/Quizzo/src/pages/CreateQuiz.tsx:87-122 | every event except adding a question leaves the added questions as they were |
| QuestionBuilder.AddQuestionKeepsInv | frontend/Quizzo/src/pages/CreateQuiz.tsx:87-104 | adding a question keeps the builder invariant |
| QuestionBuilder.StepKeepsInv | frontend/Quizzo/src/pages/CreateQuiz.tsx:31-189 | every event keeps the invariant: a multiple_choice question under construction has two to four options, and every added question has non-blank text and, if multiple_choice, a correct option |
| QuestionBuilder.RunKeepsInv | frontend/Quizzo/src/pages/CreateQuiz.tsx:31-189 | any session of events keeps the invariant |
| QuizPages.FormBody | frontend/Quizzo/src/pages/CreateQuiz.tsx:70 | the submitted body is the title, the description and the body form of each added question, in order |
| QuizPages.CreateSubmit | frontend/Quizzo/src/pages/CreateQuiz.tsx:62-70 | a submit of the create page's form sends the body iff title and description are non-empty (the `required` inputs at lines 143 and 152 hold the form back otherwise) and the page is authenticated, and then the page marks itself submitting; otherwise nothing changes |
| QuizPages.EditSubmit | frontend/Quizzo/src/pages/EditQuiz.tsx:102-111 | a submit of the edit page's form sends the body iff title and description are non-empty (the `required` inputs at lines 209 and 218), the page is authenticated and no request is in flight; otherwise nothing changes |
| QuizPages.SubmitGuardsAgreeWhenEnabled | frontend/Quizzo/src/pages/CreateQuiz.tsx:263 | while the submit button is enabled the two pages' guards agree; they differ only for a submit raised, with the required fields filled, while one is in flight |
| QuizPages.Sanitize | frontend/Quizzo/src/pages/EditQuiz.tsx:76-84 | the loaded questions keep their count, order, text, type and answer; each option keeps its text and its `is_correct` flag as `isCorrect`; absent options stay absent |
| QuizPages.SanitizeIsContents | frontend/Quizzo/src/pages/EditQuiz.tsx:76-84 | the client's map is exactly the server's view with its row ids dropped |
| QuizPages.Loaded | frontend/Quizzo/src/pages/EditQuiz.tsx:72-85 | a loaded page holds the quiz's title, description and sanitised questions, and keeps the question being composed |
| QuizPages.RemoveQuestion | frontend/Quizzo/src/pages/EditQuiz.tsx:165-167 | removing index i drops exactly that entry and keeps the rest in order; an out-of-range index changes nothing |
| QuizPages.RemoveQuestionKeepsInv | frontend/Quizzo/src/pages/EditQuiz.tsx:165-167 | removing a question keeps the builder invariant |
| QuizPages.RemovingLastQuestionDisablesUpdate | frontend/Quizzo/src/pages/EditQuiz.tsx:340 | removing the only question disables the Update button |
| CrossCheck.AcceptedQuestionValidIff | backend/src/routes/quiz.ts:8-18 | a question the builder accepted passes the server's schema exactly when none of its options is blank |
| CrossCheck.FormBodyValidIff | backend/src/routes/quiz.ts:8-24 | for a form the builder produced (its invariant holds), the body passes the server's schema exactly when title and description are filled and no added question has a blank option |
| CrossCheck.SentBodyValidIff | backend/src/routes/quiz.ts:8-24 | a body either page actually sends from a builder-produced form passes the server's schema exactly when no added question has a blank option |
| CrossCheck.BuilderTakesBlankOption | frontend/Quizzo/src/pages/CreateQuiz.tsx:87-104 | the builder accepts a question whose only correct option has blank text |
| CrossCheck.ServerRefusesBlankOption | backend/src/routes/quiz.ts:9 | with any non-empty title and description, the page's submit is enabled and sends that question, and the server answers 400 and stores nothing |
| CrossCheck.BlankOptionGap | frontend/Quizzo/src/pages/CreateQuiz.tsx:35-36 | a concrete session the builder accepts and the server refuses |
| CrossCheck.StoredListIsNormal | backend/src/routes/quiz.ts:118-131 | a quiz's question list as read is a fixed point of the write path's stored form |
| CrossCheck.EditUnchangedKeepsQuestions | frontend/Quizzo/src/pages/EditQuiz.tsx:76-111 | loading a quiz into the edit page and sending it back unchanged stores the same questions again, when the server accepts the body (options in the order the model lists them) |

## Left out

- Express, CORS, the port, the pool, connection release and concurrent requests: I/O and concurrency. Each transaction is one atomic step.
- `init.sql` is not part of this model. The cascade from quizzes to questions to options and answers is an assumption of `Store.DeleteQuizRow` and `Store.DeleteQuestionsOf`.
- bcrypt and jsonwebtoken internals: foreign library code, kept abstract in `Auth.Crypto`. The salt and the clock are parameters.
- `created_at` is a number supplied at insert time. The order of quizzes with equal times is not specified.
- Ids are one counter for all relations rather than one SERIAL per table, and a ROLLBACK restores the counter, whereas a SERIAL keeps values an aborted INSERT consumed. The handlers' behaviour depends only on id equality and on relative order within a table, which both schemes give alike; the id values the replies carry (the new quiz's id, question and option ids) are not those the database would hand out.
- Read-path errors (the 500 answers of `GET /`, `GET /:id` and `DELETE /:id`) and non-numeric `:id` parameters: these come from the database driver, which is not modelled.
- `ZodError`s for wrongly typed or missing required fields: bodies arrive typed. Only the checks the schema makes on typed values are modelled.
- String lengths count characters, not UTF-16 code units.
- QuestionBuilder.UpdateOption: requires an index within the option list, because the page only calls it for a rendered option. The sparse-array growth of JavaScript for a larger index is not modelled.
- Auth.Login: returns only the reply, because the route never writes the user relation.
- Logging: `console.log` of the username, plaintext password and pool at `backend/src/routes/auth.ts:52` and of signup errors at line 44 is output the model does not represent; writing a password to the log is a side effect of the login route that no member accounts for.
- QuizRead.ViewQuestion: the option and answer queries have no ORDER BY, so the database may return the rows in any order; the model fixes one (ascending id), and `QuizRead.ViewQuestionRows` states the option rows as a set plus that order.
- QuizWrite.CreateThenGet: the option order it proves is the model's id order; the source promises only the same option rows, in an order the database picks.
- QuizWrite.UpdateThenGet: the option order it proves is the model's id order; the source promises only the same option rows, in an order the database picks.
- CrossCheck.EditUnchangedKeepsQuestions: the option order it proves is the model's id order; the source promises only the same option rows, in an order the database picks.
- CrossCheck.FormBodyValidIff: covers forms whose builder invariant holds. A form filled by loading a stored quiz need not satisfy it: the server stores white-space-only text and multiple_choice questions without a correct option. Loaded forms are covered by `CrossCheck.EditUnchangedKeepsQuestions` instead.
- `Quiz.tsx`, `Dashboard.tsx`, `Login.tsx`, `Signup.tsx`, `App.tsx`, the navbar and the private route: network, storage, routing and rendering.
- Axios error handling, `localStorage` and navigation in the two quiz pages, including `handleDelete` in `EditQuiz.tsx`: side effects around the pure transitions. The delete itself is `QuizWrite.Delete`.
