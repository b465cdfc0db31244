# Exam-mode back end: a verified model of its core

This project models the core of an exam platform's back end. Lecturers
upload an exam paper as a PDF; the back end extracts its text, has an AI
service turn it into questions, and stores them on the exam. Students
submit answer PDFs, which are marked the same way: the AI's score text is
checked, a transcript is produced, and the submission is upserted under
the student's lower-cased e-mail. Around this pipeline sit the exam
aggregate (invites merged from a CSV file and the request, removal of an
invite, the student login gate and the shuffled questions, the scheduled
opening of an exam, transcripts mailed back), the queue consumer that
routes jobs to the two workers, the HTML template compiler, and the
lecturer accounts with their single-session rule: login, logout, the
authentication guard and the hourly sweep of idle sessions.

Everything outside the process is a parameter. The PDF libraries, the AI
service, `JSON.parse`, the mailer, the random number generator, the file
reader, password hashing and checking, token verification, the clock and
database failures are all passed in as functions or values. Each
operation is then stated for every behaviour those parameters can have.

Layout, one module per file:

- `wrappers.dfy`, `errors.dfy`: `Option`, `Result`, and the HTTP error
  kinds the services throw, each with its message.
- `text.dfy`: the JavaScript string operations the code relies on
  (`trim` with `\s`, `toLowerCase`, `split`/`join`, `includes`,
  `parseInt`) and their laws.
- `exam_model.dfy`: the exam document (a class, since the services
  change it in place), its submissions, questions and access types.
- `process_service.dfy`: text extraction with retries, the AI call with
  retries, the score format, the cleaning of the AI's JSON, the parse and
  mark workers, and the submission upsert.
- `exam_utils.dfy`: CSV rows, e-mails and names, and the invitation
  mailer's failure report.
- `exam_service.dfy`: the exam operations listed above.
- `queue_consumer.dfy`: job routing and the scheduled opening of exams.
- `pdf_generator.dfy`: `{{ key }}` template compilation and the choice
  between inline HTML and a template file.
- `user_model.dfy`, `user_service.dfy`, `auth_guard.dfy`,
  `session_cleanup.dfy`: the user collection (a class holding a sequence
  of users), sign-up, login, logout, the guard and the session sweep.

Each state-changing operation is a method on a class (`Exam` or
`UserStore`). Its postcondition says that the new state is a function of
the old state, such as `LoginStep` or `SweepStep`. The lemmas beside
those functions prove what the source promises about them.

Where the code departs from what its API and comments suggest, the model
follows the code:

- Scheduling an exam with a start date in the past does not fail. The
  delay is clamped to zero (`Math.max`), so the exam opens at once.
- A failed marking job never deletes the uploaded file. Only the success
  path deletes it.
- A parse job's temporary file is not always deleted after its final
  attempt. The producer allows three attempts, and the worker deletes the
  file only when `attemptsMade >= attempts - 1`, that is on the third
  attempt. A job that succeeds on its first or second attempt is never
  retried, so its file is left behind.
- A marking failure reaches the caller with the prefix
  `Error processing PDF: ` twice. `performMark` wraps every error and
  `markPdfWorker` wraps the result again.
- The queue consumer returns the worker's promise without awaiting it.
  Its `catch` therefore sees only the unknown-job error, so only that
  error is logged there.

## Model

| member | source | states |
|---|---|---|
| ExamModel.CountKeyed | src/modules/exam/interfaces/exam.interface.ts:1-8 | in a submission list keyed by distinct lower-case e-mails, an e-mail occurs once if present and never otherwise |
| ExamModel.IndexOfEmail | src/modules/process/process.service.ts:439-443 | `findIndex` by e-mail: -1 exactly when no submission has it, otherwise the first one that does |
| ExamModel.Exam.constructor | src/modules/exam/interfaces/exam.interface.ts:1-15 | a new exam has the given key, name, lecturer and access, and no invites, questions or submissions |
| ProcessService.NoisyWarningsSwallowed | src/modules/process/process.service.ts:74-80 | a warning whose first argument contains `FormatError` or `Indexing all PDF objects` is never forwarded |
| ProcessService.ValidateFile | src/modules/process/process.service.ts:460-464 | an upload is accepted iff a file is present with MIME type `application/pdf`; otherwise "No file provided" or "Invalid file type – PDF only" |
| ProcessService.EnsurePdftotext | src/modules/process/process.service.ts:103-113 | succeeds iff the command exists or installing it makes it exist; otherwise an internal error naming the poppler-utils package |
| ProcessService.FirstUsable | src/modules/process/process.service.ts:116-133 | the first attempt among at most three whose text is non-blank, with every earlier attempt unusable |
| ProcessService.Backoff | src/modules/process/process.service.ts:132 | the waits between attempts grow linearly: the i-th wait is 300·i ms |
| ProcessService.ExtractionNonBlankOrEmpty | src/modules/process/process.service.ts:115-155 | extraction yields non-blank text, or the empty string only when all six attempts gave nothing; a missing `pdftotext` fails only after the three library attempts; at most six waits |
| ProcessService.LibraryPreferred | src/modules/process/process.service.ts:115-135 | if any library attempt yields text, the first such text is the result and `pdftotext` is never consulted |
| ProcessService.TryThree | src/modules/process/process.service.ts:116-133 | one retry loop returns the text of the first non-blank try among three, or nothing, after sleeping 300 ms times the number of each failed try |
| ProcessService.ExtractTextFromPdf | src/modules/process/process.service.ts:115-155 | the retry loops return exactly the text and the sequence of waits of the extraction specification |
| ProcessService.AiGenerateWithRetry | src/modules/process/process.service.ts:445-458 | at most three calls; every call before the last threw; the waits are 500·attempt ms; the result is the reply of the first call that returned, or the third call's error |
| ProcessService.AiSucceedsIffSomeCallReturns | src/modules/process/process.service.ts:445-458 | the AI call succeeds iff one of the three calls returns, and then with the first returned reply |
| ProcessService.ScoreFormatByParts | src/modules/process/process.service.ts:363 | the score regex, read greedily, accepts exactly the strings made of one slash between two numerals padded with white space |
| ProcessService.ScoreOfMatched | src/modules/process/process.service.ts:340 | for an accepted score text, `parseInt` of the part before the slash is the value of the numeral the regex read, never negative |
| ProcessService.ScoreRoundTrip | src/modules/process/process.service.ts:337-345 | writing `x/y` gives an accepted score text that stores the score `x` |
| ProcessService.GenerateScoreText | src/modules/process/process.service.ts:359-366 | a score text is returned iff the AI replies and its trimmed reply matches the score format |
| ProcessService.ScoreTextAccepted | src/modules/process/process.service.ts:359-366 | an accepted text is trimmed and has the score shape; any other reply is refused with a message quoting it; an AI failure propagates unchanged |
| ProcessService.StripFencesNoFence | src/modules/process/process.service.ts:256 | after every fence is removed, no three backticks remain, even where removals bring backticks together |
| ProcessService.KeepLines | src/modules/process/process.service.ts:259 | a line is kept iff it is a line of the input and is not a lone comma |
| ProcessService.CleanOutputIsClean | src/modules/process/process.service.ts:253-261 | the cleaned AI output contains no code fence and no line that is a lone comma |
| ProcessService.SuccessfulFirstAttemptKeepsTempFile | src/modules/process/process.service.ts:289-296 | with the producer's three attempts, only the third attempt deletes the file, so a job that succeeds on its first or second attempt leaves it behind |
| ProcessService.ParsedOrRaw | src/modules/process/process.service.ts:262-270 | output that is not JSON is returned as the raw string; otherwise as the parsed value |
| ProcessService.QuestionListStable | src/modules/process/process.service.ts:276-279 | an array is stored as its items and any other value as a one-element list, and storing twice is storing once |
| ProcessService.NonJsonReturnedRaw | src/modules/process/process.service.ts:248-270 | with non-blank text and an AI reply, parsing never fails; non-JSON output is returned as the cleaned raw string |
| ProcessService.ParsePdfWorker | src/modules/process/process.service.ts:243-297 | the result is the parse outcome; the questions are replaced by its list only on success with a non-empty exam key; nothing else changes; the file is deleted iff `attemptsMade >= (attempts ?? 1) - 1`, whatever the outcome |
| ProcessService.MarkOutcome | src/modules/process/process.service.ts:310-357 | any score text a marking run returns matches the score format |
| ProcessService.MarkedSubmission | src/modules/process/process.service.ts:337-344 | the stored submission has the lower-cased e-mail, the parsed score (never negative), the transcript URL, the time and the student's answer and time spent |
| ProcessService.MarkPdfWorker | src/modules/process/process.service.ts:298-357 | on success the submission is upserted and the file deleted; on failure the error carries the double prefix, nothing is stored and the file is kept; the questions, invites and access never change |
| ProcessService.UpsertShape | src/modules/process/process.service.ts:439-443 | a new e-mail is appended; an existing one replaces its first submission in place, leaving every other submission as it was |
| ProcessService.UpsertKeepsKeyed | src/modules/process/process.service.ts:439-443 | upserting keeps e-mails distinct and lower-case, and leaves exactly one submission for the upserted e-mail |
| ProcessService.UpsertTwice | src/modules/process/process.service.ts:439-443 | upserting for the same e-mail twice is the same as upserting the second submission once |
| ProcessService.UpsertSubmission | src/modules/process/process.service.ts:439-443 | the exam's submissions become the upserted list and nothing else changes |
| ExamUtils.TrimAll | src/modules/exam/utils/exam.utils.ts:68 | every row is trimmed, in place and in order |
| ExamUtils.DropEmpty | src/modules/exam/utils/exam.utils.ts:69 | `filter(Boolean)` keeps exactly the non-empty rows and never lengthens the list |
| ExamUtils.DropEmptyOrder | src/modules/exam/utils/exam.utils.ts:69 | filtering distributes over concatenation, so kept rows stay in input order with repeats, and a list with no empty row is kept whole |
| ExamUtils.RowsAreTrimmedLines | src/modules/exam/utils/exam.utils.ts:64-70 | every row is a non-empty trimmed line of the trimmed file, without a line break |
| ExamUtils.LinesAreRows | src/modules/exam/utils/exam.utils.ts:64-70 | every non-blank line appears as a row; skipping the header drops exactly the first row |
| ExamUtils.SecondCells | src/modules/exam/utils/exam.utils.ts:72-76 | e-mails are extracted iff every row has at least two cells, and then they are each row's second cell, in order |
| ExamUtils.FirstCellsTotal | src/modules/exam/utils/exam.utils.ts:96-100 | every row yields a name, its first cell, in order |
| ExamUtils.ReturnNamesNeverFails | src/modules/exam/utils/exam.utils.ts:83-105 | name extraction never fails (a split always has one cell), with one name per row |
| ExamUtils.EmailsAndNamesAligned | src/modules/exam/utils/exam.utils.ts:59-105 | e-mail extraction fails, with "Invalid CSV: cannot extract emails", iff some row lacks a second cell; otherwise the i-th e-mail and the i-th name come from the same row |
| ExamUtils.FailedSends | src/modules/exam/utils/exam.utils.ts:15-37 | no failure is recorded iff every delivery succeeded |
| ExamUtils.SendInvite | src/modules/exam/utils/exam.utils.ts:15-43 | every recipient is tried, in order; the call fails iff a delivery failed, with the count and the list of failures in the message |
| ExamUtils.FailedSendsCount | src/modules/exam/utils/exam.utils.ts:39-42 | the number in the failure message is the number of deliveries that failed |
| ExamService.WithTranscriptKeyed | src/modules/exam/exam.service.ts:153-166 | updating a transcript keeps e-mails distinct and lower-case and leaves one submission for that e-mail, carrying the transcript |
| ExamService.WithTranscriptShape | src/modules/exam/exam.service.ts:153-166 | the first submission with that e-mail gets the transcript and nothing else changes; an unknown e-mail appends a fresh submission with score 0 |
| ExamService.UpdateSubmission | src/modules/exam/exam.service.ts:147-169 | an unknown exam is not found; otherwise only the submissions change, as specified, and they stay keyed |
| ExamService.Dedup | src/modules/exam/exam.service.ts:128 | `Array.from(new Set(...))` has no duplicates and the same members as its input |
| ExamService.DedupExtends | src/modules/exam/exam.service.ts:128 | deduplication keeps the order of first occurrence: extending the input only extends the result |
| ExamService.DedupOfDistinct | src/modules/exam/exam.service.ts:128 | a list without duplicates is unchanged |
| ExamService.InLowerAll | src/modules/exam/exam.service.ts:127 | an e-mail is among the lowered ones iff it is the lower-casing of some input e-mail |
| ExamService.MergedInvitesKeyed | src/modules/exam/exam.service.ts:124-128 | the merged invites keep every old invite first and in order, are distinct and lower-case, and hold exactly the old invites and the lowered new e-mails |
| ExamService.NameAt | src/modules/exam/exam.service.ts:133 | a recipient's name is the name at its index when that is non-empty, and is never empty ("Student" otherwise) |
| ExamService.Recipients | src/modules/exam/exam.service.ts:131-134 | one recipient per lowered e-mail, paired with the name at the same index |
| ExamService.SendInvites | src/modules/exam/exam.service.ts:107-145 | not found, not the owner and a bad CSV each refuse without changing the invites; otherwise the invites become the merged list, each new address is mailed with its name, the call succeeds iff every delivery did, and the key, name, lecturer, link, questions, submissions and access are unchanged |
| ExamService.MergeAndMail | src/modules/exam/exam.service.ts:127-144 | the lowered e-mails are merged into the invites, which stay keyed; recipients pair each lowered e-mail with its name; the mailing outcome is reported; nothing else changes |
| ExamService.MailInvites | src/modules/exam/exam.service.ts:137-144 | "Invites sent" iff every delivery succeeded; otherwise the mailer's failure report |
| ExamService.LoginGate | src/modules/exam/exam.service.ts:228-233 | a student gets in iff the exam is open or their lower-cased e-mail is invited; otherwise "Student not invited for this exam" |
| ExamService.SwapPermutes | src/modules/exam/exam.service.ts:238 | one swap of the shuffle is a permutation |
| ExamService.ShuffledPermutes | src/modules/exam/exam.service.ts:235-239 | the Fisher–Yates shuffle is a permutation of the stored questions, whatever the random choices |
| ExamService.ShuffleInPlace | src/modules/exam/exam.service.ts:235-239 | the in-place loop computes the shuffle specification on the array |
| ExamService.ShuffledQuestionsPermute | src/modules/exam/exam.service.ts:235-245 | the questions a student receives are a permutation of the stored ones |
| ExamService.StudentLogin | src/modules/exam/exam.service.ts:221-247 | not found, refused by the gate, or the exam's id, name and key with a permutation of its questions |
| ExamService.TranscriptLookup | src/modules/exam/exam.service.ts:183-191 | a transcript sent is the non-empty one stored under the lower-cased address; no submission and a missing or empty transcript each refuse with their message |
| ExamService.ExamBackMailsInOrder | src/modules/exam/exam.service.ts:182-192 | the transcripts mailed are, in order, those looked up for the first addresses of the list (`Lookups`: the transcript lookup of each address) |
| ExamService.ExamBackSuccess | src/modules/exam/exam.service.ts:177-197 | over the per-address lookups: sending succeeds iff every address has a transcript and every mail goes out, and then every address was mailed |
| ExamService.ExamBackFailure | src/modules/exam/exam.service.ts:182-192 | over the per-address lookups: a failure stops at the first address without a transcript or the first mail that failed, after every earlier mail succeeded |
| ExamService.ExamBackMessage | src/modules/exam/exam.service.ts:194-196 | the success message counts the students, plural exactly when there is more than one |
| ExamService.SendExamBack | src/modules/exam/exam.service.ts:177-197 | not found, or the mails and the result of the specification |
| ExamService.EmailList | src/modules/exam/exam.service.ts:181 | one address becomes a one-element list and a list is taken as it is |
| ExamService.ScheduleDelay | src/modules/exam/exam.service.ts:216 | the job runs at the start time, or at once when the start has passed |
| ExamService.PastStartClamped | src/modules/exam/exam.service.ts:216 | a start time in the past gives delay zero rather than an error |
| ExamService.ScheduleExam | src/modules/exam/exam.service.ts:208-219 | not found and nothing queued, or the exam becomes scheduled, an `open-exam` job for it is queued with that delay and "Exam scheduled" is returned; nothing else changes |
| ExamService.RemoveAll | src/modules/exam/exam.service.ts:102 | `$pull` keeps exactly the invites other than the removed e-mail |
| ExamService.RemoveAllOrder | src/modules/exam/exam.service.ts:102 | removal keeps the order of the remaining invites, and an absent e-mail leaves them unchanged |
| ExamService.RemoveAllKeyed | src/modules/exam/exam.service.ts:102 | removal keeps the invites distinct and lower-case |
| ExamService.DropEmailFromInvite | src/modules/exam/exam.service.ts:99-105 | the lower-cased e-mail is pulled from the invites, nothing else changes, and "Email removed" is returned even when no exam matched |
| QueueConsumer.Route | src/lib/queue/queue.consumer.ts:33-43 | `process-pdf` goes to the parse worker and `mark-pdf` to the mark worker; any other name fails with "Unknown job name: " and the name |
| QueueConsumer.AsMarkJob | src/lib/queue/queue.consumer.ts:40 | the mark worker receives the job's data unchanged |
| QueueConsumer.Process | src/lib/queue/queue.consumer.ts:31-49 | each routed job has exactly its worker's outcome; a parse job replaces the questions with the parsed list on success, a mark job upserts the marked submission on success; only an unknown job is logged and rethrown, leaving the exam unchanged; key, name, lecturer, link, access and invites never change |
| QueueConsumer.Opened | src/lib/queue/queue.consumer.ts:60-63 | a scheduled exam becomes open, any other exam keeps its access, and no exam stays scheduled |
| QueueConsumer.HandleOpenExam | src/lib/queue/queue.consumer.ts:58-68 | only the access changes, as specified, and a missing exam is a no-op |
| PdfGenerator.MatchOfPlaceholder | src/utils/pdf-generator.ts:12 | `{{`, white space, a word key, white space and `}}` matches at its start, with that key and its full length |
| PdfGenerator.MatchShape | src/utils/pdf-generator.ts:12 | every match starts with `{{` and contains no other `{` before its end |
| PdfGenerator.Value | src/utils/pdf-generator.ts:13-14 | a known key gives its value and an unknown key the empty string |
| PdfGenerator.CompileWithoutPlaceholders | src/utils/pdf-generator.ts:11-16 | a template without placeholders compiles to itself |
| PdfGenerator.CompilePlaceholder | src/utils/pdf-generator.ts:11-16 | a placeholder is replaced by its value and scanning resumes after it, so a value is never compiled again |
| PdfGenerator.CompileLiteral | src/utils/pdf-generator.ts:11-16 | literal text before a placeholder or the end is copied unchanged |
| PdfGenerator.CompileFills | src/utils/pdf-generator.ts:11-16 | a template spelled from literal pieces and placeholders compiles to the pieces with each placeholder replaced by its value |
| PdfGenerator.RenderHtml | src/utils/pdf-generator.ts:18-31 | inline HTML wins over a template file; a file error propagates; without either the call fails with "Either html or templatePath must be provided"; data is compiled in only when given |
| PdfGenerator.PlainHtmlUnchanged | src/utils/pdf-generator.ts:18-31 | inline HTML without placeholders is returned unchanged |
| UserModel.FindByEmail | src/modules/users/user.service.ts:48 | `findOne({ email })`: -1 exactly when no user has the e-mail, otherwise the first user that does |
| UserModel.FindById | src/modules/users/user.service.ts:83-86 | `updateOne({ _id })`: -1 exactly when no user has the id, otherwise the first user that does |
| UserModel.SignedOut | src/modules/users/user.service.ts:85 | a signed-out user is not signed in and has a null session; their identity is unchanged |
| UserModel.UserStore.constructor | src/modules/users/models/user.model.ts:5-19 | the collection starts empty |
| UserService.SignupStep | src/modules/users/user.service.ts:23-42 | sign-up fails with "Email already registered" iff the e-mail exists, changing nothing; otherwise one user with the hashed password, not signed in, is appended |
| UserService.SignupKeeps | src/modules/users/user.service.ts:23-42 | sign-up with a fresh id keeps the collection consistent and unique |
| UserService.LoginRefusals | src/modules/users/user.service.ts:48-62 | an unknown e-mail or a wrong password gives "Invalid credentials"; an active session gives "Already signed in from another device/session"; a refusal changes no user |
| UserService.LoginGrants | src/modules/users/user.service.ts:57-78 | a login succeeds exactly when the e-mail is registered, the password verifies and no session is active; it signs that user alone in with the new session id, which the token payload carries |
| UserService.LoginKeeps | src/modules/users/user.service.ts:44-79 | a login keeps the collection consistent and unique |
| UserService.OneSessionAtATime | src/modules/users/user.service.ts:57-62 | after a successful login, a second login for that user is refused and changes nothing |
| UserService.LogoutSignsOut | src/modules/users/user.service.ts:81-89 | the user with the id is signed out with a null session, and no other user changes |
| UserService.LogoutKeeps | src/modules/users/user.service.ts:81-89 | a logout keeps the collection consistent and unique |
| UserService.Signup | src/modules/users/user.service.ts:23-42 | the store changes as the sign-up specification says and stays valid |
| UserService.Login | src/modules/users/user.service.ts:44-79 | the store changes as the login specification says and stays valid |
| UserService.Logout | src/modules/users/user.service.ts:81-89 | the store changes as the logout specification says, stays valid, and "User logged out" is returned |
| AuthGuard.GuardStep | src/guards/auth.middleware.ts:38-85 | a handler without the requirement is admitted; a missing or non-bearer header is refused; an admitted request names a user; only an expired token whose payload decodes to a non-empty e-mail changes the users |
| AuthGuard.GuardAdmits | src/guards/auth.middleware.ts:45-84 | a request is admitted iff its bearer token verifies and its session id is the one stored for its user, and then as that user, changing nothing |
| AuthGuard.GuardRefusals | src/guards/auth.middleware.ts:56-81 | an invalid token, a session mismatch and an expired token each get their message |
| AuthGuard.ExpiredTokenSignsOut | src/guards/auth.middleware.ts:59-70 | an expired token whose payload names a registered e-mail signs that user out, and no other user changes |
| AuthGuard.GuardKeeps | src/guards/auth.middleware.ts:38-85 | the guard keeps the collection consistent and unique |
| AuthGuard.LoginTokenAdmitted | src/guards/auth.middleware.ts:75-84 | the token a login issues admits its user for as long as the session is unchanged |
| AuthGuard.LogoutRevokes | src/guards/auth.middleware.ts:75-81 | after a logout, every token of that user is refused with "Session invalid or expired" |
| AuthGuard.CanActivate | src/guards/auth.middleware.ts:38-85 | the decision and the store follow the guard specification, and the store stays valid |
| SessionCleanup.OneDayBoundary | src/modules/users/session-cleanup.service.ts:19-26 | a session last updated exactly 86 400 000 ms ago survives the sweep, and one updated a millisecond earlier is cleared |
| SessionCleanup.CountStale | src/modules/users/session-cleanup.service.ts:22-32 | nothing is found iff no user has a session idle since before the threshold |
| SessionCleanup.SweepClears | src/modules/users/session-cleanup.service.ts:36-45 | after the sweep no session is stale; each stale user is cleared and signed out; every other user is unchanged |
| SessionCleanup.RecentSessionSurvives | src/modules/users/session-cleanup.service.ts:24-25 | a user updated within the last day is untouched |
| SessionCleanup.SweepKeeps | src/modules/users/session-cleanup.service.ts:16-55 | the sweep keeps the collection consistent and unique |
| SessionCleanup.SweepRevokes | src/modules/users/session-cleanup.service.ts:36-45 | a swept user's tokens are refused by the guard afterwards |
| SessionCleanup.HandleCron | src/modules/users/session-cleanup.service.ts:16-55 | a database failure is swallowed and changes nothing; otherwise the loop clears exactly the stale sessions of the specification and reports how many it found |
| Text.TrimParts | src/modules/exam/utils/exam.utils.ts:66 | `trim()` removes exactly the leading and trailing white space: the input is white space, the result, then white space |
| Text.LowerIsLowerCase | src/modules/process/process.service.ts:338 | lower-casing gives a lower-case string, leaves one unchanged, and is idempotent |
| Text.SplitOfJoin | src/modules/exam/utils/exam.utils.ts:67 | splitting parts that do not contain the separator, joined with it, gives the parts back |
| Text.ParseIntOfNumeral | src/modules/process/process.service.ts:340 | `parseInt` of padded digits followed by a non-digit is the digits' value |

## Left out

- Reading and deleting the uploaded file, `readFile` and `unlink`, are not modelled as effects. Deletion is reported as a result flag, and file-system errors are not modelled.
- The PDF libraries, Puppeteer, S3, the Gemini service, the mailer and `JSON.parse` are oracles passed in as parameters. The transcript PDF (`createTranscriptPdf`, `uploadTranscript`) is reduced to its outcome and its URL.
- Installing `pdftotext` through the package manager is an oracle outcome, `presentAfterInstall`.
- The mail bodies are not modelled. Nor are the exam link that `sendInvites` puts in them (the configured `URL` fallback) or the start date.
- The student's name from `exam.invites.find(...)` in `performMark` only feeds the transcript. Invites are strings, so that name is always `undefined`. It is not modelled.
- Queue internals (job ids, `getJobInfo`, the producer's enqueueing, retries by the queue itself) and the exam CRUD operations (`createExam`, `getExamByIdOrKey`, `deleteExam`, `duplicateExam`, `updateExam`, `studentLogout`, `searchExam`) are outside this core.
- `toLowerCase` and `\s` are modelled for ASCII letters and the JavaScript white-space characters. Unicode case mapping beyond ASCII is not modelled.
- JSON values hold integers rather than floating-point numbers.
- Timestamps are integers in milliseconds, or strings for `timeSubmitted`. Mongoose's `updatedAt` is modelled as set to `now` on every update of a user.
- The user schema does not declare `isSignedIn` or `currentSessionId`. With Mongoose's strict mode those updates could be dropped. Likewise the exam schema, declared with `strict: false`, does not declare `question_text`, `submissions` or `link`, which the services write and read back. In both cases the model follows what the services evidently intend: the fields are stored.
- The exam schema's access enum lists only OPEN, PRIVATE and RESTRICTED, yet `scheduleExam` writes `SCHEDULED` and the scheduler reads it. The model supplies the missing `SCHEDULED` member of `ExamAccessType`; it does not model a save that the schema's enum validation would reject.
- Password hashing (argon2), JWT signing and verification, and `randomUUID` are parameters. A token is represented by its payload.
- `data[key]` on a plain object would also find inherited properties such as `constructor`. The model's data is a map, so only own keys are found.
- Database failures are modelled only in the session sweep, where the code catches them. Elsewhere a failing save simply propagates, and no partial state is modelled.
- ProcessService.ScoreValue: the score is an unbounded integer. JavaScript's `parseInt` gives a double, which rounds a numerator of 2^53 or more; that rounding is not modelled.
- ProcessService.MarkedSubmission: the stored score and `timeSpent` are unbounded integers, where the source stores JavaScript numbers (doubles).
- The exam document's pre-save hook mails every invite when the invites change, and a mail failure there rejects the save, so `sendInvites` can fail without storing the merged invites. That mailing and the rejected save are not modelled: the model stores the merged invites and reports only the explicit mailing loop. The hook's lower-casing of the invites is modelled (`MergedInvites`).
- UserService.SignupKeeps: the uniqueness of a new user's id is assumed as a precondition. The database assigns the id.
- ExamService.ShuffledPermutes: the random index is an oracle `pick(k) <= k` in place of `Math.floor(Math.random() * (k + 1))`. The distribution is not modelled.
