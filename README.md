# Virtual Professor: a Dafny model of its request handling and ingestion core

The Virtual Professor is a web tutor. Students register and sign in with a
student ID, keep a profile, leave feedback, and ask questions in a chat. A
backend pipeline answers each question from canned replies, from a
retrieval-augmented language model, or with a fixed fallback. Lecture files
are loaded into a lecture table and a vector index by two scripts.

This project models that core in Dafny 4.11 and proves its properties. Each
source file is one module:

- `Fences`, `Message`, `QaPipeline`: the fenced-code-block scanner. It is
  written once and parameterised by the tag class: JavaScript's `[a-zA-Z]*` in
  the chat bubble and Python's `[\w]*` in the answer pipeline. The chat
  bubble's part splitter is a loop proved against a specification function.
  The pipeline covers its canned replies, its no-context reply, its speech
  text and its confidence score.
- `Formats`, `AuthSchemas`: the email pattern of the sign-up page and the
  pydantic validators of the auth schemas.
- `RegisterPage`, `LoginPage`, `ResetPasswordPage`, `ForgotCollegeIdPage`,
  `ProfileForm`, `FeedbackForm`, `ChatInterface`: the front-end forms and
  handlers, as classes whose methods update the page state. Each method's
  guards are a pure function whose contract states every message by its rule.
- `AuthSession`: the session cache of the auth context.
- `AuthRoutes`, `ProfileRoutes`, `FeedbackRoutes`: the FastAPI routes over
  their tables, which are held as sequences of records.
- `Lectures`, `LoadLectures`, `ReindexLectures`: the two ingestion scripts,
  each a method with its loop, proved against a left fold over the files.

Password hashing, password checks, token encoding, the clock, random tokens,
text-to-speech, retrieval and the language model are all parameters: a
function, a value, or an `Option` for a call that may fail. Awaited client
calls are given as their outcome: `CallOutcome`, or a reply datatype per
form. Timers (`setTimeout` closes and redirects) are boolean flags that
record that a timer was scheduled.

## Model

| member | source | states |
|---|---|---|
| Fences.MatchAt | New/frontend/src/components/Message.jsx:19 | a match at i exists exactly when three backticks, a tag run, a newline and a later closing fence follow; the body ends at the first closing fence (non-greedy) |
| Fences.FindFrom | New/frontend/src/components/Message.jsx:19-24 | the match found is the leftmost one at or after `from`; None means no position matches |
| Fences.ChunksCover | New/frontend/src/components/Message.jsx:19-56 | the scanned pieces concatenate back to the text exactly, and every piece is well formed (plain text has no match, a block is the raw fence) |
| Fences.NoMatchOnePlain | New/frontend/src/components/Message.jsx:46-56 | text without a match is one plain piece, or none when empty |
| Fences.HasBlockIffMatch | New/backend/qa/pipeline.py:56-59 | the pieces hold a block exactly when some position matches |
| Fences.LettersMatchIsWordMatch | New/backend/qa/pipeline.py:56 | wherever the JavaScript pattern matches, the Python pattern matches the same fence |
| Fences.TagClassesDiffer | New/backend/qa/pipeline.py:56 | a tag with a digit (`py3`) is a fence for Python's `[\w]*` and not for `[a-zA-Z]*` |
| Fences.MatchUnique | New/frontend/src/components/Message.jsx:19 | at one position there is at most one match |
| Message.FormatSpec | New/frontend/src/components/Message.jsx:15-17 | no parts (null) exactly for absent or empty text; otherwise at least one part |
| Message.FormatMessageContent | New/frontend/src/components/Message.jsx:15-59 | the loop returns exactly the parts of the specification |
| Message.PartsCoverText | New/frontend/src/components/Message.jsx:24-51 | the parts are the scanned pieces in source order, those pieces reassemble the input exactly, and no text part is empty |
| Message.NoBlockSinglePart | New/frontend/src/components/Message.jsx:46-56 | text with no fenced block is one text part equal to the whole input |
| Message.CodePartsAreTrimmedBlocks | New/frontend/src/components/Message.jsx:34-40 | a code part carries the fence's letter tag and the trimmed body |
| QaPipeline.ExtractCodeBlocks | New/backend/qa/pipeline.py:50-69 | the block list is empty exactly when no fence matches, and then the speech text is the input unchanged |
| QaPipeline.BodiesInOrder | New/backend/qa/pipeline.py:59 | body k is the body of block k, the block positions increase, and no body contains a closing fence |
| QaPipeline.SpeechReplacesEachBlock | New/backend/qa/pipeline.py:62-67 | the speech text is the input with every block replaced by the same placeholder sentence and the plain text kept |
| QaPipeline.Confidence | New/backend/qa/pipeline.py:176-185 | 0 without documents, otherwise in (0, 0.8] |
| QaPipeline.ConfidenceMonotone | New/backend/qa/pipeline.py:182-185 | non-decreasing in document count and in answer length |
| QaPipeline.ConfidenceSaturates | New/backend/qa/pipeline.py:182-185 | exactly 0.8 from 3 documents and 500 characters on |
| QaPipeline.FirstKey | New/backend/qa/pipeline.py:87-88 | the first predefined key, in declaration order, contained in the question |
| QaPipeline.Sources | New/backend/qa/pipeline.py:158 | one source per document, in order, "unknown" when the metadata has none |
| QaPipeline.AnswerSpec | New/backend/qa/pipeline.py:71-174 | a predefined match answers its canned text with confidence 1.0 and the single source "Predefined Response"; no context gives the fixed reply with 0.0, no sources and no audio; a failed retrieval or model call gives the error reply with 0.0; otherwise the model's answer with code blocks kept, one source per document and exactly the confidence `_calculate_confidence` gives for the document count and the answer length |
| QaPipeline.GetAnswer | New/backend/qa/pipeline.py:71-174 | the loop over the predefined keys returns exactly the specified answer |
| QaPipeline.MatchPredefined | New/backend/qa/pipeline.py:84-88 | the loop finds the first key, in table order, contained in the normalised question, or none when no key is contained |
| QaPipeline.NameQuestionIsPredefined | New/backend/qa/pipeline.py:84 | the question is lower-cased and stripped before matching: "  What is your NAME? " matches the first key |
| Formats.EmailCheckIsPattern | New/frontend/src/components/Register.jsx:27-31 | the one-pass check holds exactly when the email is non-space text, one '@', then a dotted domain with non-empty sides |
| Formats.EmailHasOneAt | New/frontend/src/components/Register.jsx:27 | an email that fits the pattern has its only '@' at the split point |
| AuthSchemas.PasswordError | New/backend/api/schemas/auth.py:13-17 | accepted exactly from 8 characters on |
| AuthSchemas.TrailingNewlineAccepted | New/backend/api/schemas/auth.py:19-23 | as written, `re.match(r'^\d{8,12}$')` accepts "12345678\n", which is not 8 to 12 digits |
| AuthSchemas.PyMatchIsShapeOrNewline | New/backend/api/schemas/auth.py:21 | the as-written test accepts exactly 8 to 12 digits, optionally followed by one newline |
| AuthSchemas.StudentIdError | New/backend/api/schemas/auth.py:19-23 | corrected: accepted exactly for 8 to 12 ASCII digits and nothing else; everything accepted is also accepted as written |
| AuthSchemas.CollegeIdError | New/backend/api/schemas/auth.py:25-29 | accepted exactly from 3 characters on |
| AuthSchemas.ParseUserCreate | New/backend/api/schemas/auth.py:10-29 | valid exactly when all three rules hold, with the corrected student-ID rule, then unchanged; otherwise one to three messages |
| AuthSchemas.ParseUserCreateVsAsWritten | New/backend/api/schemas/auth.py:10-29 | the corrected body is valid exactly when the as-written validators accept it and the student ID does not end in a line feed |
| AuthSchemas.ParsePasswordReset | New/backend/api/schemas/auth.py:52-60 | valid exactly from 8 characters on, then unchanged |
| AuthSchemas.RegisterPasswordPassesReset | New/backend/api/schemas/auth.py:56-60 | a password accepted at registration is accepted by the reset schema |
| RegisterPage.FirstFailure | New/frontend/src/components/Register.jsx:21-50 | each message is shown exactly when its rule fails and every earlier rule holds; None exactly when all hold |
| RegisterPage.PageAndServerAgree | New/frontend/src/components/Register.jsx:21-53 | a form the page lets through passes the server's validators exactly when the college ID has 3 or more characters |
| RegisterPage.ShortCollegeIdReachesServer | New/backend/api/schemas/auth.py:25-29 | a 2-character college ID passes the page and fails the server |
| RegisterPage.ShortCollegeIdShowsObject | NewModel/frontend/src/context/AuthContext.jsx:106-110 | the server's 422 for that form lists one error, and the session throws it as "[object Object]" rather than the college-ID message |
| RegisterPage.RegisterForm.HandleSubmit | New/frontend/src/components/Register.jsx:14-58 | the error is cleared first; `register` gets the fields only when every guard passes; the error is the first failing message or the thrown message or the default |
| LoginPage.Guard | NewModel/frontend/src/components/Login.jsx:15-18 | no message exactly when both fields are non-empty; no format rule |
| LoginPage.LoginForm.HandleSubmit | NewModel/frontend/src/components/Login.jsx:11-25 | `login` gets exactly the entered, untrimmed values when both are filled; a failure shows the message or the default |
| ResetPasswordPage.FirstFailure | NewModel/frontend/src/components/ResetPassword.jsx:32-50 | a missing token first, then both fields, then match, then length; each message exactly under its rule |
| ResetPasswordPage.ResetPasswordForm.ReadToken | NewModel/frontend/src/components/ResetPassword.jsx:16-22 | the token is taken only from a present, non-empty query value |
| ResetPasswordPage.ResetPasswordForm.HandleSubmit | NewModel/frontend/src/components/ResetPassword.jsx:24-67 | messages cleared first; on success the message is set, both password fields cleared and the redirect scheduled; failures show the message or the default |
| ForgotCollegeIdPage.FirstFailure | NewModel/frontend/src/components/ForgotCollegeID.jsx:20-30 | both fields required, then an 8 to 12 digit student ID; None exactly when both hold |
| ForgotCollegeIdPage.EmailShapeNotChecked | NewModel/frontend/src/components/ForgotCollegeID.jsx:20-30 | an email without '@' passes this page |
| ForgotCollegeIdPage.ForgotCollegeIdForm.HandleSubmit | NewModel/frontend/src/components/ForgotCollegeID.jsx:12-43 | on success the same generic message whatever the account, and both fields cleared |
| AuthRoutes.First | New/backend/api/routes/auth.py:21-35 | `.first()`: the first matching row, None when no row matches |
| AuthRoutes.Login | New/backend/api/routes/auth.py:53-74 | the same 401 for an unknown student ID and a wrong password; otherwise a bearer token for that user's id expiring 30 minutes from now |
| AuthRoutes.LoginSubjectIsOwner | New/backend/api/routes/auth.py:57-74 | with unique student IDs, the token subject is the one user with that student ID |
| AuthRoutes.RequestCollegeId | New/backend/api/routes/auth.py:130-146 | the same detail whether or not an account matches |
| AuthRoutes.TokenSingleUse | New/backend/api/routes/auth.py:113-126 | after a reset clears the token, that token finds no user |
| AuthRoutes.UserTable.Register | New/backend/api/routes/auth.py:18-51 | a duplicate email is reported before a duplicate student ID; otherwise exactly one user is appended, with the hash and not the password |
| AuthRoutes.UserTable.RequestPasswordReset | New/backend/api/routes/auth.py:76-107 | one detail for known and unknown emails; a known user alone gets a fresh token expiring in one hour, and a link is mailed |
| AuthRoutes.UserTable.ResetPassword | New/backend/api/routes/auth.py:109-128 | refused exactly for an unknown token, a missing expiry or an expiry before now; otherwise only that user gets the new hash and loses token and expiry |
| ProfileRoutes.CreateAttrs | NewModel/backend/api/routes/profile.py:63-72 | the new row holds exactly the submitted values, absent optionals as NULL |
| ProfileRoutes.CreatedRowIsStored | New/backend/database/models/student_profile.py:9-21 | a created row is complete, typed and non-null where declared |
| ProfileRoutes.ApplyAll | NewModel/backend/api/routes/profile.py:114-117 | each field set in the request ends at its last value, null included; every other field, the id and the owner are unchanged |
| ProfileRoutes.UpdateKeepsTypes | NewModel/backend/api/routes/profile.py:114-127 | an update stays a valid row exactly when no NOT NULL column is set to null |
| ProfileRoutes.GetProfile | NewModel/backend/api/routes/profile.py:86-98 | the caller's profile exactly when one exists, else 404 |
| ProfileRoutes.ProfileTable.CreateProfile | NewModel/backend/api/routes/profile.py:46-84 | 400 when the user has a profile; otherwise one row for the user with the submitted values; at most one profile per user |
| ProfileRoutes.ProfileTable.UpdateProfile | NewModel/backend/api/routes/profile.py:100-127 | 404 without a profile; the setattr loop equals the left fold; a NULL in a NOT NULL column rolls back with 400 |
| FeedbackRoutes.ParseFeedback | New/backend/api/routes/feedback.py:11-16 | valid exactly for a rating in 1..5 and a text of 10 or more characters; otherwise the failing fields are named |
| FeedbackRoutes.ForUser | New/backend/api/routes/feedback.py:58-64 | exactly the rows of that user |
| FeedbackRoutes.ForUserAppend | New/backend/api/routes/feedback.py:30-49 | a new row extends its user's list by itself, with no per-user limit |
| FeedbackRoutes.FeedbackTable.SubmitFeedback | New/backend/api/routes/feedback.py:30-49 | one row is appended for the current user with the given fields |
| AuthSession.FailureMessage | NewModel/frontend/src/context/AuthContext.jsx:146-150 | a text detail, or the default when the detail is absent or empty, or a validation list printed as comma-joined "[object Object]"s, or the fetch error's message |
| AuthSession.WithProfile | NewModel/frontend/src/context/AuthContext.jsx:40-48 | a stored user without a profile gets the four empty fields; one with a profile is unchanged |
| AuthSession.Session.CheckLoggedIn | NewModel/frontend/src/context/AuthContext.jsx:15-61 | no token: no user; a stored user or the debug default becomes the user; an unreadable user removes both keys; loading ends false |
| AuthSession.Session.Login | NewModel/frontend/src/context/AuthContext.jsx:125-179 | a failed login throws before storage is written; a successful one stores the token and the user with an empty profile and goes to '/' |
| AuthSession.Session.Register | NewModel/frontend/src/context/AuthContext.jsx:88-122 | an accepted registration is followed by `login` with the same student ID and password; a refused registration or login leaves storage, user and navigation as they were, and a successful login stores the token and user and goes to '/' |
| AuthSession.Session.Logout | NewModel/frontend/src/context/AuthContext.jsx:182-187 | both keys removed, no user, and the app goes to /login |
| ProfileForm.ParseIntRoundTrip | New/frontend/src/components/StudentProfileForm.jsx:96 | `parseInt` of any integer's decimal text gives that integer back |
| ProfileForm.ParseIntStopsAtNonDigit | New/frontend/src/components/StudentProfileForm.jsx:96 | `parseInt` stops at the first non-digit: "3rd" gives 3 |
| ProfileForm.TypedSemesterIsSent | New/frontend/src/components/StudentProfileForm.jsx:96 | a semester typed as decimal digits reaches the payload as that number |
| ProfileForm.FractionalSemesterIsNull | New/frontend/src/components/StudentProfileForm.jsx:85-96 | a semester typed as ".5" passes the required-field check and reaches the payload as null |
| ProfileForm.BuildPayload | New/frontend/src/components/StudentProfileForm.jsx:92-100 | semester is parsed; year of study is parsed or null when empty; interests and goals are sent as "" |
| ProfileForm.PayloadIgnoresEmail | New/frontend/src/components/StudentProfileForm.jsx:92-100 | the email and the expected graduation never reach the payload |
| ProfileForm.StudentProfileForm.HandleChange | New/frontend/src/components/StudentProfileForm.jsx:68-74 | only the named field changes |
| ProfileForm.StudentProfileForm.FetchProfile | New/frontend/src/components/StudentProfileForm.jsx:23-66 | a fetched profile is merged and the email overwritten; only a status other than 401 and 404 shows an error |
| ProfileForm.StudentProfileForm.HandleSubmit | New/frontend/src/components/StudentProfileForm.jsx:76-121 | an empty required field stops with its message and no request; a save sets `profileExists` and schedules the close; a failure stores a text detail, the default for an absent or empty one, or a validation list as that list of error objects |
| FeedbackForm.SetField | New/frontend/src/components/FeedbackForm.jsx:19-25 | the named field takes the value and the other three are kept |
| FeedbackForm.ClickStar | New/frontend/src/components/FeedbackForm.jsx:122-129 | star k sets the rating to k, after which exactly the first k stars show filled |
| FeedbackForm.CountFilledFrom | New/frontend/src/components/FeedbackForm.jsx:129 | star i is filled exactly when i is at most the rating |
| FeedbackForm.Guard | New/frontend/src/components/FeedbackForm.jsx:36-40 | a message exactly when the text is empty |
| FeedbackForm.ShortTextIsPosted | New/frontend/src/components/FeedbackForm.jsx:36-42 | a non-empty text under 10 characters is posted, and the server refuses it |
| FeedbackForm.ShortTextStoresErrorObjects | New/frontend/src/components/FeedbackForm.jsx:36-64 | every text of 1 to 9 characters passes the guard, is refused with a one-error list, and the page stores that list as its error |
| FeedbackForm.GuardedFormMeetsServer | New/backend/api/routes/feedback.py:13-14 | a posted form with a star rating is accepted exactly when its text has 10 or more characters |
| FeedbackForm.FeedbackDialog.HandleChange | New/frontend/src/components/FeedbackForm.jsx:19-25 | only the named field changes |
| FeedbackForm.FeedbackDialog.HandleStar | New/frontend/src/components/FeedbackForm.jsx:122-129 | star k sets the rating to k and nothing else changes |
| FeedbackForm.FeedbackDialog.HandleSubmit | New/frontend/src/components/FeedbackForm.jsx:27-68 | error and success cleared first; an empty text stops with no request; a post resets the form to rating 5, empty texts and 'general' and schedules the close; a failure stores a text detail, the default for an absent or empty one, or a validation list as that list of error objects |
| ChatInterface.TrimsToEmptyIffBlank | New/frontend/src/components/ChatInterface.jsx:71 | `!s.trim()` holds exactly for all-whitespace text |
| ChatInterface.SendDisabled | New/frontend/src/components/ChatInterface.jsx:328 | the button is enabled exactly when not loading, not recording and the input is not blank |
| ChatInterface.EnterSubmits | New/frontend/src/components/ChatInterface.jsx:297-303 | only Enter without Shift on non-blank input submits |
| ChatInterface.ButtonImpliesEnter | New/frontend/src/components/ChatInterface.jsx:297-328 | whatever the enabled button sends, Enter sends too |
| ChatInterface.EnterWhileLoading | New/frontend/src/components/ChatInterface.jsx:297-328 | Enter is not gated on loading: a question can go out while the button is disabled |
| ChatInterface.Chat.ShowIntroOnce | New/frontend/src/components/ChatInterface.jsx:36-42 | the intro opens exactly when the flag is absent or empty, and the flag is then set |
| ChatInterface.Chat.HandleTextSubmit | New/frontend/src/components/ChatInterface.jsx:69-76 | a blank input changes nothing; otherwise the untrimmed text is sent and the box emptied |
| ChatInterface.Chat.KeyDown | New/frontend/src/components/ChatInterface.jsx:297-303 | sends and empties the box exactly under the Enter rule |
| ChatInterface.Chat.ClickSend | New/frontend/src/components/ChatInterface.jsx:328 | sends exactly when the button is enabled |
| ChatInterface.Chat.Type | New/frontend/src/components/ChatInterface.jsx:296-307 | the box takes the typed value; it is disabled while recording |
| ChatInterface.Chat.HandleTranscriptUpdate | New/frontend/src/components/ChatInterface.jsx:78-80 | the transcript is replaced |
| ChatInterface.Chat.HandleRecordingStart | New/frontend/src/components/ChatInterface.jsx:109-113 | recording starts and the transcript is cleared |
| ChatInterface.Chat.HandleAudioSubmit | New/frontend/src/components/ChatInterface.jsx:82-107 | recording stops; a blank transcript is never sent; the transcript is cleared on every path |
| ChatInterface.Chat.LegacyHandleAudioSubmit | NewModel/frontend/src/components/ChatInterface.jsx:70-82 | the older handler sends even a blank transcript, and a thrown send leaves the transcript and escapes |
| Lectures.FindTitle | New/backend/scripts/load_all_lectures.py:51 | the first row with the title, None when there is none |
| LoadLectures.Title | New/backend/scripts/load_all_lectures.py:44-46 | the stem for blank content; otherwise the whole first line of the stripped text cut to 100 characters: a non-empty start of it without a newline, ending only at the limit, the end of the text or a newline, never blank |
| LoadLectures.Upsert | New/backend/scripts/load_all_lectures.py:50-70 | a row with the title gets only its content replaced and no row is added; otherwise exactly one row with the next id is appended |
| LoadLectures.UpsertKeepsKeys | New/backend/scripts/load_all_lectures.py:61-69 | ids stay unique and below the next id |
| LoadLectures.UpsertKeepsTitlesUnique | New/backend/scripts/load_all_lectures.py:50-70 | the upsert never makes a title appear twice |
| LoadLectures.LoadCounts | New/backend/scripts/load_all_lectures.py:73-79 | the processed count is exactly the number of files that completed, each with one index entry |
| LoadLectures.LoadKeepsKeys | New/backend/scripts/load_all_lectures.py:37-79 | the loop keeps the ids unique |
| LoadLectures.LoadedTitlesPresent | New/backend/scripts/load_all_lectures.py:37-79 | after the loop every file that was read has a row under its title, and no row is lost |
| LoadLectures.ReloadReplacesContent | New/backend/scripts/load_all_lectures.py:53-58 | a file whose title exists replaces that row's content and adds no row |
| LoadLectures.LectureLoader.LoadAllLectures | New/backend/scripts/load_all_lectures.py:11-81 | a missing directory or no files changes nothing; otherwise the loop equals the fold, and a failing file does not stop the rest |
| LoadLectures.LectureLoader.LoadFile | New/backend/scripts/load_all_lectures.py:38-80 | one file is one step of the fold: an unreadable file changes nothing; a read one is upserted by its title, then indexed under its row id and counted only when indexing returns |
| ReindexLectures.SortByName | New/backend/scripts/reindex_lectures.py:36 | the same entries, ordered by name |
| ReindexLectures.IndexedText | New/backend/scripts/reindex_lectures.py:50-61 | only "Lectures32.txt" is padded, with the keyword block before and after its text |
| ReindexLectures.BoostIsPadding | New/backend/scripts/reindex_lectures.py:53-59 | the file's text sits exactly between the two keyword blocks |
| ReindexLectures.IndexEntriesByPosition | New/backend/scripts/reindex_lectures.py:41-42 | the file at sorted position k is indexed under id k + 1 |
| ReindexLectures.UpdateOnlyChangesContentOnly | New/backend/scripts/reindex_lectures.py:64-68 | as written: only a row with the id changes, and nothing is ever added |
| ReindexLectures.AsWrittenNeverInserts | New/backend/scripts/reindex_lectures.py:64-88 | as written, reindexing into an empty table leaves it empty for every listing |
| ReindexLectures.AsWrittenLosesFirstLecture | New/backend/scripts/reindex_lectures.py:74-88 | one file into an empty table: the index gets it, the table does not |
| ReindexLectures.Upsert | New/backend/scripts/reindex_lectures.py:63-73 | corrected: an existing row is updated, a missing one is inserted with the file name as title |
| ReindexLectures.UpsertStores | New/backend/scripts/reindex_lectures.py:63-88 | after the write the id holds exactly the content, the ids stay unique, and other rows are untouched |
| ReindexLectures.RowsStoreEachFile | New/backend/scripts/reindex_lectures.py:41-90 | every file's id holds that file's own text, never the padded one |
| ReindexLectures.RowsFromEmpty | New/backend/scripts/reindex_lectures.py:41-90 | from an empty table, row k is (k + 1, file name, text) |
| ReindexLectures.Reindexer.ReindexInOrder | New/backend/scripts/reindex_lectures.py:41-95 | files are indexed as they come; the table is written by one commit after the loop, and a file that cannot be read or on which the processor raises aborts before it, keeping only the earlier index entries and no table write |
| ReindexLectures.Reindexer.Reindex | New/backend/scripts/reindex_lectures.py:34-95 | the listing is processed in sorted order; the table changes only when every file is read and indexed |

## Left out

- Unicode character classes: Python's `\d`, `\w` and `str.lower` are modelled on ASCII only. Whitespace follows each language's own set.
- JavaScript string length counts UTF-16 code units. The model counts code points, which differ only outside the Basic Multilingual Plane.
- Password hashing, token encoding, mail delivery, text-to-speech, retrieval and the language model are parameters. Their internals are not part of this model.
- Pydantic's `EmailStr` check on the server and the wording of pydantic's own error messages are left out. Invalid bodies carry the field names or the validators' messages.
- Timers, scrolling, video playback, the theme and language settings, and the markup are left out. A scheduled close or redirect is a flag.
- The other wrappers of the auth context (requestPasswordReset, resetPassword, requestCollegeId at lines 190-299) only pass requests on and are left out.
- The audio recorder component and the chat hook's own state are not part of this model. `isLoading` is a field the handlers only read.
- AuthSchemas.ParseUserCreate, AuthRoutes.UserTable.Register: both use the corrected student-ID rule (see Findings). A student ID with one trailing line feed, which the schema as written passes and the route stores, is refused by the model. `ParseUserCreateVsAsWritten` states the difference, and the table invariant `CameThroughSchema` holds only of tables built under the corrected rule.
- AuthRoutes.UserTable.Register and ProfileRoutes.ProfileTable.CreateProfile: the IntegrityError rollback paths are not modelled. In the sequential model the checks before the insert make them unreachable.
- ProfileForm.StudentProfileForm.FetchProfile: only object replies are merged. JSON values of other shapes are not modelled.
- ProfileForm.ParseIntValue: numbers are integers. Floating-point inputs and precision loss are not modelled.
- ProfileRoutes.GetProfile, ProfileRoutes.ProfileTable.CreateProfile, ProfileRoutes.ProfileTable.UpdateProfile, FeedbackRoutes.FeedbackTable.SubmitFeedback, FeedbackRoutes.ForUser: the `response_model` step is not modelled. A route's result is the row itself. The response schemas (NewModel/backend/api/routes/profile.py:30-44, New/backend/api/routes/feedback.py:18-28) declare `created_at` (and, for profiles, `updated_at`) as `str`, while the columns are `DateTime` (New/backend/database/models/student_profile.py:23-24). Whether serialising such a row fails after the commit depends on the pydantic version and is not modelled.
- Rendering an error state that holds a list of error objects (FeedbackForm.FeedbackDialog.HandleSubmit, ProfileForm.StudentProfileForm.HandleSubmit) is not modelled. The model records that the list is stored, not what the page then shows.
- FeedbackRoutes.FeedbackTable.SubmitFeedback: the IntegrityError rollback with the 400 "Could not submit feedback" is not modelled. The model has no database constraint that a row built from a validated body and the current user could break.
- QaPipeline.Confidence: the Python floats are modelled as exact `real` numbers, and rounding is not modelled. The bounds and the monotonicity are proved for exact arithmetic only.
- QaPipeline.Sources: every document is assumed to have a metadata map. A document without one raises, and that path is not modelled.
- ResetPasswordPage.ResetPasswordForm.ReadToken: the query value arrives already decoded. URL decoding is not modelled.
- LoadLectures.LectureLoader.LoadAllLectures: the outer failure path (session or processor construction raising) is left out. Only per-file read and index failures are modelled.
- ReindexLectures.Reindexer.Reindex, ReindexLectures.Reindexer.ReindexInOrder: directory entries that are not regular files are given as unreadable entries. Both write through the corrected upsert, not the script's UPDATE-only write (see Findings).
- ReindexLectures.Reindexer.ReindexInOrder: a processor that raises part-way through one file is modelled as adding no entry for that file. What it may have written before raising is not modelled.
- The front end's stored token is never sent by these modelled handlers. Request headers are left out.

## Findings

| source | as written | input that shows it | evidently intended | confidence | as-written member | corrected member |
|---|---|---|---|---|---|---|
| New/backend/scripts/reindex_lectures.py:64-88 | the fallback INSERT sits in an `except` around an UPDATE, but an UPDATE that matches no row raises nothing | an empty lectures table and one file "Lectures1.txt": the index gets lecture 1, the table stays empty | update the row when it exists, otherwise insert it | not executed | ReindexLectures.AsWrittenNeverInserts | ReindexLectures.RowsStoreEachFile |
| New/backend/api/schemas/auth.py:19-23 | `re.match(r'^\d{8,12}$', v)`: `$` also matches before a final newline | "12345678\n" is accepted as a student ID | exactly 8 to 12 digits (`fullmatch`) | not executed | AuthSchemas.TrailingNewlineAccepted | AuthSchemas.StudentIdError |
