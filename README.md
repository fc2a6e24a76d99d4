# Quiz-Project: the MCQ parser, question validation and the quiz pages

This project models the computational core of a quiz application:

- **The multiple-choice parser of `addMultipleQuestions`.** The text extracted from an uploaded PDF is split on newlines. Every line is trimmed and empty lines are dropped. One pass over the lines then builds `{questionText, options, correctAnswer}` records:
  - `<digits>.` opens a new question;
  - `A)`..`D)` appends an option to the open question;
  - `Answer:` sets its answer index;
  - any other line is ignored.

  A record is emitted only if its prompt is not empty, both when the next question starts and at the end of the input. Each emitted record is tagged with the request's topic, or `"general"` when there is none. The tagged records are saved together or not at all: one that breaks a required rule of the `Quiz` model, such as a question without an answer, makes the upload fail.
- **The question routes.**
  - `POST /add` first checks the body: `language` and `questionText` truthy, `options` an array of at least two elements, `correctAnswer` a number. It then stores the question with its texts normalised.
  - `POST /add-multiple` rejects a missing or empty batch. If any entry fails the same check, it rejects the whole batch and reports the number of failing entries and the first two of them. Otherwise it normalises every entry.
  - `GET /` lists the stored questions, optionally only those of one language; an empty result is a 404.
- **The `Question` schema.**
  - Setters trim and lower-case `language` and trim `questionText`.
  - The four main fields are required.
  - An optional `createdBy` must cast to an `ObjectId`.
  - At least two options are needed.
  - The answer index must lie inside the options.
  - The `toJSON` transform renames `_id` to `id` and drops `__v`.
- **The quiz page.**
  - The topic is normalised.
  - The fetched questions are filtered to that topic.
  - Choosing an option records an answer.
  - Submitting counts the answers that match.
- **The admin panel form.** It validates the question and the four options, appends the new entry, resets the form, and shows the entries of the selected language.

Modules, one per source file, plus three shared ones:

| module | file | models |
|---|---|---|
| `Wrappers` | wrappers.dfy | `Option` (JavaScript `null`) |
| `Text` | text.dfy | `trim()`, the `\s` class, `toLowerCase()`, `split`, `startsWith` |
| `Json` | json.dfy | the values of a parsed request body, truthiness, property reads |
| `QuizController` | quiz_controller.dfy | Backend/controllers/quizController.js |
| `QuestionSchema` | question_schema.dfy | Backend/models/Question.js |
| `QuizRoutes` | quiz_routes.dfy | Backend/routes/quizRoutes.js |
| `ClientQuestion` | client_question.dfy | the question shape both pages handle |
| `QuizPage` | quiz_page.dfy | frontend/src/pages/QuizPage.jsx |
| `AdminPanel` | admin_panel.dfy | frontend/src/components/AdminPanel.jsx |

**The parser.** It is modelled twice:

- **As written.** `QuizController.ParseQuestions` is a method whose `while` loop mirrors the `for` loop. It calls `ParseLine`, which has the same if / else-if chain, then flushes the last record.
- **As a reference meaning.** `QuizController.Records` states the output block by block. The lines before the first question line are dropped. Each question line together with its body (the lines up to the next question line) gives one record: the body's option texts in order, and the body's last answer.

The method is proved to compute `Records`, and the count, order, flush and dropping properties are proved about `Records`.

**The admin panel.** It is a class whose fields are the React state variables; each event handler is a method.

**The JSON transform.** `toJSON` changes its object in place, so it is a method on a class holding the object's map.

**The model follows the code as written, including where one might expect otherwise:**

- Options are appended in the order they appear. They are never keyed or overwritten by letter.
- A line such as `Answer: E` is an answer line (it starts with `Answer:`) and sets the answer to -1. It is not ignored.
- A question without an `Answer:` line keeps `correctAnswer` at `null`. `Quiz` requires an answer, so such a question makes the whole upload fail. An answer of -1 is saved, because `Quiz` has no range rule.
- The prompt is the line with its number, its period and any white space after them removed. The prompt is not trimmed again; the line itself was trimmed already.

## Model

| member | source | states |
|---|---|---|
| `QuizController.Lines` | Backend/controllers/quizController.js:10 | every line of the text is non-empty and trimmed |
| `QuizController.CleanLines` | Backend/controllers/quizController.js:10 | every kept line is non-empty and trimmed, and there are never more lines than pieces |
| `QuizController.CleanLinesMembers` | Backend/controllers/quizController.js:10 | a string is a kept line exactly when it is non-empty and is the trim of some piece |
| `QuizController.CleanLinesAppend` | Backend/controllers/quizController.js:10 | the map / filter keeps order: cleaning two runs of pieces is cleaning each and concatenating |
| `QuizController.CleanLinesIdempotent` | Backend/controllers/quizController.js:10 | cleaning cleaned lines changes nothing |
| `QuizController.LinesOfJoin` | Backend/controllers/quizController.js:10 | the lines of a text made by joining newline-free pieces with `\n` are exactly those pieces, cleaned |
| `QuizController.PromptOf` | Backend/controllers/quizController.js:18 | the prompt is the end of the line after the digits and the period, only white space lies between them, and the prompt does not start with white space |
| `QuizController.OptionText` | Backend/controllers/quizController.js:20 | the option text is trimmed and no longer than the line after its two-character marker |
| `QuizController.IsQuestionStart` | Backend/controllers/quizController.js:16 | `/^\d+\./`: one or more digits, then a period |
| `QuizController.IsOptionLine` | Backend/controllers/quizController.js:19 | `/^[A-D]\)/`: a letter A to D, then a closing parenthesis |
| `QuizController.IsAnswerLine` | Backend/controllers/quizController.js:21 | the line starts with `Answer:` |
| `QuizController.IndexOfLetter` | Backend/controllers/quizController.js:23 | `indexOf` over the four letters gives one of -1, 0, 1, 2, 3 |
| `QuizController.AnswerLetter` | Backend/controllers/quizController.js:22 | the letter, the trimmed second piece of the line split on colons, is trimmed and holds no colon |
| `QuizController.AnswerLetterAfterPrefix` | Backend/controllers/quizController.js:21-22 | a line `Answer:` + x is an answer line, and its letter is the trimmed text of x up to the next colon |
| `QuizController.IndexOfLetterIsPosition` | Backend/controllers/quizController.js:23 | a non-negative index is the first position of the letter in `["A","B","C","D"]`; -1 is returned exactly when the letter is not among them |
| `QuizController.AnswerIndexOfLetter` | Backend/controllers/quizController.js:21-23 | `Answer:`, white space, then one letter gives 0..3 for A..D and -1 for any other character |
| `QuizController.AnswerIndex` | Backend/controllers/quizController.js:22-23 | the answer index is always one of -1, 0, 1, 2, 3 |
| `QuizController.Classify` | Backend/controllers/quizController.js:16-24 | each line gets exactly one kind: the three patterns exclude one another, so a question line is never an option or answer line, and a line matching none is unclassified; each kind carries its prompt, option text or answer index |
| `QuizController.Step` | Backend/controllers/quizController.js:16-24 | one iteration of the loop on the output and the current record; its meaning, branch by branch, is stated by `StepByTests` |
| `QuizController.Run` | Backend/controllers/quizController.js:15-27 | the loop from a given output and current record, then the final flush; `RunIsRecords` relates it to `Records` |
| `QuizController.StepByTests` | Backend/controllers/quizController.js:16-24 | one loop iteration, branch by branch: a question line flushes the current record and opens a fresh one; an option line appends one option; an answer line sets the answer; any other line changes nothing |
| `QuizController.Emit` | Backend/controllers/quizController.js:17 | a record is pushed exactly when its prompt is not empty |
| `QuizController.AbsorbFresh` | Backend/controllers/quizController.js:18-23 | a question opened by a prompt and fed a body without question lines holds that prompt, the body's option texts and its last answer |
| `QuizController.ParseLine` | Backend/controllers/quizController.js:16-24 | the loop body's new output and current record are those of one step |
| `QuizController.ParseQuestions` | Backend/controllers/quizController.js:10-27 | the loop with its final flush outputs exactly the records of the cleaned lines |
| `QuizController.Records` | Backend/controllers/quizController.js:12-27 | the reference meaning of the parser, block by block: preamble dropped, one record per question line with a non-empty prompt; its properties are the `Records*` lemmas, `PreambleDropped`, `LastQuestionFlushed` and `RecordCount` |
| `QuizController.RunIsRecords` | Backend/controllers/quizController.js:15-27 | from any state, the loop outputs what it had, then the current record after it has taken in the lines up to the next question line, then the records of the blocks after that |
| `QuizController.ParseIsRecords` | Backend/controllers/quizController.js:12-27 | the loop started on the blank record computes the records |
| `QuizController.RecordsAppend` | Backend/controllers/quizController.js:15-27 | cutting the lines just before a question line cuts the records there too |
| `QuizController.RecordsBlockCons` | Backend/controllers/quizController.js:16-24 | a question line and its body give one record (when the prompt is not empty) before the records of what follows |
| `QuizController.RecordsOfOneBlock` | Backend/controllers/quizController.js:16-27 | a question line and a body without question lines give that one record, or none for an empty prompt |
| `QuizController.PreambleDropped` | Backend/controllers/quizController.js:13 | option and answer lines before the first question line leave no trace in any record |
| `QuizController.NoStartNoRecords` | Backend/controllers/quizController.js:27 | text without question lines gives no records |
| `QuizController.EmptyPromptDropped` | Backend/controllers/quizController.js:17-18 | a question line with an empty prompt, together with its options and answers, contributes nothing |
| `QuizController.LastQuestionFlushed` | Backend/controllers/quizController.js:27 | the last question, which no question line follows, is emitted after all the others when its prompt is not empty |
| `QuizController.RecordsPrompts` | Backend/controllers/quizController.js:17-18 | the prompts of the records are the non-empty prompts of the question lines, in line order |
| `QuizController.RecordsHavePrompts` | Backend/controllers/quizController.js:17 | every record has a non-empty prompt |
| `QuizController.RecordCount` | Backend/controllers/quizController.js:16-27 | the number of records is the number of question lines whose prompt is not empty |
| `QuizController.OptionTexts` | Backend/controllers/quizController.js:19-20 | a body has at most one option text per line |
| `QuizController.LastAnswer` | Backend/controllers/quizController.js:21-23 | an answer set by a body is one of -1, 0, 1, 2, 3 |
| `QuizController.OptionTextsAppend` | Backend/controllers/quizController.js:19-20 | the option texts of a body are those of its parts, in order, duplicates kept |
| `QuizController.OptionTextsOfOptions` | Backend/controllers/quizController.js:19-20 | a body made only of option lines yields one option text per line, in order |
| `QuizController.LastAnswerIsLast` | Backend/controllers/quizController.js:21-23 | a body without answer lines leaves the answer `null`; otherwise the answer is that of the body's last answer line |
| `QuizController.TopicOrDefault` | Backend/controllers/quizController.js:31 | an absent or empty topic becomes `"general"`; any other topic is kept |
| `QuizController.TagTopic` | Backend/controllers/quizController.js:29-34 | every record is kept, in order, with its fields unchanged and the topic added |
| `QuizController.SaveQuiz` | Backend/controllers/quizController.js:29-40 | the ordered `Quiz.insertMany` saves every entry, and answers with their number, exactly when all of them pass `Quiz`'s required rules; otherwise nothing is saved and the upload is a 500 |
| `QuizController.QuizStorable` | Backend/models/Quiz.js:3-8 | the four required rules of `Quiz`: non-empty topic and question text, an options array, an answer that is not `null`; no rule on the answer's range |
| `QuizController.UploadNeedsEveryAnswer` | Backend/controllers/quizController.js:12-40 | the tagged records of an upload are saved exactly when every record has an `Answer:` line: prompts and topic are never empty |
| `QuizController.BlockRecordAt` | Backend/controllers/quizController.js:15-27 | the record of a block with a prompt follows the records of the lines before it |
| `QuizController.UnansweredQuestionFailsUpload` | Backend/controllers/quizController.js:13-40 | one question with a prompt and no `Answer:` line makes the whole upload fail, so nothing is saved |
| `QuestionSchema.LanguageOk` | Backend/models/Question.js:6-11 | `language` is a string that is not blank once trimmed |
| `QuestionSchema.QuestionTextOk` | Backend/models/Question.js:14-18 | `questionText` is a string that is not blank once trimmed |
| `QuestionSchema.OptionsOk` | Backend/models/Question.js:21-31 | `options` is an array of strings with at least two elements |
| `QuestionSchema.CorrectAnswerOk` | Backend/models/Question.js:34-49 | `correctAnswer` is a number at least 0 and below the number of options |
| `QuestionSchema.CreatedByOk` | Backend/models/Question.js:52-56 | `createdBy` is absent, `null`, or casts to an `ObjectId` |
| `QuestionSchema.FailingPaths` | Backend/models/Question.js:6-56 | a path is reported exactly when its field's rule fails, `createdBy` included |
| `QuestionSchema.Validate` | Backend/models/Question.js:6-56 | a document is accepted exactly when all five rules hold; the stored question then has the setters applied and is well formed; a rejection names exactly the failing paths, and at least one |
| `QuestionSchema.MissingFieldRejected` | Backend/models/Question.js:6-36 | a document missing any of the four required fields is rejected, naming that field |
| `QuestionSchema.BlankTextRejected` | Backend/models/Question.js:14-18 | a question text of white space only is trimmed to the empty string and then counts as missing |
| `QuestionSchema.CreatedByOptional` | Backend/models/Question.js:52-56 | without `createdBy` a document is judged by the four required rules alone; a `createdBy` that casts to an `ObjectId` does not change the outcome |
| `QuestionSchema.MalformedCreatedByRejected` | Backend/models/Question.js:52-56 | a `createdBy` that does not cast to an `ObjectId` rejects the document, naming `createdBy` |
| `QuestionSchema.LanguageSetterOrder` | Backend/models/Question.js:9-10 | trimming and lower-casing the language give the same value in either order |
| `QuestionSchema.StoredRevalidates` | Backend/models/Question.js:6-49 | a stored question validates to itself: the setters are idempotent on what they stored |
| `QuestionSchema.ToJsonView` | Backend/models/Question.js:65-72 | the keys are the old keys without `_id` and `__v` and with `id`; `id` holds the old `_id`; every other field is unchanged |
| `QuestionSchema.JsonDocument.ApplyToJsonTransform` | Backend/models/Question.js:67-69 | the in-place assignment and deletions leave the transformed view of the old object |
| `QuizRoutes.Acceptable` | Backend/routes/quizRoutes.js:50-56 | the check of both POST routes: `language` and `questionText` truthy, `options` an array of at least two elements, `correctAnswer` a number; `AcceptableIsObject` and `NoInvalids` state what it implies |
| `QuizRoutes.AcceptableIsObject` | Backend/routes/quizRoutes.js:50-56 | only an object holding all four fields passes the check |
| `QuizRoutes.Normalisable` | Backend/routes/quizRoutes.js:64-66 | `.trim()` is called only on strings: an object whose language and question text are strings, anything else throws |
| `QuizRoutes.NewDocument` | Backend/routes/quizRoutes.js:64-69 | the document handed to `Question.create` holds exactly the four required fields, so every other field of the body is dropped |
| `QuizRoutes.AddQuestion` | Backend/routes/quizRoutes.js:50-69 | a 400 is returned exactly when the check fails; a created question passed the check and the schema, and is well formed; a body that passes both is always created |
| `QuizRoutes.AddStoresNormalised` | Backend/routes/quizRoutes.js:64-69 | the stored question has the trimmed, lower-cased language, the trimmed text, and the options and answer as sent |
| `QuizRoutes.Invalids` | Backend/routes/quizRoutes.js:101-108 | every reported entry fails the check, and there are never more than the entries |
| `QuizRoutes.InvalidsAppend` | Backend/routes/quizRoutes.js:101-108 | the filter of a concatenation is the filters of its parts, concatenated: order and repeats are kept |
| `QuizRoutes.InvalidsMembers` | Backend/routes/quizRoutes.js:101-108 | a value is reported exactly when it is an entry that fails the check |
| `QuizRoutes.InvalidCount` | Backend/routes/quizRoutes.js:114 | `invalidCount` equals the number of positions whose entry fails the check |
| `QuizRoutes.NoInvalids` | Backend/routes/quizRoutes.js:101-110 | nothing is reported exactly when every entry passes the check |
| `QuizRoutes.WithTexts` | Backend/routes/quizRoutes.js:119-123 | the spread keeps every field and overrides only `language` and `questionText` |
| `QuizRoutes.Formatted` | Backend/routes/quizRoutes.js:119-123 | formatting an entry keeps exactly its keys |
| `QuizRoutes.FormattedChangesOnlyTexts` | Backend/routes/quizRoutes.js:119-123 | a formatted entry has the same keys, the language trimmed and lower-cased, the text trimmed, and every other field unchanged |
| `QuizRoutes.FormatAll` | Backend/routes/quizRoutes.js:119-123 | formatting keeps the number and the order of the entries |
| `QuizRoutes.StoredAll` | Backend/routes/quizRoutes.js:125 | one stored question per document, in order, each the schema's result for its document |
| `QuizRoutes.InsertBatch` | Backend/routes/quizRoutes.js:101-125 | the batch is rejected with the count and the first min(2, count) failing entries exactly when some entry fails; an inserted batch is every entry, formatted and stored, in order; a batch whose entries all pass the check, can be formatted and all pass the schema is always inserted |
| `QuizRoutes.AddMultiple` | Backend/routes/quizRoutes.js:92-99 | a missing, non-array or empty `questions` is rejected; anything else is handled as a batch |
| `QuizRoutes.InsertedBatch` | Backend/routes/quizRoutes.js:119-125 | an inserted batch has one question per entry, each entry passed the check, and each question is the schema's result for its formatted entry |
| `QuizRoutes.OneInvalidRejectsBatch` | Backend/routes/quizRoutes.js:110-117 | a single failing entry rejects the whole batch, and the count is the number of failing positions |
| `QuizRoutes.FirstInvalid` | Backend/routes/quizRoutes.js:101-108 | the first failing entry is at the least position that fails: every entry before it passes |
| `QuizRoutes.FirstInvalidReported` | Backend/routes/quizRoutes.js:101-115 | the first reported example is the entry at the least failing position of the batch |
| `QuizRoutes.MalformedCreatedByFailsBatch` | Backend/routes/quizRoutes.js:101-125 | an entry that passes the check but whose `createdBy` is not an `ObjectId` is kept by the spread and makes the insert fail, so the batch is a server error |
| `QuizRoutes.BlankTextPassesCheck` | Backend/routes/quizRoutes.js:101-123 | a question text of white space only passes the truthiness check, is formatted to the empty string, and the schema then rejects it |
| `QuizRoutes.BlankTextAddFails` | Backend/routes/quizRoutes.js:50-69 | on `POST /add` the same text passes the check and then fails in `create`, which gives a 500 |
| `QuizRoutes.WithLanguage` | Backend/routes/quizRoutes.js:15-18 | a lookup by language returns stored questions whose language matches ignoring case, never more than are stored |
| `QuizRoutes.WithLanguageMembers` | Backend/routes/quizRoutes.js:15-18 | a stored question is returned exactly when its language matches ignoring case |
| `QuizRoutes.Selected` | Backend/routes/quizRoutes.js:12-18 | without a truthy language every stored question is selected; with one, only stored questions whose language matches its trimmed value ignoring case, never more than are stored |
| `QuizRoutes.ListQuestions` | Backend/routes/quizRoutes.js:10-31 | an empty selection gives a 404 with its message; otherwise `count` is the number of questions returned, which are the selection |
| `QuizRoutes.ListAllWithoutLanguage` | Backend/routes/quizRoutes.js:15-18 | without a language every stored question is returned |
| `QuizRoutes.NothingHasEmptyLanguage` | Backend/routes/quizRoutes.js:16 | no stored question matches the empty language |
| `QuizRoutes.BlankLanguageFindsNothing` | Backend/routes/quizRoutes.js:15-25 | a language of white space only is truthy, trims to the empty pattern and gives a 404 |
| `QuizPage.OnTopic` | frontend/src/pages/QuizPage.jsx:45 | a question is on the topic when its trimmed, lower-cased language equals it |
| `QuizPage.FilterByTopic` | frontend/src/pages/QuizPage.jsx:44-46 | every kept question is on the topic, and there are never more than were fetched |
| `QuizPage.FilterByTopicMembers` | frontend/src/pages/QuizPage.jsx:44-46 | a question is kept exactly when it was fetched and is on the topic |
| `QuizPage.FilterByTopicAppend` | frontend/src/pages/QuizPage.jsx:44-46 | the filter keeps the fetched order |
| `QuizPage.FilterByTopicKeepsAll` | frontend/src/pages/QuizPage.jsx:44-46 | questions that are all on the topic are all kept |
| `QuizPage.SelectAnswer` | frontend/src/pages/QuizPage.jsx:143 | choosing option `idx` for question `i` sets answer `i` to `idx` and leaves every other answer as it was |
| `QuizPage.Hit` | frontend/src/pages/QuizPage.jsx:76 | position `i` scores when it has an answer equal to the question's correct answer |
| `QuizPage.Score` | frontend/src/pages/QuizPage.jsx:73-77 | the score is at most the number of questions |
| `QuizPage.ScoreCountsHits` | frontend/src/pages/QuizPage.jsx:75-77 | the score is the number of positions whose answer equals the question's correct answer |
| `QuizPage.NoAnswersNoScore` | frontend/src/pages/QuizPage.jsx:76 | unanswered questions never score |
| `QuizPage.AllCorrectFullScore` | frontend/src/pages/QuizPage.jsx:75-77 | answering every question correctly scores the number of questions |
| `QuizPage.ScoreAfterSelect` | frontend/src/pages/QuizPage.jsx:143 | a choice for question `i` changes the score only by what position `i` loses or gains |
| `QuizPage.ScoreIgnoresLaterAnswers` | frontend/src/pages/QuizPage.jsx:75-76 | answers at positions past the questions do not count |
| `QuizPage.SubmitQuiz` | frontend/src/pages/QuizPage.jsx:70-82 | with no questions nothing happens; otherwise the loop's count is the score, the total is the number of questions, and the score is at most the total |
| `AdminPanel.CheckForm` | frontend/src/components/AdminPanel.jsx:40-42 | a blank question is refused first; otherwise a blank option is refused; the form is accepted exactly when neither is blank |
| `AdminPanel.TrimAll` | frontend/src/components/AdminPanel.jsx:47 | every option is trimmed, and their number and order are kept |
| `AdminPanel.NewQuestion` | frontend/src/components/AdminPanel.jsx:44-49 | the new entry has the selected language, the trimmed question, the trimmed options (same number) and the chosen index |
| `AdminPanel.NewQuestionWellFormed` | frontend/src/components/AdminPanel.jsx:40-49 | an entry built from a form that passed both checks has a non-empty trimmed question, four non-empty trimmed options and an index below four |
| `AdminPanel.SameLanguage` | frontend/src/components/AdminPanel.jsx:34-36 | every shown entry has the selected language, and there are never more than the list holds |
| `AdminPanel.SameLanguageMembers` | frontend/src/components/AdminPanel.jsx:34-36 | an entry is shown exactly when it is in the list with the selected language |
| `AdminPanel.SameLanguageConcat` | frontend/src/components/AdminPanel.jsx:34-36 | the view of a concatenation is the views of its parts, concatenated: order and repeats are kept |
| `AdminPanel.SameLanguageAppend` | frontend/src/components/AdminPanel.jsx:34-36 | appending an entry of the selected language extends the view by exactly that entry |
| `AdminPanel.Panel.constructor` | frontend/src/components/AdminPanel.jsx:7-13 | the form starts on HTML with an empty question, four empty options, the first option correct and no entries |
| `AdminPanel.Panel.FilteredQuestions` | frontend/src/components/AdminPanel.jsx:34-36 | the view holds only entries of the selected language |
| `AdminPanel.Panel.SelectLanguage` | frontend/src/components/AdminPanel.jsx:91 | only the language changes |
| `AdminPanel.Panel.SetQuestion` | frontend/src/components/AdminPanel.jsx:106 | only the question changes |
| `AdminPanel.Panel.EditOption` | frontend/src/components/AdminPanel.jsx:119-123 | only slot `i` of the options changes, and the number of options stays the same |
| `AdminPanel.Panel.SetCorrect` | frontend/src/components/AdminPanel.jsx:134 | only the correct index changes |
| `AdminPanel.Panel.HandleAddToList` | frontend/src/components/AdminPanel.jsx:39-55 | a refused form changes nothing; an accepted one appends exactly the new entry at the end, resets the question, the options and the index, keeps the language, and extends the view by that entry; every entry stays well formed |
| `Text.Trim` | Backend/controllers/quizController.js:10 | the result of `trim()` is trimmed and no longer than its input; `TrimSplits` states what is removed |
| `Text.TrimSplits` | Backend/controllers/quizController.js:10 | `trim()` removes white space in front and behind, and the string is that white space, the result, and that white space |
| `Text.TrimPadded` | Backend/controllers/quizController.js:10 | white space around a trimmed string is exactly what `trim()` removes |
| `Text.TrimIdempotent` | Backend/controllers/quizController.js:10 | trimming twice is trimming once |
| `Text.BlankIsAllSpace` | frontend/src/components/AdminPanel.jsx:40 | `!s.trim()` holds exactly when the string is all white space |
| `Text.ToLower` | frontend/src/pages/QuizPage.jsx:34 | lower-casing keeps the length, maps every character, and leaves no upper-case letter |
| `Text.LowerTrimCommute` | Backend/routes/quizRoutes.js:65 | lower-casing and trimming commute |
| `Text.ToLowerIdempotent` | Backend/routes/quizRoutes.js:65 | lower-casing twice is lower-casing once |
| `Text.TrimLower` | frontend/src/pages/QuizPage.jsx:34 | `s.trim().toLowerCase()` is trimmed, lower-case and as long as the trimmed string |
| `Text.TrimLowerIdempotent` | Backend/routes/quizRoutes.js:65 | normalising twice is normalising once, so the schema's setters change a language the route already normalised no further |
| `Text.TrimLowerIgnoresCase` | frontend/src/pages/QuizPage.jsx:34 | strings that differ only in letter case normalise alike |
| `Text.Split` | Backend/controllers/quizController.js:10 | no piece holds the separator, and there are at least two pieces exactly when the separator occurs |
| `Text.JoinSplit` | Backend/controllers/quizController.js:10 | joining the pieces of a split gives back the string |
| `Text.SplitJoin` | Backend/controllers/quizController.js:10 | splitting a join of separator-free pieces gives back the pieces |
| `Text.SplitAfterPrefix` | Backend/controllers/quizController.js:22 | the pieces of `p` + separator + `x`, for `p` without the separator, are `p` followed by the pieces of `x` |

## Left out

- PDF extraction (`pdfParse`), the file read and delete (`fs`), and `Quiz.insertMany`, `Question.create`, `Question.insertMany` and `Question.find(...).lean()` are foreign libraries and I/O. Of `Quiz.insertMany` the model keeps only whether validation lets the whole upload through. The parser works on a given text, and the store is a given sequence of stored questions. The "no PDF uploaded" check and the file-system failures of `addMultipleQuestions` are I/O handling.
- `getQuestionsByTopic` (quizController.js:44-57) is a database query with a guard, and is not part of this model.
- HTTP status codes, response bodies other than the fields named above, `console.error`, `alert` and all async control flow are not modelled. Each outcome is a constructor of a result datatype.
- The `GET /` language filter builds a regular expression from unescaped user input. It is modelled as case-insensitive equality, which is what it does for input without regex metacharacters. The store's result order is taken to be the store's order.
- Mongoose casting of the four main fields is not modelled: a numeric string is not cast to a number, and non-string options are not cast to strings. A value of the wrong type is rejected instead. `createdBy` is cast: absent and `null` pass, and a string of 24 hexadecimal digits or an object whose `_id` is one casts to an `ObjectId`. The `min: 0` rule on `correctAnswer` is folded into the range validator, which implies it. Timestamps and `_id` generation are left out.
- `QuestionSchema.CreatedByOk`: it does not model the rarer forms an `ObjectId` cast accepts, which depend on the BSON library's version (a 12-character string, an array or other object whose `toString()` gives 24 hexadecimal digits). These are rejected here.
- Fields other than the five, which the spread of `POST /add-multiple` keeps (an `_id`, timestamps), are not cast or checked; the schema's strict mode drops unknown ones.
- `QuizRoutes.InsertBatch`: a validation error in `insertMany` is treated as rejecting the whole batch, as an ordered insert of all-validated documents does. A partial insert is not modelled.
- `toLowerCase()` is modelled on ASCII letters only. Strings are sequences of Unicode scalar values rather than UTF-16 code units, so `substring(2)` and lengths differ from JavaScript only on characters outside the Basic Multilingual Plane.
- JavaScript numbers are modelled as reals, and the rounding of JSON numbers to doubles is not modelled. For example, `JSON.parse` turns `1e-400` into the falsy `0`, while here it stays a non-zero, truthy real. On the client, `correctAnswer` and the answers are integers, so a fractional `correctAnswer` is not modelled.
- Object key order (what `{ ...q, language, questionText }` and `toJSON` produce) is not modelled; objects are maps.
- The quiz page's fetch (QuizPage.jsx:37-55), its messages and loading state, and the stored user are left out. That request sends `?topic=` while `GET /` reads `language`, so the server returns every question; the page's own filter, which is modelled, is all that selects.
- `handleSubmitAll` (AdminPanel.jsx:58-77) is a network call followed by a reset.
- The admin panel's `Number(correct)` is the identity here, because the selector only ever sets option positions.
- The result page, login, registration, routing, the navigation bar, the authentication routes and the server wiring hold no logic beyond I/O and rendering. The `Quiz` model's required rules are modelled by `QuizController.QuizStorable`. Its casting is not: every field the parser produces already has its type.
- When an upload fails, the uploaded file is not deleted, because the delete comes after `insertMany`. The file system is not modelled.
