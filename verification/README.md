# QuizApp quiz engine in Dafny

This project models the logic of a Django quiz application.

- **Content store.** Books have chapters, and chapters have multiple-choice questions. Each question carries an `easy`, `medium` or `hard` difficulty.
- **Starting a quiz.** A user starts a quiz on one chapter or on a whole book. They pick a difficulty filter, a question count and a duration. The quiz draws that many distinct eligible questions.
- **Taking a quiz.** The user walks the drawn questions with a cursor. The actions are:
  - submit an answer and move on (`next`);
  - `mark_for_review`;
  - `clear_answer`;
  - `jump_to` another position.
- **Sealing.** The results page seals the quiz exactly once, with a penalised score: +1 per correct answer, −0.25 per wrong one, clamped at 0 %.
- **Question upload.** An upload form cleans a JSON list of questions in two accepted formats.
- **Duration filter.** A template filter formats how long a quiz took.

The modules follow the application's files:

| module | file | flavour of the model |
|---|---|---|
| `Content` | `quiz/views.py`, `quiz/forms.py` (`get_questions_for_source`) | functions and lemmas over an in-memory store |
| `Models` | `quiz/models.py` | functions and lemmas |
| `Views` | `quiz/views.py` | see below |
| `Forms` | `quiz/forms.py` | see below |
| `QuizExtras` | `quiz/templatetags/quiz_extras.py` | functions and lemmas |
| `Text`, `Util` | Python's `str` and `dict` behaviour | functions and lemmas |

`Views` is a class with methods and loops:

- The class `Quiz` holds the quiz record's fields and the session's question sequence and cursor.
- The status and answer records are maps keyed by question id, so there is at most one record per (quiz, question).
- `Quiz.TakeQuiz`, `Quiz.Results` and `StartQuiz` change them in place.
- The pure function `Step` specifies every take-quiz transition. Each take-quiz handler is proved equal to it.

`Forms` is split the same way:

- The upload cleaner is a `method` with a loop that rewrites the list in place. It is proved equal to the function `CleanUpload`.
- The selection form is pure branching.

## Model

| member | source | states |
|---|---|---|
| Util.Get | quiz/templatetags/quiz_extras.py:5-8 | `get_item`: a value exactly when the key is present, and then the mapped value |
| Text.Strip | quiz/views.py:302 | `strip()` never lengthens the text |
| Text.StripSpec | quiz/views.py:302 | `strip()` returns a slice of the input with whitespace-only cut-offs and non-space ends; the result is empty exactly when the input is all whitespace |
| Text.Lower | quiz/views.py:347 | `lower()` keeps the length of the text |
| Text.LowerPointwise | quiz/views.py:347 | `lower()` folds each character independently |
| Text.LowerCharEqual | quiz/views.py:347 | two characters compare equal after folding exactly when they are equal or the same ASCII letter in two cases |
| Text.LowerIdempotent | quiz/views.py:347 | folding twice is folding once |
| Text.ContainsAt | quiz/views.py:410 | `needle in haystack` holds exactly when the needle occurs at some position |
| Content.QuestionsForSource | quiz/forms.py:6-19 | the eligible questions are questions of the store, and a source that is neither chapter nor book gives none |
| Content.AllKeepsWholeScope | quiz/views.py:16-29 | with `all`, a question is eligible exactly when it is in scope |
| Content.TierRestrictsScope | quiz/views.py:26-27 | with one tier, the eligible set is exactly the in-scope questions of that tier |
| Content.TiersPartitionScope | quiz/views.py:16-29 | the three tiers split the scope into disjoint sets whose sizes add up to the scope's size |
| Content.BookIsUnionOfChapters | quiz/views.py:20-22 | a book's eligible questions are the union of its chapters' eligible questions |
| Models.MarkedStatuses | quiz/views.py:410 | exactly `marked_for_review` and `answered_and_marked` contain "marked" |
| Models.AnswersSplit | quiz/models.py:66-68 | the correct and wrong answer records add up to all answer records |
| Models.Percentage | quiz/models.py:82 | never negative; 0 with no questions or a non-positive raw score; otherwise `raw/total*100` exactly |
| Models.GetScoreBreakdown | quiz/models.py:63-83 | correct counts the answers marked correct and wrong the others, so correct + wrong = attempted = number of answers; the percentage is `Percentage(raw, total)`, i.e. `max(0, raw/total*100)` or 0 for an empty quiz; unattempted = total − attempted; `4*raw = 4*correct − wrong`; raw ≤ correct; percentage in [0, 100] whenever correct ≤ total |
| Models.ScoreExamples | quiz/models.py:63-83 | the breakdown of 6 correct and 2 wrong answers in a quiz of 10 has raw score 5.5, 2 unattempted and 55 %; 4 wrong answers of 4 give raw −1 and 0 % rather than −25 % |
| Models.GetQuizSource | quiz/models.py:85-91 | the book wins over the chapter; `None` exactly when neither is set |
| Models.GetQuizType | quiz/models.py:93-99 | "book" exactly when a book is set, "chapter" exactly when only a chapter is, "unknown" exactly when neither is |
| Models.TypeNamesSource | quiz/models.py:93-99 | "book", "chapter" and "unknown" name exactly the kind of source `get_quiz_source` returns |
| Models.ConstrainedQuizSource | quiz/models.py:109-115 | under the chapter-xor-book constraint the source is the one field set and the type is never "unknown" |
| Views.AfterSubmit | quiz/views.py:363-374 | after `next` the status is answered; it keeps a review mark exactly when it was `marked_for_review` |
| Views.AfterMark | quiz/views.py:304-316 | after `mark_for_review` the status is a review status; it is answered exactly when it was `attempted` |
| Views.AfterClear | quiz/views.py:328-343 | after `clear_answer` the status is never answered; it keeps a review mark exactly when it had one; an unanswered status is left as it is |
| Views.Step | quiz/views.py:299-393 | one handled request on the question at the cursor: the sequence never changes, the cursor stays within it, going to the results leaves it at the end, and a re-rendered page never moves it |
| Views.StepKeepsWellFormed | quiz/views.py:299-393 | a take-quiz step never changes the question sequence, keeps the cursor within it and keeps records on sequence questions only |
| Views.StepIsLocal | quiz/views.py:299-393 | a step changes no record of any question other than the one at the cursor |
| Views.StepCursor | quiz/views.py:376-390 | the cursor moves only on `next` with a non-blank answer (by one) or on an in-range `jump_to` (to the target) |
| Views.SubmitSpec | quiz/views.py:345-393 | `next` with a blank stripped answer changes nothing and asks for an answer; otherwise it stores the stripped answer, graded case-insensitively, sets an answered status, advances and goes to the results exactly after the last question |
| Views.MarkSpec | quiz/views.py:304-317 | `mark_for_review` only rewrites the status of the question at the cursor; answers and cursor are kept |
| Views.ClearSpec | quiz/views.py:319-343 | `clear_answer` removes exactly the answer of the question at the cursor, reports whether there was one, rewrites its status and keeps the cursor |
| Views.JumpSpec | quiz/views.py:385-390 | `jump_to` moves the cursor to an in-range target and changes nothing otherwise |
| Views.RenderChangesNothing | quiz/views.py:300-393 | a GET, or a POST whose action is none of the four, leaves the session unchanged and re-renders the page without a notice |
| Views.StepKeepsAgreement | quiz/views.py:299-393 | answer records and answered statuses stay in agreement under every step except a re-mark of `answered_and_marked` |
| Views.RemarkHidesAnswer | quiz/views.py:311-315 | re-marking an `answered_and_marked` question keeps its answer but gives it the unanswered status `marked_for_review` |
| Views.CollectRecords | quiz/views.py:395-405 | the loop collects exactly the status records and the answered questions of the sequence |
| Views.MarkedCount | quiz/views.py:410 | the count of records whose value contains "marked" is exactly the number of records carrying a review mark (`marked_for_review` or `answered_and_marked`), and at most the number of records |
| Views.ViewOf | quiz/views.py:407-434 | the page's question number is cursor + 1 of the sequence length; attempted + unattempted = sequence length; the marked count is the number of shown records carrying a review mark; the current answer is the cursor question's record |
| Views.ViewOfWellFormed | quiz/views.py:407-413 | the page shows every status record; attempted = number of answers; unattempted = sequence length − attempted ≥ 0; marked = number of review-marked records ≤ records ≤ sequence length; progress in (0, 100] |
| Views.ProgressAtMostHundred | quiz/views.py:413 | `(cursor+1)/len*100` lies in (0, 100] for a cursor inside the sequence |
| Views.SampleExists | quiz/views.py:163-164 | a pool of at least `n` questions admits a sample of `n` distinct pool members |
| Views.CheckAvailable | quiz/views.py:134-152 | the start check refuses exactly when fewer questions are eligible than requested, reporting the eligible count, and otherwise yields the eligible pool |
| Views.StartQuiz | quiz/views.py:118-170 | a chapter or book missing from the store is not found; too few eligible questions create nothing and report the count; otherwise a fresh, valid quiz on the chosen source holds the sample: `num_questions` distinct eligible ids with the cursor at 0 and no records |
| Views.Quiz.constructor | quiz/views.py:155-168 | the new quiz has exactly one of chapter and book, the drawn sequence, cursor 0, no records and is open |
| Views.Quiz.Snapshot | quiz/views.py:395-436 | the page figures equal the specification `ViewOf` of the current state |
| Views.Quiz.TakeQuiz | quiz/views.py:285-436 | another user's or a completed quiz is refused unchanged; an exhausted session goes to the results unchanged; otherwise the new state and reply are those of `Step` on the question at the cursor, and the quiz stays valid |
| Views.Quiz.Handle | quiz/views.py:299-393 | the request is handled exactly as `Step` says |
| Views.Quiz.MarkCurrent | quiz/views.py:304-317 | the in-place update equals `Step` for `mark_for_review` |
| Views.Quiz.ClearCurrent | quiz/views.py:319-343 | the in-place update equals `Step` for `clear_answer` |
| Views.Quiz.SubmitCurrent | quiz/views.py:345-383 | the in-place update equals `Step` for `next` |
| Views.Quiz.JumpCursor | quiz/views.py:385-390 | the in-place update equals `Step` for `jump_to` |
| Views.Quiz.Results | quiz/views.py:439-484 | another user's quiz is refused; an open quiz is sealed once with its percentage, correct count and end time and loses its session; a sealed quiz is left unchanged; the breakdown is returned and the quiz stays valid |
| Views.SealedScoreInRange | quiz/views.py:444-468 | a sealed quiz's stored score lies in [0, 100] |
| Forms.DifficultyName | quiz/forms.py:93-95 | 1-2 map to easy, 4-5 to hard, every other integer to medium |
| Forms.MappedDifficulty | quiz/forms.py:108-110 | an integer difficulty becomes `easy` exactly for 1-2, `hard` exactly for 4-5, and `medium` for 3 and every other integer (booleans count as 0 and 1) |
| Forms.MissingRequired | quiz/forms.py:97-101 | no field is reported missing exactly when all three required fields are present; a reported field is absent, and every field before it in the order `question_text`, `correct_answer`, `options` is present |
| Forms.Normalize | quiz/forms.py:84-95 | the conversion only adds `question_text` and `correct_answer`, keeps every other field, and rewrites the difficulty to its tier name only in an alternate-format question whose difficulty is an integer |
| Forms.CheckShape | quiz/forms.py:80-105 | a question passes the shape checks exactly when it is an object whose converted fields have the three required fields and dictionary options, and then yields those fields; a non-object is refused as such, then the first missing field, then non-dictionary options, each naming its position |
| Forms.WithTier | quiz/forms.py:107-110 | the second difficulty check maps an integer difficulty to its tier and changes nothing else |
| Forms.CleanQuestionAsWritten | quiz/forms.py:80-112 | as written, an accepted question is storable and a refusal names its position or is the undefined name `valid_difficulties` |
| Forms.CleanQuestion | quiz/forms.py:80-112 | as intended, an accepted question is storable and every refusal names its 1-based position |
| Forms.NormalizeRenames | quiz/forms.py:85-90 | with `question` and `answer`, an absent `question_text`/`correct_answer` is copied from them and a present one is kept |
| Forms.NormalizeOnlyAlternate | quiz/forms.py:84-95 | without both alternate keys the dictionary is not converted at all |
| Forms.CleanQuestionSpec | quiz/forms.py:80-112 | a question is accepted exactly when it is an object whose converted fields have the required fields, dictionary options and no difficulty, an integer one or a tier name; the result is the converted fields with an integer difficulty mapped; untouched fields keep their values |
| Forms.AsWrittenDiffers | quiz/forms.py:107-112 | the cleaner as written fails on the undefined name exactly when a shape-valid question has a non-integer difficulty, and agrees with the intended cleaner otherwise |
| Forms.AlternateIntDifficultyFails | quiz/forms.py:92-112 | every shape-valid alternate-format question with an integer difficulty fails as written but is accepted as intended, with the mapped tier |
| Forms.PlaceholderExampleFails | quiz/forms.py:55-67 | the example shown in the upload box is refused as written and accepted as intended |
| Forms.CleanUpload | quiz/forms.py:72-116 | a value that is not a list is refused as such; an accepted list keeps its length |
| Forms.AsWrittenUploadAgrees | quiz/forms.py:72-116 | whenever the list cleaner as written does not end on the undefined name, the intended one gives the same result |
| Forms.CollectAccepts | quiz/forms.py:80-114 | the list is accepted exactly when every question is, and then holds the cleaned questions in order |
| Forms.CollectRefuses | quiz/forms.py:80-112 | a refusal is the verdict of the first refused question |
| Forms.UploadAccepted | quiz/forms.py:72-114 | an accepted upload has one storable question per list element, and each is that element's converted fields with an integer difficulty turned into its tier name |
| Forms.UploadRefused | quiz/forms.py:76-112 | a refusal is "not a list" exactly for a non-list; otherwise it names the first refused question's 1-based position and all earlier questions pass |
| Forms.CleanQuestionsJson | quiz/forms.py:72-116 | the in-place loop returns exactly `CleanUpload` of the parsed value |
| Forms.CleanedCount | quiz/forms.py:143-149 | a count is kept exactly when it lies in [1, 50] |
| Forms.CleanedChapter | quiz/forms.py:131-136 | the chapter field yields a chapter exactly when the submitted key is that of an existing chapter, and then that chapter |
| Forms.CleanedBook | quiz/forms.py:137-142 | the book field yields a book exactly when the submitted key is that of an existing book, and then that book |
| Forms.ChoiceErrors | quiz/forms.py:125-142 | the quiz type is refused exactly when it is no choice; the chapter or book field is refused exactly when it is neither blank nor the key of an existing row |
| Forms.ValueErrors | quiz/forms.py:143-168 | the count is refused exactly outside [1, 50], the difficulty exactly when it is no choice, the duration exactly when it is not one of the six choices |
| Forms.SelectedSource | quiz/forms.py:178-193 | a source is selected exactly when the quiz type's own field cleaned to a row; it is that chapter or that book, and it exists |
| Forms.FormError | quiz/forms.py:170-209 | at most one error: a chapter quiz whose chapter field yielded no chapter, a book quiz whose book field yielded no book, or else a count above a positive number of eligible questions, reporting that number |
| Forms.SelectionErrors | quiz/forms.py:125-209 | each of the six field errors, including an unknown chapter or book key, is reported exactly when its field holds no valid choice |
| Forms.SelectionValid | quiz/forms.py:125-209 | the form is valid exactly when every field holds a choice (chapter and book blank or an existing key), the type's field names a row and the count is at most the eligible number unless none is eligible |
| Forms.MissingScopeFirst | quiz/forms.py:178-181 | an empty or refused chapter or book is the only error of `clean()`, whatever the count |
| Forms.UnknownChapterReportedTwice | quiz/forms.py:178-179 | a chapter quiz with an unknown chapter key gets both the chapter field's error and the missing-chapter error |
| Forms.FormAndStartCheck | quiz/forms.py:195-207 | when the view's chapter or book is the one the form selected, that source exists, and after a valid form the count is in [1, 50] and the view's count check passes exactly when the count is within the eligible pool; an empty pool is refused with 0 |
| QuizExtras.DurationDisplay | quiz/templatetags/quiz_extras.py:10-36 | "-" exactly when a time is missing or the span is negative |
| QuizExtras.DisplayRoundTrip | quiz/templatetags/quiz_extras.py:13-36 | reading the display back with the parser of the three shapes gives the span in seconds, and "-" reads as no span |
| QuizExtras.FormatRoundTrip | quiz/templatetags/quiz_extras.py:26-36 | each of "{s}s", "{m}m" and "{m}m {s}s" reads back as the total number of seconds |
| QuizExtras.MinutesAndSeconds | quiz/templatetags/quiz_extras.py:27-36 | the display shows minutes and seconds with `0 <= seconds < 60` and `60*minutes + seconds = total`; minutes are 0 exactly below one minute; any such split of the total is the one shown |
| QuizExtras.DisplayOnlyShape | quiz/templatetags/quiz_extras.py:26-36 | only the display of a span reads back as that span: "{s}s" with s < 60, "{m}m" with m ≥ 1, or "{m}m {s}s" with m ≥ 1 and 1 ≤ s < 60, without leading zeros |

### Quirks of the source the model keeps

- **`mark_for_review` and `clear_answer`** act on the question at the cursor; the post names no question.
- **`answered_and_marked` with `mark_for_review`** becomes `marked_for_review`, so the question keeps its stored answer under an unanswered status (`Views.RemarkHidesAnswer`). With `next` it becomes `attempted`, losing the review mark.
- **`marked_for_review` and `unattempted` with `clear_answer`** stay as they are. A missing status record is created as `unattempted`.
- **An unknown chapter key** on a chapter quiz is reported twice: as an invalid choice and as a missing chapter (`Forms.UnknownChapterReportedTwice`). On a book quiz it still makes the form invalid.
- **Unknown actions** are ignored: the page is rendered again with no change (`Views.RenderChangesNothing`).
- **The selection form** accepts any count in [1, 50] when no question is eligible. The start views' own count check refuses it then (`Forms.FormAndStartCheck`).
- **Integrity:** the views have no error path for more answers than questions, or for a quiz with both or neither of chapter and book; the database's `quiz_either_chapter_or_book` check constraint refuses the latter at insert. The quiz class invariant `Valid` excludes both, and every method keeps it.

## Left out

- **Glue.** Rendering, flash messages and their texts, redirects, authentication and the login/logout views are not modelled. Replies are the datatypes `Reply`, `Notice` and `TakeOutcome`.
- **Store reads.** ORM querysets and `get_object_or_404` are not modelled. The store is a value of type `Store`. A missing chapter or book gives `SourceNotFound` in `StartQuiz`. Another user's or a completed quiz, or a missing question, gives `NotFound` in `Quiz.TakeQuiz`.
- **Other files.** The admin configuration, URL routing and the home, book-list and history pages are not part of this model.
- **Question creation.** `upload_questions` turns cleaned questions into database rows. That step is not part of this model.
- **`QuestionUploadForm`'s chapter field.** Choosing the chapter is not part of this model.
- **Difficulty counts.** The start views show per-difficulty counts of the scope. These are display data and are not modelled.
- **Views.StartQuiz:** the randomness of `random.sample` is not modelled. The draw is a parameter, and the precondition states what the sample guarantees: `num_questions` distinct eligible ids. `Views.SampleExists` shows such a draw exists.
- **Forms.CleanQuestionsJson:** `json.loads` and its decode error are not modelled. The model starts from a parsed `Json` value.
- **Forms.FormAndStartCheck:** it assumes the start view's chapter or book is the form's selected source. `start_quiz` restricts only the form's chapter field (quiz/views.py:122-126), so a post there with quiz type `book` has the form count a book's questions while the view counts the URL chapter's. The model does not relate the two pools in that case.
- **Forms.Selection:** Django's per-field conversion is not modelled for the quiz type, count, difficulty and duration: a missing or invalid value arrives as `None`. The chapter and book fields keep what was submitted (`IdInput`), and the model cleans them against the store.
- **Views.Quiz.TakeQuiz:**
  - `int()` of `question_index` is not modelled; a non-numeric index raises in the source. `JumpTo` carries an integer.
  - The default action `'next'` for a post without an action is left to the caller.
- **Views.Quiz.TakeQuiz, Views.Quiz.Results:**
  - The per-browser session store is modelled as fields of the quiz.
  - Losing the session before sealing is not modelled.
  - Atomicity and concurrent requests are not modelled.
- **Views.Quiz.Results:** `timezone.now()` is the parameter `now`.
- **QuizExtras.DurationDisplay:** it works on whole seconds. Datetime subtraction and the truncation of `total_seconds()` are left out.
- **Models.GetScoreBreakdown, Models.Percentage:** scores are exact reals. Float rounding is not modelled; every value is a multiple of 1/4 before the division.
- **Text.Lower:** it folds ASCII letters only. Python's full Unicode case mapping is not modelled.
- **Duration limit.** `duration_minutes` is stored but never enforced by the source, so the model only stores it too.

## Findings

| source | as written | input that shows it | evidently intended | confidence | as-written member | corrected member |
|---|---|---|---|---|---|---|
| quiz/forms.py:111-112 | any question whose difficulty is not an integer at the second check is rejected through the undefined name `valid_difficulties`. This raises `NameError`, not a validation error. It includes every alternate-format question with an integer difficulty, because lines 93-95 have already turned that difficulty into a string. | the placeholder example of the upload box: `[{"question": …, "options": {…}, "answer": "C", "difficulty": 2}]` | keep a difficulty that is already `easy`, `medium` or `hard`; refuse any other non-integer difficulty with a validation error naming the question | medium, not executed | Forms.CleanQuestionAsWritten | Forms.CleanQuestion |

The as-written behaviour is exhibited by three members:

- `Forms.PlaceholderExampleFails` shows the example list is refused with the undefined name.
- `Forms.AlternateIntDifficultyFails` shows that every shape-valid alternate-format question with an integer difficulty fails as written.
- `Forms.AsWrittenDiffers` characterises exactly when the two cleaners disagree.

The corrected cleaner is proved in four members:

- `Forms.CleanQuestion` and `Forms.CleanQuestionSpec` prove it yields storable questions and accepts exactly the well-formed ones.
- `Forms.UploadAccepted` and `Forms.UploadRefused` prove the list-level properties.
- `Forms.CleanQuestionsJson` implements the corrected cleaner.
