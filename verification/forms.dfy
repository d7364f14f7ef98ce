/**
 * The two forms with logic of their own: the question-upload cleaner, which
 * normalises and validates a parsed JSON list of questions, and the quiz
 * selection form, which checks the chosen scope, size, difficulty and
 * duration against the question store.
 */
module Forms {
  import opened Util
  import opened Content
  import opened Views

  /*** Parsed JSON values ***/

  /** A value as `json.loads` returns it; objects are dictionaries keyed by string. */
  datatype Json =
    | JNull
    | JBool(b: bool)
    | JInt(i: int)
    | JReal(r: real)
    | JString(s: string)
    | JArray(items: seq<Json>)
    | JObject(fields: map<string, Json>)

  /** Python's `isinstance(v, int)`, which a boolean also satisfies. */
  predicate IsInt(v: Json) {
    v.JInt? || v.JBool?
  }

  /** The integer a value satisfying `IsInt` stands for (`True == 1`, `False == 0`). */
  function IntValue(v: Json): int
    requires IsInt(v)
  {
    match v
    case JInt(i) => i
    case JBool(b) => if b then 1 else 0
  }

  /** The names the question table accepts as a difficulty. */
  predicate IsTierName(s: string) {
    s == "easy" || s == "medium" || s == "hard"
  }

  /** `difficulty_map.get(d, 'medium')`: 1-2 easy, 3 medium, 4-5 hard, anything else medium. */
  function DifficultyName(d: int): (r: string)
    ensures IsTierName(r)
    ensures r == "easy" <==> d == 1 || d == 2
    ensures r == "hard" <==> d == 4 || d == 5
    ensures r == "medium" <==> !(1 <= d <= 2 || 4 <= d <= 5)
  {
    if d == 1 || d == 2 then "easy"
    else if d == 3 then "medium"
    else if d == 4 || d == 5 then "hard"
    else "medium"
  }

  /** The difficulty an integer-valued JSON difficulty is rewritten to. */
  function MappedDifficulty(v: Json): (r: Json)
    requires IsInt(v)
    ensures r.JString? && IsTierName(r.s)
    ensures r.s == "easy" <==> IntValue(v) == 1 || IntValue(v) == 2
    ensures r.s == "hard" <==> IntValue(v) == 4 || IntValue(v) == 5
    ensures r.s == "medium" <==> !(1 <= IntValue(v) <= 2 || 4 <= IntValue(v) <= 5)
  {
    JString(DifficultyName(IntValue(v)))
  }

  /** Why an upload is refused; `number` is the 1-based position of the offending question. */
  datatype UploadError =
    | NotAList
    | NotAnObject(number: nat)
    | MissingField(number: nat, field: string)
    | OptionsNotADict(number: nat)
    | InvalidDifficulty(number: nat)
    | UndefinedName(name: string)

  /*** One question ***/

  /**
   * The conversion of the alternate format: when both `question` and
   * `answer` are present they fill `question_text` and `correct_answer`
   * where those are absent, and an integer difficulty becomes a tier name.
   */
  function Normalize(f: map<string, Json>): (r: map<string, Json>)
    ensures f.Keys <= r.Keys <= f.Keys + {"question_text", "correct_answer"}
    ensures forall k :: k in f && k != "question_text" && k != "correct_answer" && k != "difficulty" ==> r[k] == f[k]
    ensures "difficulty" in f ==>
              r["difficulty"] == if "question" in f && "answer" in f && IsInt(f["difficulty"])
                                 then MappedDifficulty(f["difficulty"]) else f["difficulty"]
  {
    if "question" in f && "answer" in f then
      var f1 := if "question_text" !in f then f["question_text" := f["question"]] else f;
      var f2 := if "correct_answer" !in f1 then f1["correct_answer" := f1["answer"]] else f1;
      if "difficulty" in f2 && IsInt(f2["difficulty"]) then f2["difficulty" := MappedDifficulty(f2["difficulty"])] else f2
    else f
  }

  /** The first missing required field, checked in the order the cleaner checks them. */
  function MissingRequired(f: map<string, Json>): (r: Option<string>)
    ensures r.None? <==> "question_text" in f && "correct_answer" in f && "options" in f
    ensures r.Some? ==> r.value !in f
    ensures r == Some("correct_answer") ==> "question_text" in f
    ensures r == Some("options") ==> "question_text" in f && "correct_answer" in f
  {
    if "question_text" !in f then Some("question_text")
    else if "correct_answer" !in f then Some("correct_answer")
    else if "options" !in f then Some("options")
    else None
  }

  /**
   * The checks every question goes through after the conversion, up to the
   * difficulty check: an object with the three required fields and a
   * dictionary of options. The result is the converted dictionary.
   */
  function CheckShape(item: Json, number: nat): (r: Result<map<string, Json>, UploadError>)
    ensures r.Ok? <==> item.JObject? && HasShape(Normalize(item.fields))
    ensures r.Ok? ==> r.value == Normalize(item.fields)
    ensures r.Err? ==> ErrorNumber(r.error) == Some(number)
    ensures !item.JObject? ==> r == Err(NotAnObject(number))
    ensures item.JObject? && MissingRequired(Normalize(item.fields)).Some?
            ==> r == Err(MissingField(number, MissingRequired(Normalize(item.fields)).value))
    ensures item.JObject? && MissingRequired(Normalize(item.fields)).None? && !Normalize(item.fields)["options"].JObject?
            ==> r == Err(OptionsNotADict(number))
  {
    if !item.JObject? then Err(NotAnObject(number))
    else
      var f := Normalize(item.fields);
      match MissingRequired(f)
      case Some(field) => Err(MissingField(number, field))
      case None =>
        if !f["options"].JObject? then Err(OptionsNotADict(number))
        else Ok(f)
  }

  /** The three required fields are present and the options are a dictionary. */
  predicate HasShape(f: map<string, Json>) {
    "question_text" in f && "correct_answer" in f && "options" in f && f["options"].JObject?
  }

  /** The second difficulty check's rewrite: an integer difficulty becomes its tier name. */
  function WithTier(f: map<string, Json>): (r: map<string, Json>)
    ensures r.Keys == f.Keys
    ensures forall k :: k in f && k != "difficulty" ==> r[k] == f[k]
    ensures "difficulty" in f ==> r["difficulty"] == if IsInt(f["difficulty"]) then MappedDifficulty(f["difficulty"]) else f["difficulty"]
  {
    if "difficulty" in f && IsInt(f["difficulty"]) then f["difficulty" := MappedDifficulty(f["difficulty"])] else f
  }

  /**
   * One question as the cleaner is written: after the shape checks, an
   * integer difficulty is mapped again and any other difficulty reaches an
   * error message built from a name that is defined nowhere, so it fails
   * with that name instead of with a validation error.
   */
  function CleanQuestionAsWritten(item: Json, number: nat): (r: Result<map<string, Json>, UploadError>)
    ensures r.Ok? ==> IsCleanQuestion(r.value)
    ensures r.Err? ==> ErrorNumber(r.error) == Some(number) || r.error == UndefinedName("valid_difficulties")
  {
    match CheckShape(item, number)
    case Err(e) => Err(e)
    case Ok(f) =>
      if "difficulty" in f && !IsInt(f["difficulty"]) then Err(UndefinedName("valid_difficulties"))
      else Ok(WithTier(f))
  }

  /**
   * One question as the cleaner is meant to work: a difficulty that is
   * already a tier name is kept, and any other non-integer difficulty is
   * refused with a validation error naming the question.
   */
  function CleanQuestion(item: Json, number: nat): (r: Result<map<string, Json>, UploadError>)
    ensures r.Ok? ==> IsCleanQuestion(r.value)
    ensures r.Err? ==> ErrorNumber(r.error) == Some(number)
  {
    match CheckShape(item, number)
    case Err(e) => Err(e)
    case Ok(f) =>
      if "difficulty" in f && !IsInt(f["difficulty"]) && !IsTierString(f["difficulty"]) then Err(InvalidDifficulty(number))
      else Ok(WithTier(f))
  }

  /** A string difficulty that already names a tier. */
  predicate IsTierString(v: Json) {
    v.JString? && IsTierName(v.s)
  }

  /** What the intended cleaner accepts once the shape is right: no difficulty, an integer, or a tier name. */
  predicate AcceptableDifficulty(f: map<string, Json>) {
    "difficulty" in f ==> IsInt(f["difficulty"]) || IsTierString(f["difficulty"])
  }

  /** A question the upload view can store: the three fields, dictionary options, a tier name if any difficulty. */
  predicate IsCleanQuestion(f: map<string, Json>) {
    && "question_text" in f && "correct_answer" in f && "options" in f
    && f["options"].JObject?
    && ("difficulty" in f ==> f["difficulty"].JString? && IsTierName(f["difficulty"].s))
  }

  /** The 1-based position an error names, if it names one. */
  function ErrorNumber(e: UploadError): Option<nat> {
    match e
    case NotAList => None
    case UndefinedName(_) => None
    case NotAnObject(n) => Some(n)
    case MissingField(n, _) => Some(n)
    case OptionsNotADict(n) => Some(n)
    case InvalidDifficulty(n) => Some(n)
  }

  /**
   * The intended cleaner accepts exactly the objects whose converted fields
   * have the right shape and an acceptable difficulty, and then returns the
   * converted fields with an integer difficulty mapped to its tier; fields
   * the cleaner does not rewrite keep their values.
   */
  lemma CleanQuestionSpec(item: Json, number: nat)
    ensures CleanQuestion(item, number).Ok?
            <==> item.JObject? && HasShape(Normalize(item.fields)) && AcceptableDifficulty(Normalize(item.fields))
    ensures CleanQuestion(item, number).Ok? ==> CleanQuestion(item, number).value == WithTier(Normalize(item.fields))
    ensures CleanQuestion(item, number).Ok? ==>
              && item.JObject?
              && item.fields.Keys <= CleanQuestion(item, number).value.Keys
              && forall k :: k in item.fields && k != "question_text" && k != "correct_answer" && k != "difficulty" ==>
                               CleanQuestion(item, number).value[k] == item.fields[k]
  {
  }

  /**
   * The alternate format: with both `question` and `answer`, a missing
   * `question_text` or `correct_answer` is copied from them, and one that
   * is present is kept.
   */
  lemma NormalizeRenames(f: map<string, Json>)
    requires "question" in f && "answer" in f
    ensures "question_text" in Normalize(f) && "correct_answer" in Normalize(f)
    ensures Normalize(f)["question_text"] == if "question_text" in f then f["question_text"] else f["question"]
    ensures Normalize(f)["correct_answer"] == if "correct_answer" in f then f["correct_answer"] else f["answer"]
  {
  }

  /** Without both alternate keys nothing is converted, not even an integer difficulty. */
  lemma NormalizeOnlyAlternate(f: map<string, Json>)
    requires !("question" in f && "answer" in f)
    ensures Normalize(f) == f
  {
  }

  /**
   * The cleaner as written fails with the undefined name exactly when a
   * question passes the shape checks and still has a difficulty that is not
   * an integer; whenever it does not, the intended cleaner agrees with it.
   */
  lemma AsWrittenDiffers(item: Json, number: nat)
    ensures CleanQuestionAsWritten(item, number).Err? && CleanQuestionAsWritten(item, number).error.UndefinedName?
            <==> CheckShape(item, number).Ok? && "difficulty" in CheckShape(item, number).value
                 && !IsInt(CheckShape(item, number).value["difficulty"])
    ensures !(CleanQuestionAsWritten(item, number).Err? && CleanQuestionAsWritten(item, number).error.UndefinedName?) ==>
              CleanQuestion(item, number) == CleanQuestionAsWritten(item, number)
  {
  }

  /**
   * In particular every question of the alternate format with an integer
   * difficulty that passes the shape checks fails as written: the
   * conversion has already turned the difficulty into a string.
   */
  lemma AlternateIntDifficultyFails(item: Json, number: nat)
    requires item.JObject? && "question" in item.fields && "answer" in item.fields
    requires "difficulty" in item.fields && IsInt(item.fields["difficulty"])
    requires CheckShape(item, number).Ok?
    ensures CleanQuestionAsWritten(item, number) == Err(UndefinedName("valid_difficulties"))
    ensures CleanQuestion(item, number).Ok?
    ensures CleanQuestion(item, number).value["difficulty"] == MappedDifficulty(item.fields["difficulty"])
  {
    var f := Normalize(item.fields);
    assert f["difficulty"] == MappedDifficulty(item.fields["difficulty"]);
  }

  /** The example shown in the upload box: one question in the alternate format. */
  function PlaceholderExample(): Json {
    JArray([JObject(map[
      "question" := JString("What is the capital of France?"),
      "options" := JObject(map[
        "A" := JString("London"), "B" := JString("Berlin"),
        "C" := JString("Paris"), "D" := JString("Madrid")]),
      "answer" := JString("C"),
      "difficulty" := JInt(2)])])
  }

  /*** The whole list ***/

  /** The verdict on one question: its cleaned dictionary, or why it is refused. */
  type Verdict = Result<map<string, Json>, UploadError>

  /** The verdict of the cleaner as written or as intended on the question at position `number`. */
  function Judge(item: Json, number: nat, asWritten: bool): Verdict {
    if asWritten then CleanQuestionAsWritten(item, number) else CleanQuestion(item, number)
  }

  /** The verdicts on every question of the list, each with its 1-based position. */
  function Verdicts(items: seq<Json>, asWritten: bool): (vs: seq<Verdict>)
    ensures |vs| == |items|
  {
    seq(|items|, k requires 0 <= k < |items| => Judge(items[k], k + 1, asWritten))
  }

  /**
   * The first `n` verdicts taken one after another, stopping at the first
   * refusal; accepted questions are collected in order.
   */
  function Collect(vs: seq<Verdict>, n: nat): Result<seq<Json>, UploadError>
    requires n <= |vs|
  {
    if n == 0 then Ok([])
    else
      match Collect(vs, n - 1)
      case Err(e) => Err(e)
      case Ok(done) =>
        match vs[n - 1]
        case Err(e) => Err(e)
        case Ok(f) => Ok(done + [JObject(f)])
  }

  /** `clean_questions_json` on a parsed value. */
  function CleanUpload(parsed: Json, asWritten: bool): (r: Result<seq<Json>, UploadError>)
    ensures !parsed.JArray? ==> r == Err(NotAList)
    ensures r.Ok? ==> parsed.JArray? && |r.value| == |parsed.items|
  {
    if !parsed.JArray? then Err(NotAList)
    else
      CollectAccepts(Verdicts(parsed.items, asWritten), |parsed.items|);
      Collect(Verdicts(parsed.items, asWritten), |parsed.items|)
  }

  /** The list cleaner refuses the example it shows as written, and accepts it as intended. */
  lemma PlaceholderExampleFails()
    ensures CleanUpload(PlaceholderExample(), true) == Err(UndefinedName("valid_difficulties"))
    ensures CleanUpload(PlaceholderExample(), false).Ok?
  {
    var item := PlaceholderExample().items[0];
    assert CheckShape(item, 1).Ok?;
    AlternateIntDifficultyFails(item, 1);
    assert Verdicts(PlaceholderExample().items, true)[0] == CleanQuestionAsWritten(item, 1);
    assert Verdicts(PlaceholderExample().items, false)[0] == CleanQuestion(item, 1);
  }

  /**
   * Two verdict lists that differ only where the first has the undefined
   * name give the same outcome wherever the first does not end in it.
   */
  lemma {:induction false} CollectAgrees(written: seq<Verdict>, intended: seq<Verdict>, n: nat)
    requires n <= |written| == |intended|
    requires forall k :: 0 <= k < |written| && !(written[k].Err? && written[k].error.UndefinedName?) ==>
                           intended[k] == written[k]
    requires !(Collect(written, n).Err? && Collect(written, n).error.UndefinedName?)
    ensures Collect(intended, n) == Collect(written, n)
  {
    if n > 0 {
      CollectAgrees(written, intended, n - 1);
    }
  }

  /**
   * Wherever the upload cleaner as written reaches a verdict other than the
   * undefined name, the intended cleaner reaches the same one.
   */
  lemma AsWrittenUploadAgrees(parsed: Json)
    requires !(CleanUpload(parsed, true).Err? && CleanUpload(parsed, true).error.UndefinedName?)
    ensures CleanUpload(parsed, false) == CleanUpload(parsed, true)
  {
    if parsed.JArray? {
      var items := parsed.items;
      forall k | 0 <= k < |items|
        ensures !(Verdicts(items, true)[k].Err? && Verdicts(items, true)[k].error.UndefinedName?) ==>
                  Verdicts(items, false)[k] == Verdicts(items, true)[k]
      {
        AsWrittenDiffers(items[k], k + 1);
      }
      CollectAgrees(Verdicts(items, true), Verdicts(items, false), |items|);
    }
  }

  /** A refusal stays a refusal: taking more verdicts returns the same error. */
  lemma {:induction false} FailureSticks(vs: seq<Verdict>, i: nat, n: nat)
    requires i <= n <= |vs|
    requires Collect(vs, i).Err?
    ensures Collect(vs, n) == Collect(vs, i)
    decreases n
  {
    if n > i {
      FailureSticks(vs, i, n - 1);
    }
  }

  /** Taking verdicts accepts exactly when each is an acceptance, and then lists them in order. */
  lemma {:induction false} CollectAccepts(vs: seq<Verdict>, n: nat)
    requires n <= |vs|
    ensures Collect(vs, n).Ok? <==> forall k :: 0 <= k < n ==> vs[k].Ok?
    ensures Collect(vs, n).Ok? ==>
              |Collect(vs, n).value| == n && forall k :: 0 <= k < n ==> Collect(vs, n).value[k] == JObject(vs[k].value)
  {
    if n > 0 {
      CollectAccepts(vs, n - 1);
    }
  }

  /** A refusal is the verdict of the first refused question. */
  lemma {:induction false} CollectRefuses(vs: seq<Verdict>, n: nat)
    requires n <= |vs|
    requires Collect(vs, n).Err?
    ensures exists k :: 0 <= k < n && vs[k] == Err(Collect(vs, n).error) && forall j :: 0 <= j < k ==> vs[j].Ok?
  {
    var prev := Collect(vs, n - 1);
    if prev.Err? {
      CollectRefuses(vs, n - 1);
    } else {
      CollectAccepts(vs, n - 1);
      assert vs[n - 1] == Err(Collect(vs, n).error);
    }
  }

  /** An accepted upload has one storable question per element of the list. */
  lemma UploadAccepted(parsed: Json)
    requires CleanUpload(parsed, false).Ok?
    ensures parsed.JArray? && |CleanUpload(parsed, false).value| == |parsed.items|
    ensures forall k :: 0 <= k < |parsed.items| ==>
              CleanUpload(parsed, false).value[k].JObject?
              && IsCleanQuestion(CleanUpload(parsed, false).value[k].fields)
    ensures forall k :: 0 <= k < |parsed.items| ==>
              parsed.items[k].JObject?
              && CleanUpload(parsed, false).value[k] == JObject(WithTier(Normalize(parsed.items[k].fields)))
  {
    var items := parsed.items;
    var vs := Verdicts(items, false);
    var r := CleanUpload(parsed, false);
    CollectAccepts(vs, |items|);
    forall k | 0 <= k < |items|
      ensures r.value[k].JObject? && IsCleanQuestion(r.value[k].fields)
      ensures items[k].JObject? && r.value[k] == JObject(WithTier(Normalize(items[k].fields)))
    {
      assert vs[k] == CleanQuestion(items[k], k + 1);
      CleanQuestionSpec(items[k], k + 1);
    }
  }

  /**
   * A refused upload is either not a list or names the first offending
   * position (counting from 1), with the error of that question.
   */
  lemma UploadRefused(parsed: Json)
    requires CleanUpload(parsed, false).Err?
    ensures CleanUpload(parsed, false).error == NotAList <==> !parsed.JArray?
    ensures parsed.JArray? ==>
              exists k :: 0 <= k < |parsed.items|
                          && CleanQuestion(parsed.items[k], k + 1) == Err(CleanUpload(parsed, false).error)
                          && ErrorNumber(CleanUpload(parsed, false).error) == Some(k + 1)
                          && forall j :: 0 <= j < k ==> CleanQuestion(parsed.items[j], j + 1).Ok?
  {
    if parsed.JArray? {
      var items := parsed.items;
      var vs := Verdicts(items, false);
      var e := CleanUpload(parsed, false).error;
      CollectRefuses(vs, |items|);
      var k :| 0 <= k < |items| && vs[k] == Err(e) && forall j :: 0 <= j < k ==> vs[j].Ok?;
      FirstRefusal(items, k, e);
    }
  }

  lemma FirstRefusal(items: seq<Json>, k: nat, e: UploadError)
    requires k < |items|
    requires Verdicts(items, false)[k] == Err(e)
    requires forall j :: 0 <= j < k ==> Verdicts(items, false)[j].Ok?
    ensures CleanQuestion(items[k], k + 1) == Err(e) && ErrorNumber(e) == Some(k + 1) && e != NotAList
    ensures forall j :: 0 <= j < k ==> CleanQuestion(items[j], j + 1).Ok?
  {
    var vs := Verdicts(items, false);
    assert vs[k] == CleanQuestion(items[k], k + 1);
    CleanQuestionSpec(items[k], k + 1);
    assert forall j :: 0 <= j < k ==> vs[j] == CleanQuestion(items[j], j + 1);
  }

  /**
   * `clean_questions_json`: walks the list, rewriting each question in
   * place and stopping at the first one refused.
   */
  method CleanQuestionsJson(parsed: Json) returns (r: Result<seq<Json>, UploadError>)
    ensures r == CleanUpload(parsed, false)
  {
    if !parsed.JArray? {
      return Err(NotAList);
    }
    ghost var vs := Verdicts(parsed.items, false);
    var questions := parsed.items;
    var i := 0;
    while i < |questions|
      invariant 0 <= i <= |questions| == |parsed.items|
      invariant questions[i..] == parsed.items[i..]
      invariant Collect(vs, i) == Ok(questions[..i])
    {
      assert questions[i] == parsed.items[i];
      assert vs[i] == CleanQuestion(questions[i], i + 1);
      match CleanQuestion(questions[i], i + 1) {
        case Err(e) =>
          FailureSticks(vs, i + 1, |parsed.items|);
          return Err(e);
        case Ok(f) =>
          questions := questions[i := JObject(f)];
          assert questions[..i + 1] == questions[..i] + [JObject(f)];
      }
      i := i + 1;
    }
    assert questions[..i] == questions;
    r := Ok(questions);
  }

  /*** The quiz selection form ***/

  datatype QuizKind = ChapterQuiz | BookQuiz

  /**
   * What a chapter or book field received: nothing, the primary key of a
   * row, or text that is no primary key at all.
   */
  datatype IdInput = Blank | Key(id: nat) | NotAKey

  /**
   * The submitted selection. The chapter and book fields keep what was
   * submitted, since whether it is a valid choice depends on the rows in
   * the store; for the other fields `None` stands for a value that is
   * missing or not one of the field's choices.
   */
  datatype Selection = Selection(
    quizType: Option<QuizKind>,
    chapter: IdInput,
    book: IdInput,
    numQuestions: Option<int>,
    difficulty: Option<DifficultyFilter>,
    durationMinutes: Option<int>)

  /** The errors the selection form reports, field errors first. */
  datatype SelectionError =
    | QuizTypeInvalid
    | ChapterInvalid
    | BookInvalid
    | NumQuestionsInvalid
    | DifficultyInvalid
    | DurationInvalid
    | ChapterRequired
    | BookRequired
    | TooManyQuestions(available: nat)

  const MinQuestions: int := 1
  const MaxQuestions: int := 50

  /** The choices of the duration field, in minutes. */
  predicate IsDurationChoice(m: int) {
    m == 15 || m == 30 || m == 45 || m == 60 || m == 90 || m == 120
  }

  /** The question count the form keeps, if it is a whole number between 1 and 50. */
  function CleanedCount(sel: Selection): (r: Option<int>)
    ensures r.Some? <==> sel.numQuestions.Some? && MinQuestions <= sel.numQuestions.value <= MaxQuestions
    ensures r.Some? ==> r == sel.numQuestions
  {
    match sel.numQuestions
    case Some(n) => if MinQuestions <= n <= MaxQuestions then Some(n) else None
    case None => None
  }

  /**
   * A `ModelChoiceField(required=False)` refuses its input with
   * `invalid_choice` when it is neither blank nor the key of a row.
   */
  predicate ChoiceRejected(input: IdInput, rows: set<nat>) {
    input.NotAKey? || (input.Key? && input.id !in rows)
  }

  /** The chapter the chapter field cleans to: the row whose key was given, if it exists. */
  function CleanedChapter(store: Store, sel: Selection): (r: Option<ChapterId>)
    ensures r.Some? <==> sel.chapter.Key? && sel.chapter.id in store.chapters
    ensures r.Some? ==> r.value == sel.chapter.id
    ensures r.None? <==> sel.chapter.Blank? || ChoiceRejected(sel.chapter, store.chapters.Keys)
  {
    if sel.chapter.Key? && sel.chapter.id in store.chapters then Some(sel.chapter.id) else None
  }

  /** The book the book field cleans to: the row whose key was given, if it exists. */
  function CleanedBook(store: Store, sel: Selection): (r: Option<BookId>)
    ensures r.Some? <==> sel.book.Key? && sel.book.id in store.books
    ensures r.Some? ==> r.value == sel.book.id
    ensures r.None? <==> sel.book.Blank? || ChoiceRejected(sel.book, store.books)
  {
    if sel.book.Key? && sel.book.id in store.books then Some(sel.book.id) else None
  }

  /** The errors of the quiz type, chapter and book fields, in that order. */
  function ChoiceErrors(store: Store, sel: Selection): (r: seq<SelectionError>)
    ensures NumQuestionsInvalid !in r && DifficultyInvalid !in r && DurationInvalid !in r
    ensures QuizTypeInvalid in r <==> sel.quizType.None?
    ensures ChapterInvalid in r <==> ChoiceRejected(sel.chapter, store.chapters.Keys)
    ensures BookInvalid in r <==> ChoiceRejected(sel.book, store.books)
    ensures |r| <= 3
  {
    (if sel.quizType.None? then [QuizTypeInvalid] else [])
    + (if ChoiceRejected(sel.chapter, store.chapters.Keys) then [ChapterInvalid] else [])
    + (if ChoiceRejected(sel.book, store.books) then [BookInvalid] else [])
  }

  /** The errors of the count, difficulty and duration fields, in that order. */
  function ValueErrors(sel: Selection): (r: seq<SelectionError>)
    ensures QuizTypeInvalid !in r && ChapterInvalid !in r && BookInvalid !in r
    ensures NumQuestionsInvalid in r <==> CleanedCount(sel).None?
    ensures DifficultyInvalid in r <==> sel.difficulty.None?
    ensures DurationInvalid in r <==> !(sel.durationMinutes.Some? && IsDurationChoice(sel.durationMinutes.value))
    ensures |r| <= 3
  {
    (if CleanedCount(sel).None? then [NumQuestionsInvalid] else [])
    + (if sel.difficulty.None? then [DifficultyInvalid] else [])
    + (if sel.durationMinutes.None? || !IsDurationChoice(sel.durationMinutes.value) then [DurationInvalid] else [])
  }

  /**
   * The source the form's quiz type selects, when the matching field
   * cleaned to a row; a selected source always exists in the store.
   */
  function SelectedSource(store: Store, sel: Selection): (r: Option<Source>)
    ensures r.Some? <==> (sel.quizType == Some(ChapterQuiz) && CleanedChapter(store, sel).Some?)
                         || (sel.quizType == Some(BookQuiz) && CleanedBook(store, sel).Some?)
    ensures sel.quizType == Some(ChapterQuiz) && sel.chapter.Key? && sel.chapter.id in store.chapters
            ==> r == Some(ChapterSource(sel.chapter.id))
    ensures sel.quizType == Some(BookQuiz) && sel.book.Key? && sel.book.id in store.books
            ==> r == Some(BookSource(sel.book.id))
    ensures r.Some? ==> SourceExists(store, r.value)
  {
    match sel.quizType
    case Some(ChapterQuiz) =>
      var c := CleanedChapter(store, sel);
      if c.Some? then Some(ChapterSource(c.value)) else None
    case Some(BookQuiz) =>
      var b := CleanedBook(store, sel);
      if b.Some? then Some(BookSource(b.value)) else None
    case None => None
  }

  /** The difficulty the form's own check counts with; a rejected choice counts as `all`. */
  function CleanedDifficulty(sel: Selection): DifficultyFilter {
    if sel.difficulty.Some? then sel.difficulty.value else AllDifficulties
  }

  /** The number of questions eligible for the selection, or 0 when no source is selected. */
  function Available(store: Store, sel: Selection): nat {
    |QuestionsForSource(store, SelectedSource(store, sel), CleanedDifficulty(sel))|
  }

  /**
   * `QuizSelectionForm.clean` proper: a chapter quiz needs a chapter and a
   * book quiz a book, checked first (an id the field refused counts as
   * none); then a valid count above a positive
   * number of eligible questions is refused with that number.
   */
  function FormError(store: Store, sel: Selection): (r: seq<SelectionError>)
    ensures |r| <= 1
    ensures r != [] ==> r[0].ChapterRequired? || r[0].BookRequired? || r[0].TooManyQuestions?
    ensures r == [ChapterRequired] <==> sel.quizType == Some(ChapterQuiz) && CleanedChapter(store, sel).None?
    ensures r == [BookRequired] <==> sel.quizType == Some(BookQuiz) && CleanedBook(store, sel).None?
    ensures (r != [] && r[0].TooManyQuestions?)
            <==> SelectedSource(store, sel).Some? && CleanedCount(sel).Some? && 0 < Available(store, sel) < CleanedCount(sel).value
    ensures r != [] && r[0].TooManyQuestions? ==> r[0].available == Available(store, sel)
  {
    if sel.quizType == Some(ChapterQuiz) && CleanedChapter(store, sel).None? then [ChapterRequired]
    else if sel.quizType == Some(BookQuiz) && CleanedBook(store, sel).None? then [BookRequired]
    else
      match CleanedCount(sel)
      case None => []
      case Some(n) =>
        var available := Available(store, sel);
        if available > 0 && n > available then [TooManyQuestions(available)] else []
  }

  /** Every error of the selection form: the field errors in declaration order, then the form's own. */
  function SelectionErrors(store: Store, sel: Selection): (r: seq<SelectionError>)
    ensures QuizTypeInvalid in r <==> sel.quizType.None?
    ensures ChapterInvalid in r <==> ChoiceRejected(sel.chapter, store.chapters.Keys)
    ensures BookInvalid in r <==> ChoiceRejected(sel.book, store.books)
    ensures NumQuestionsInvalid in r <==> !(sel.numQuestions.Some? && MinQuestions <= sel.numQuestions.value <= MaxQuestions)
    ensures DifficultyInvalid in r <==> sel.difficulty.None?
    ensures DurationInvalid in r <==> !(sel.durationMinutes.Some? && IsDurationChoice(sel.durationMinutes.value))
    ensures |r| <= 7
  {
    ChoiceErrors(store, sel) + ValueErrors(sel) + FormError(store, sel)
  }

  /**
   * The form is valid exactly when every field holds one of its choices (a
   * chapter or book field may be blank), the quiz type's own field names a
   * row, and the count is at most the number of
   * eligible questions unless there are none at all.
   */
  lemma SelectionValid(store: Store, sel: Selection)
    ensures SelectionErrors(store, sel) == [] <==>
              && sel.quizType.Some? && sel.difficulty.Some?
              && !ChoiceRejected(sel.chapter, store.chapters.Keys) && !ChoiceRejected(sel.book, store.books)
              && sel.numQuestions.Some? && MinQuestions <= sel.numQuestions.value <= MaxQuestions
              && sel.durationMinutes.Some? && IsDurationChoice(sel.durationMinutes.value)
              && SelectedSource(store, sel).Some?
              && (Available(store, sel) == 0 || sel.numQuestions.value <= Available(store, sel))
  {
  }

  /** A chapter or book left empty is the only form error reported, whatever the count. */
  lemma MissingScopeFirst(store: Store, sel: Selection)
    requires sel.quizType.Some? && SelectedSource(store, sel).None?
    ensures FormError(store, sel) == if sel.quizType == Some(ChapterQuiz) then [ChapterRequired] else [BookRequired]
  {
  }

  /**
   * A chapter quiz whose chapter key names no chapter is refused twice: by
   * the chapter field, and by `clean()`, which sees no chapter.
   */
  lemma UnknownChapterReportedTwice(store: Store, sel: Selection)
    requires sel.quizType == Some(ChapterQuiz) && ChoiceRejected(sel.chapter, store.chapters.Keys)
    ensures ChapterInvalid in SelectionErrors(store, sel)
    ensures ChapterRequired in SelectionErrors(store, sel)
  {
    assert FormError(store, sel) == [ChapterRequired];
  }

  /**
   * The form and a start view together, when the view's chapter or book is
   * the one the form selected: a valid form whose count passes the view's
   * own count check is exactly a selection within 1..50 and within the
   * eligible questions. The form alone lets a count through when nothing is
   * eligible; the view's check is what refuses it then.
   */
  lemma FormAndStartCheck(store: Store, sel: Selection, source: Source)
    requires SelectionErrors(store, sel) == []
    requires SelectedSource(store, sel) == Some(source)
    ensures SourceExists(store, source)
    ensures var n := sel.numQuestions.value;
            var pool := QuestionsForSource(store, Some(source), sel.difficulty.value);
            && MinQuestions <= n <= MaxQuestions
            && (CheckAvailable(store, source, sel.difficulty.value, n).Ok? <==> n <= |pool|)
            && (|pool| == 0 ==> CheckAvailable(store, source, sel.difficulty.value, n) == Err(0))
  {
    SelectionValid(store, sel);
  }
}
