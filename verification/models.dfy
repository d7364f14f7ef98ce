/**
 * The per-quiz records and the pure methods of the quiz model: the four
 * question statuses, the answer record, the penalised score breakdown and
 * the resolution of a quiz's source and type.
 */
module Models {
  import opened Util
  import opened Text
  import opened Content

  /** The four choices of a question status record. */
  datatype Status = Unattempted | Attempted | MarkedForReview | AnsweredAndMarked

  /** The value a status is stored as. */
  function StatusValue(s: Status): (v: string)
  {
    match s
    case Unattempted => "unattempted"
    case Attempted => "attempted"
    case MarkedForReview => "marked_for_review"
    case AnsweredAndMarked => "answered_and_marked"
  }

  /** The progress view counts a status as marked when its value contains "marked". */
  predicate IsMarked(s: Status) {
    Contains(StatusValue(s), "marked")
  }

  /** The two statuses that carry a review mark. */
  predicate IsReview(s: Status) {
    s == MarkedForReview || s == AnsweredAndMarked
  }

  /** Exactly the two review statuses contain "marked". */
  lemma MarkedStatuses(s: Status)
    ensures IsMarked(s) <==> IsReview(s)
  {
    match s
    case Unattempted => UnattemptedNotMarked();
    case Attempted => AttemptedNotMarked();
    case MarkedForReview => MarkedAt("marked_for_review", "", "_for_review");
    case AnsweredAndMarked => MarkedAt("answered_and_marked", "answered_and_", "");
  }

  lemma UnattemptedNotMarked()
    ensures !Contains("unattempted", "marked")
  {
    var v := "unattempted";
    assert v[0] != 'm' && v[1] != 'm' && v[2] != 'm' && v[3] != 'm' && v[4] != 'm' && v[5] != 'm';
    NotContainsByFirst(v, "marked");
  }

  lemma AttemptedNotMarked()
    ensures !Contains("attempted", "marked")
  {
    var v := "attempted";
    assert v[0] != 'm' && v[1] != 'm' && v[2] != 'm' && v[3] != 'm';
    NotContainsByFirst(v, "marked");
  }

  lemma MarkedAt(v: string, before: string, after: string)
    requires v == before + "marked" + after
    ensures Contains(v, "marked")
  {
    ContainsAt(v, "marked");
    assert v[|before|..|before| + 6] == "marked";
    assert OccursAt(v, "marked", |before|);
  }

  /** A question answer record: the submitted label and whether it matched. */
  datatype Answer = Answer(userAnswer: string, isCorrect: bool)

  /** The ids of the correct and of the wrong answer records. */
  function CorrectIds(answers: map<QId, Answer>): set<QId> {
    set q | q in answers && answers[q].isCorrect
  }

  function WrongIds(answers: map<QId, Answer>): set<QId> {
    set q | q in answers && !answers[q].isCorrect
  }

  /** Every answer record is either correct or wrong, never both. */
  lemma AnswersSplit(answers: map<QId, Answer>)
    ensures |CorrectIds(answers)| + |WrongIds(answers)| == |answers|
  {
    assert CorrectIds(answers) + WrongIds(answers) == answers.Keys;
    assert CorrectIds(answers) !! WrongIds(answers);
  }

  /** `get_score_breakdown`'s result; reals stand for Python floats. */
  datatype ScoreBreakdown = ScoreBreakdown(
    correct: nat,
    wrong: nat,
    attempted: nat,
    unattempted: int,
    raw: real,
    maxPossible: real,
    percentage: real)

  /** The percentage of the maximum, clamped at zero; zero for an empty quiz. */
  function Percentage(raw: real, total: nat): (p: real)
    ensures p >= 0.0
    ensures total == 0 ==> p == 0.0
    ensures raw <= 0.0 ==> p == 0.0
    ensures total > 0 && raw >= 0.0 ==> p * (total as real) == raw * 100.0
  {
    if total as real * 1.0 > 0.0 then
      var p := raw / (total as real * 1.0) * 100.0;
      if 0.0 >= p then 0.0 else p
    else 0.0
  }

  /**
   * The penalised score of a quiz with `total` questions and the given
   * answer records: +1 per correct answer, -0.25 per wrong one, 0 per
   * unanswered question.
   */
  function GetScoreBreakdown(answers: map<QId, Answer>, total: nat): (b: ScoreBreakdown)
    ensures b.correct == |CorrectIds(answers)| && b.wrong == |WrongIds(answers)|
    ensures b.correct + b.wrong == b.attempted == |answers|
    ensures b.unattempted == total - b.attempted
    ensures 4.0 * b.raw == 4.0 * (b.correct as real) - (b.wrong as real)
    ensures b.raw <= b.correct as real
    ensures b.maxPossible == total as real
    ensures b.percentage == Percentage(b.raw, total)
    ensures b.percentage >= 0.0
    ensures total == 0 ==> b.percentage == 0.0
    ensures b.correct <= total ==> b.percentage <= 100.0
  {
    AnswersSplit(answers);
    var correct := |CorrectIds(answers)|;
    var wrong := |WrongIds(answers)|;
    var attempted := |answers|;
    var unattempted := total - attempted;
    var raw := (correct as real * 1.0) + (wrong as real * -0.25) + (unattempted as real * 0.0);
    var maxPossible := total as real * 1.0;
    var b := ScoreBreakdown(correct, wrong, attempted, unattempted, raw, maxPossible, Percentage(raw, total));
    assert b.correct <= total ==> b.percentage <= 100.0 by {
      if b.correct <= total && total > 0 && raw > 0.0 {
        assert raw <= total as real;
        PercentageAtMostHundred(raw, total);
      }
    }
    b
  }

  lemma PercentageAtMostHundred(raw: real, total: nat)
    requires total > 0 && 0.0 < raw <= total as real
    ensures Percentage(raw, total) <= 100.0
  {
    var t := total as real;
    assert raw / t <= 1.0 by {
      assert (raw / t) * t == raw;
    }
  }

  /**
   * The two worked examples of the scoring rule: 6 correct and 2 wrong
   * answers in a quiz of 10 score 55 %, and 4 wrong answers in a quiz of 4
   * score 0 % rather than -25 %.
   */
  lemma ScoreExamples()
    ensures GetScoreBreakdown(SixRightTwoWrong(), 10).raw == 5.5
    ensures GetScoreBreakdown(SixRightTwoWrong(), 10).unattempted == 2
    ensures GetScoreBreakdown(SixRightTwoWrong(), 10).percentage == 55.0
    ensures GetScoreBreakdown(FourWrong(), 4).raw == -1.0
    ensures GetScoreBreakdown(FourWrong(), 4).percentage == 0.0
  {
    SixRightTwoWrongCounts();
    FourWrongCounts();
  }

  lemma SixRightTwoWrongCounts()
    ensures |CorrectIds(SixRightTwoWrong())| == 6 && |WrongIds(SixRightTwoWrong())| == 2
  {
    assert CorrectIds(SixRightTwoWrong()) == {1, 2, 3, 4, 5, 6};
    assert WrongIds(SixRightTwoWrong()) == {7, 8};
  }

  lemma FourWrongCounts()
    ensures |CorrectIds(FourWrong())| == 0 && |WrongIds(FourWrong())| == 4
  {
    assert CorrectIds(FourWrong()) == {};
    assert WrongIds(FourWrong()) == {1, 2, 3, 4};
  }

  function SixRightTwoWrong(): map<QId, Answer> {
    map[1 := Answer("A", true), 2 := Answer("B", true), 3 := Answer("C", true),
        4 := Answer("D", true), 5 := Answer("A", true), 6 := Answer("B", true),
        7 := Answer("C", false), 8 := Answer("D", false)]
  }

  function FourWrong(): map<QId, Answer> {
    map[1 := Answer("A", false), 2 := Answer("B", false), 3 := Answer("C", false), 4 := Answer("D", false)]
  }

  /** `get_quiz_source`: the book wins over the chapter; neither gives `None`. */
  function GetQuizSource(chapter: Option<ChapterId>, book: Option<BookId>): (r: Option<Source>)
    ensures r.None? <==> chapter.None? && book.None?
    ensures book.Some? ==> r == Some(BookSource(book.value))
    ensures book.None? && chapter.Some? ==> r == Some(ChapterSource(chapter.value))
  {
    if book.Some? then Some(BookSource(book.value))
    else if chapter.Some? then Some(ChapterSource(chapter.value))
    else None
  }

  /** `get_quiz_type`: "book", "chapter" or "unknown", in the same precedence. */
  function GetQuizType(chapter: Option<ChapterId>, book: Option<BookId>): (r: string)
    ensures r == "book" <==> book.Some?
    ensures r == "chapter" <==> book.None? && chapter.Some?
    ensures r == "unknown" <==> book.None? && chapter.None?
  {
    if book.Some? then "book"
    else if chapter.Some? then "chapter"
    else "unknown"
  }

  /** The type always names the kind of the source, and "unknown" means there is none. */
  lemma TypeNamesSource(chapter: Option<ChapterId>, book: Option<BookId>)
    ensures GetQuizType(chapter, book) == "book" <==> GetQuizSource(chapter, book).Some? && GetQuizSource(chapter, book).value.BookSource?
    ensures GetQuizType(chapter, book) == "chapter" <==> GetQuizSource(chapter, book).Some? && GetQuizSource(chapter, book).value.ChapterSource?
    ensures GetQuizType(chapter, book) == "unknown" <==> GetQuizSource(chapter, book).None?
  {
  }

  /** The `quiz_either_chapter_or_book` check constraint. */
  predicate EitherChapterOrBook(chapter: Option<ChapterId>, book: Option<BookId>) {
    (chapter.Some? && book.None?) || (chapter.None? && book.Some?)
  }

  /** Under the constraint the source is exactly the one field that is set. */
  lemma ConstrainedQuizSource(chapter: Option<ChapterId>, book: Option<BookId>)
    requires EitherChapterOrBook(chapter, book)
    ensures GetQuizSource(chapter, book) == if book.Some? then Some(BookSource(book.value)) else Some(ChapterSource(chapter.value))
    ensures GetQuizType(chapter, book) != "unknown"
  {
  }
}
