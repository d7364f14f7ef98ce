/**
 * The quiz engine of the views: starting a quiz from a sampled question
 * sequence, the take-quiz state machine (submit and advance, mark for
 * review, clear answer, jump) with its progress snapshot, and the one-time
 * sealing of a quiz with its penalised score.
 */
module Views {
  import opened Util
  import opened Text
  import opened Content
  import opened Models

  type UserId = nat

  /*** Status transitions ***/

  /** A status that records a stored answer. */
  predicate IsAnsweredStatus(s: Status) {
    s == Attempted || s == AnsweredAndMarked
  }

  /**
   * The status after `next` stores an answer: a new record is `attempted`,
   * `marked_for_review` becomes `answered_and_marked`, and every other
   * status, `answered_and_marked` included, becomes `attempted`.
   */
  function AfterSubmit(s: Option<Status>): (r: Status)
    ensures IsAnsweredStatus(r)
    ensures IsReview(r) <==> s == Some(MarkedForReview)
  {
    var r := match s
      case Some(MarkedForReview) => AnsweredAndMarked
      case _ => Attempted;
    r
  }

  /**
   * The status after `mark_for_review`: a new record is `marked_for_review`,
   * `attempted` becomes `answered_and_marked`, and every other status,
   * `answered_and_marked` included, becomes `marked_for_review`.
   */
  function AfterMark(s: Option<Status>): (r: Status)
    ensures IsReview(r)
    ensures IsAnsweredStatus(r) <==> s == Some(Attempted)
  {
    var r := match s
      case Some(Attempted) => AnsweredAndMarked
      case _ => MarkedForReview;
    r
  }

  /**
   * The status after `clear_answer`: `answered_and_marked` becomes
   * `marked_for_review`, `attempted` becomes `unattempted`, the other two
   * stay, and a missing record is created as `unattempted`.
   */
  function AfterClear(s: Option<Status>): (r: Status)
    ensures !IsAnsweredStatus(r)
    ensures IsReview(r) <==> s.Some? && IsReview(s.value)
    ensures s.Some? && !IsAnsweredStatus(s.value) ==> r == s.value
  {
    var r := match s
      case None => Unattempted
      case Some(AnsweredAndMarked) => MarkedForReview
      case Some(Attempted) => Unattempted
      case Some(other) => other;
    r
  }

  /*** The per-quiz session state ***/

  /** The question sequence and cursor (kept in the session) and the status and answer records. */
  datatype Session = Session(
    ids: seq<QId>,
    cursor: nat,
    statuses: map<QId, Status>,
    answers: map<QId, Answer>)

  /** Records exist only for questions of the sequence, and the cursor never passes its end. */
  predicate WellFormed(s: Session) {
    && Distinct(s.ids)
    && s.cursor <= |s.ids|
    && (forall q :: q in s.statuses ==> q in s.ids)
    && (forall q :: q in s.answers ==> q in s.ids)
  }

  /** A question has an answer record exactly when its status says it is answered. */
  predicate Agree(s: Session) {
    && (forall q :: q in s.answers ==> q in s.statuses && IsAnsweredStatus(s.statuses[q]))
    && (forall q :: q in s.statuses && IsAnsweredStatus(s.statuses[q]) ==> q in s.answers)
  }

  datatype Action = Next | MarkForReview | ClearAnswer | JumpTo(index: int) | OtherAction

  /** A visit to the take-quiz page, or a form post with its action and raw answer text. */
  datatype Request = ViewPage | Post(action: Action, answer: string)

  /** The message flashed on the rendered page. */
  datatype Notice = NoNotice | MarkedNotice | ClearedNotice | NothingToClearNotice | AnswerRequiredNotice

  /** Where a step leads: the results page, the next question page, or the same page re-rendered. */
  datatype Reply = ToResults | ToQuestion | Render(notice: Notice)

  datatype StepResult = StepResult(session: Session, reply: Reply)

  /**
   * One handled request on the question at the cursor, whose correct answer
   * is `correctAnswer`.
   */
  function Step(s: Session, request: Request, correctAnswer: string): (r: StepResult)
    requires s.cursor < |s.ids|
    ensures r.session.ids == s.ids && r.session.cursor <= |s.ids|
    ensures r.reply == ToResults ==> r.session.cursor == |s.ids|
    ensures r.reply.Render? ==> r.session.cursor == s.cursor
  {
    var q := s.ids[s.cursor];
    match request
    case ViewPage => StepResult(s, Render(NoNotice))
    case Post(action, raw) =>
      var given := Strip(raw);
      match action
      case MarkForReview =>
        StepResult(s.(statuses := s.statuses[q := AfterMark(Get(s.statuses, q))]), Render(MarkedNotice))
      case ClearAnswer =>
        StepResult(
          s.(answers := s.answers - {q}, statuses := s.statuses[q := AfterClear(Get(s.statuses, q))]),
          Render(if q in s.answers then ClearedNotice else NothingToClearNotice))
      case Next =>
        if given == [] then StepResult(s, Render(AnswerRequiredNotice))
        else
          StepResult(
            s.(answers := s.answers[q := Answer(given, Lower(given) == Lower(correctAnswer))],
               statuses := s.statuses[q := AfterSubmit(Get(s.statuses, q))],
               cursor := s.cursor + 1),
            if s.cursor + 1 >= |s.ids| then ToResults else ToQuestion)
      case JumpTo(t) =>
        if 0 <= t < |s.ids| then StepResult(s.(cursor := t), ToQuestion)
        else StepResult(s, Render(NoNotice))
      case OtherAction => StepResult(s, Render(NoNotice))
  }

  /** Viewing the page, or posting an action the view does not know, changes nothing. */
  lemma RenderChangesNothing(s: Session, c: string, raw: string)
    requires s.cursor < |s.ids|
    ensures Step(s, ViewPage, c) == StepResult(s, Render(NoNotice))
    ensures Step(s, Post(OtherAction, raw), c) == StepResult(s, Render(NoNotice))
  {
  }

  /** A step never changes the question sequence and keeps the state well formed. */
  lemma StepKeepsWellFormed(s: Session, request: Request, correctAnswer: string)
    requires WellFormed(s) && s.cursor < |s.ids|
    ensures WellFormed(Step(s, request, correctAnswer).session)
    ensures Step(s, request, correctAnswer).session.ids == s.ids
  {
    var q := s.ids[s.cursor];
    var r := Step(s, request, correctAnswer).session;
    assert q in s.ids;
    assert r.ids == s.ids && r.cursor <= |s.ids|;
    assert forall p :: p in r.statuses ==> p in s.statuses || p == q;
    assert forall p :: p in r.answers ==> p in s.answers || p == q;
  }

  /**
   * A step touches only the records of the question at the cursor, and moves
   * the cursor only on a `next` with a non-blank answer (by one) or on a
   * `jump_to` inside the sequence (to the target).
   */
  lemma StepIsLocal(s: Session, request: Request, correctAnswer: string, p: QId)
    requires s.cursor < |s.ids| && p != s.ids[s.cursor]
    ensures Get(Step(s, request, correctAnswer).session.statuses, p) == Get(s.statuses, p)
    ensures Get(Step(s, request, correctAnswer).session.answers, p) == Get(s.answers, p)
  {
    match request
    case ViewPage =>
    case Post(action, raw) =>
      match action
      case MarkForReview =>
      case ClearAnswer =>
      case Next =>
      case JumpTo(t) =>
      case OtherAction =>
  }

  lemma StepCursor(s: Session, request: Request, correctAnswer: string)
    requires s.cursor < |s.ids|
    ensures Step(s, request, correctAnswer).session.cursor
            == match request
               case Post(Next, raw) => if Strip(raw) != [] then s.cursor + 1 else s.cursor
               case Post(JumpTo(t), _) => if 0 <= t < |s.ids| then t else s.cursor
               case _ => s.cursor
  {
  }

  /**
   * `next` with a non-blank answer stores the stripped answer, judged
   * case-insensitively against the correct answer, marks the question
   * answered (keeping a review mark only from `marked_for_review`) and
   * advances; a blank answer changes nothing.
   */
  lemma SubmitSpec(s: Session, raw: string, correctAnswer: string)
    requires s.cursor < |s.ids|
    ensures var q := s.ids[s.cursor];
            var r := Step(s, Post(Next, raw), correctAnswer);
            && (Strip(raw) == [] ==> r == StepResult(s, Render(AnswerRequiredNotice)))
            && (Strip(raw) != [] ==>
                  && r.session.answers[q].userAnswer == Strip(raw)
                  && (r.session.answers[q].isCorrect <==> Lower(Strip(raw)) == Lower(correctAnswer))
                  && IsAnsweredStatus(r.session.statuses[q])
                  && (IsReview(r.session.statuses[q]) <==> Get(s.statuses, q) == Some(MarkedForReview))
                  && r.session.cursor == s.cursor + 1
                  && (r.reply == ToResults <==> s.cursor + 1 == |s.ids|))
  {
  }

  /**
   * `mark_for_review` rewrites only the status of the question at the
   * cursor (as `AfterMark` says) and keeps every answer and the cursor.
   */
  lemma MarkSpec(s: Session, raw: string, correctAnswer: string)
    requires s.cursor < |s.ids|
    ensures var q := s.ids[s.cursor];
            var r := Step(s, Post(MarkForReview, raw), correctAnswer);
            && r.reply == Render(MarkedNotice)
            && r.session.ids == s.ids && r.session.cursor == s.cursor && r.session.answers == s.answers
            && r.session.statuses.Keys == s.statuses.Keys + {q}
            && r.session.statuses[q] == AfterMark(Get(s.statuses, q))
  {
  }

  /**
   * `clear_answer` deletes the answer of the question at the cursor if
   * there is one, reports whether there was, rewrites that question's
   * status as `AfterClear` says, and keeps the cursor.
   */
  lemma ClearSpec(s: Session, raw: string, correctAnswer: string)
    requires s.cursor < |s.ids|
    ensures var q := s.ids[s.cursor];
            var r := Step(s, Post(ClearAnswer, raw), correctAnswer);
            && r.reply == Render(if q in s.answers then ClearedNotice else NothingToClearNotice)
            && r.session.ids == s.ids && r.session.cursor == s.cursor
            && q !in r.session.answers
            && r.session.answers.Keys == s.answers.Keys - {q}
            && r.session.statuses.Keys == s.statuses.Keys + {q}
            && r.session.statuses[q] == AfterClear(Get(s.statuses, q))
  {
  }

  /**
   * `jump_to` moves the cursor to a target inside the sequence and changes
   * nothing for any other target.
   */
  lemma JumpSpec(s: Session, target: int, raw: string, correctAnswer: string)
    requires s.cursor < |s.ids|
    ensures var r := Step(s, Post(JumpTo(target), raw), correctAnswer);
            && (0 <= target < |s.ids| ==> r == StepResult(s.(cursor := target), ToQuestion))
            && (!(0 <= target < |s.ids|) ==> r == StepResult(s, Render(NoNotice)))
  {
  }

  /**
   * Every step keeps answer records and answered statuses in agreement,
   * except `mark_for_review` on an `answered_and_marked` question.
   */
  lemma StepKeepsAgreement(s: Session, request: Request, correctAnswer: string)
    requires s.cursor < |s.ids| && Agree(s)
    requires request.Post? && request.action == MarkForReview ==> Get(s.statuses, s.ids[s.cursor]) != Some(AnsweredAndMarked)
    ensures Agree(Step(s, request, correctAnswer).session)
  {
    var q := s.ids[s.cursor];
    var r := Step(s, request, correctAnswer).session;
    forall p | p != q
      ensures Get(r.statuses, p) == Get(s.statuses, p) && Get(r.answers, p) == Get(s.answers, p)
    {
      StepIsLocal(s, request, correctAnswer, p);
    }
  }

  /** The exception is real: marking an `answered_and_marked` question again hides its stored answer. */
  lemma RemarkHidesAnswer(raw: string)
    ensures var s := Session([7], 0, map[7 := AnsweredAndMarked], map[7 := Answer("C", true)]);
            var r := Step(s, Post(MarkForReview, raw), "C").session;
            Agree(s) && !Agree(r) && 7 in r.answers && r.statuses[7] == MarkedForReview
  {
    var s := Session([7], 0, map[7 := AnsweredAndMarked], map[7 := Answer("C", true)]);
    var r := Step(s, Post(MarkForReview, raw), "C").session;
    assert r.statuses[7] == MarkedForReview;
    assert !IsAnsweredStatus(r.statuses[7]);
  }

  /*** The progress snapshot ***/

  /** The counts and lookups the take-quiz page shows. */
  datatype ProgressView = ProgressView(
    questionNumber: nat,
    totalQuestions: nat,
    currentIndex: nat,
    statuses: map<QId, Status>,
    attempted: nat,
    marked: nat,
    unattempted: int,
    progress: real,
    currentAnswer: Option<Answer>)

  /** The status records of the questions in `ids`. */
  function StatusesIn(ids: seq<QId>, statuses: map<QId, Status>): map<QId, Status> {
    map q | q in ids && q in statuses :: statuses[q]
  }

  /** The questions in `ids` that have an answer record. */
  function AnsweredIn(ids: seq<QId>, answers: map<QId, Answer>): set<QId> {
    set q | q in ids && q in answers
  }

  lemma InExtended(ids: seq<QId>, q: QId, statuses: map<QId, Status>, answers: map<QId, Answer>)
    ensures StatusesIn(ids + [q], statuses)
            == if q in statuses then StatusesIn(ids, statuses)[q := statuses[q]] else StatusesIn(ids, statuses)
    ensures AnsweredIn(ids + [q], answers)
            == if q in answers then AnsweredIn(ids, answers) + {q} else AnsweredIn(ids, answers)
  {
    assert forall p :: p in ids + [q] <==> p in ids || p == q;
  }

  /**
   * The status dictionary and the answered-question set of the take-quiz
   * page, gathered in one pass over the question sequence.
   */
  method CollectRecords(ids: seq<QId>, statuses: map<QId, Status>, answers: map<QId, Answer>)
    returns (view: map<QId, Status>, answered: set<QId>)
    ensures view == StatusesIn(ids, statuses)
    ensures answered == AnsweredIn(ids, answers)
  {
    view, answered := map[], {};
    var i := 0;
    while i < |ids|
      invariant 0 <= i <= |ids|
      invariant view == StatusesIn(ids[..i], statuses)
      invariant answered == AnsweredIn(ids[..i], answers)
    {
      var q := ids[i];
      assert ids[..i + 1] == ids[..i] + [q];
      InExtended(ids[..i], q, statuses, answers);
      if q in statuses {
        view := view[q := statuses[q]];
      }
      if q in answers {
        answered := answered + {q};
      }
      i := i + 1;
    }
    assert ids[..i] == ids;
  }

  /**
   * How many of the status records contain "marked": exactly the records
   * that carry a review mark.
   */
  function MarkedCount(statuses: map<QId, Status>): (n: nat)
    ensures n <= |statuses|
    ensures n == |set q | q in statuses && IsReview(statuses[q])|
  {
    var marked := set q | q in statuses && IsMarked(statuses[q]);
    forall q | q in statuses
      ensures IsMarked(statuses[q]) <==> IsReview(statuses[q])
    {
      MarkedStatuses(statuses[q]);
    }
    assert marked == set q | q in statuses && IsReview(statuses[q]);
    SubsetCardinality(marked, statuses.Keys);
    |marked|
  }

  /** The page's figures, read off the state. */
  function ViewOf(s: Session): (v: ProgressView)
    requires s.cursor < |s.ids|
    ensures v.questionNumber == s.cursor + 1 <= v.totalQuestions == |s.ids|
    ensures v.attempted + v.unattempted == |s.ids|
    ensures v.marked <= |v.statuses|
    ensures v.marked == |set q | q in v.statuses && IsReview(v.statuses[q])|
    ensures v.currentAnswer == Get(s.answers, s.ids[s.cursor])
  {
    var statuses := StatusesIn(s.ids, s.statuses);
    var attempted := |AnsweredIn(s.ids, s.answers)|;
    ProgressView(
      s.cursor + 1,
      |s.ids|,
      s.cursor,
      statuses,
      attempted,
      MarkedCount(statuses),
      |s.ids| - attempted,
      (s.cursor + 1) as real / |s.ids| as real * 100.0,
      Get(s.answers, s.ids[s.cursor]))
  }

  /**
   * On a well-formed state the snapshot shows every status record,
   * counts one attempt per answer record, never a negative number of
   * unattempted questions, and a progress inside (0, 100].
   */
  lemma ViewOfWellFormed(s: Session)
    requires WellFormed(s) && s.cursor < |s.ids|
    ensures ViewOf(s).statuses == s.statuses
    ensures ViewOf(s).attempted == |s.answers|
    ensures 0 <= ViewOf(s).unattempted == |s.ids| - |s.answers|
    ensures ViewOf(s).marked <= |s.statuses| <= |s.ids|
    ensures ViewOf(s).marked == |set q | q in s.statuses && IsReview(s.statuses[q])|
    ensures 0.0 < ViewOf(s).progress <= 100.0
  {
    assert StatusesIn(s.ids, s.statuses) == s.statuses by {
      assert forall q :: q in StatusesIn(s.ids, s.statuses) <==> q in s.statuses;
    }
    assert AnsweredIn(s.ids, s.answers) == s.answers.Keys;
    assert |s.answers| <= |s.ids| && |s.statuses| <= |s.ids| by {
      DistinctCardinality(s.ids);
      SubsetCardinality(s.answers.Keys, Elements(s.ids));
      SubsetCardinality(s.statuses.Keys, Elements(s.ids));
    }
    ProgressAtMostHundred(s.cursor, |s.ids|);
  }

  lemma ProgressAtMostHundred(cursor: nat, total: nat)
    requires cursor < total
    ensures 0.0 < (cursor + 1) as real / total as real * 100.0 <= 100.0
  {
    var n := total as real;
    var k := (cursor + 1) as real;
    assert k / n <= 1.0 by {
      assert (k / n) * n == k;
    }
  }

  /*** Starting a quiz ***/

  /** What `random.sample(pool, n)` returns: `n` distinct members of the pool. */
  predicate IsSample(draw: seq<QId>, pool: set<QId>, n: nat) {
    |draw| == n && Distinct(draw) && forall i :: 0 <= i < |draw| ==> draw[i] in pool
  }

  /** A pool of at least `n` questions always admits a sample of `n`. */
  lemma {:induction false} SampleExists(pool: set<QId>, n: nat)
    requires n <= |pool|
    ensures exists draw :: IsSample(draw, pool, n)
  {
    if n == 0 {
      assert IsSample([], pool, 0);
    } else {
      var x :| x in pool;
      SampleExists(pool - {x}, n - 1);
      var rest :| IsSample(rest, pool - {x}, n - 1);
      assert IsSample([x] + rest, pool, n);
    }
  }

  /**
   * The count check of `start_quiz`/`start_book_quiz`: the eligible pool, or
   * the number of eligible questions when it is short of `numQuestions`.
   */
  function CheckAvailable(store: Store, source: Source, filter: DifficultyFilter, numQuestions: nat): (r: Result<set<QId>, nat>)
    ensures r.Err? <==> |QuestionsForSource(store, Some(source), filter)| < numQuestions
    ensures r.Err? ==> r.error == |QuestionsForSource(store, Some(source), filter)| < numQuestions
    ensures r.Ok? ==> r.value == QuestionsForSource(store, Some(source), filter) && numQuestions <= |r.value|
  {
    var pool := QuestionsForSource(store, Some(source), filter);
    if |pool| < numQuestions then Err(|pool|) else Ok(pool)
  }

  /*** The quiz record and its session ***/

  class Quiz {
    const user: UserId
    const chapter: Option<ChapterId>
    const book: Option<BookId>
    const totalQuestions: nat
    const durationMinutes: nat
    /** The question sequence drawn at creation; the session holds it until sealing. */
    ghost const drawn: seq<QId>

    var isCompleted: bool
    var score: Option<real>
    var correctAnswers: nat
    var endTime: Option<int>
    var answers: map<QId, Answer>
    var statuses: map<QId, Status>
    var sessionIds: seq<QId>
    var cursor: nat

    ghost predicate Valid()
      reads this
    {
      && EitherChapterOrBook(chapter, book)
      && |drawn| == totalQuestions
      && WellFormed(Session(drawn, cursor, statuses, answers))
      && (!isCompleted ==>
            && sessionIds == drawn
            && score.None? && correctAnswers == 0 && endTime.None?)
      && (isCompleted ==>
            && sessionIds == [] && cursor == 0 && endTime.Some?
            && score == Some(GetScoreBreakdown(answers, totalQuestions).percentage)
            && correctAnswers == GetScoreBreakdown(answers, totalQuestions).correct)
    }

    function State(): Session
      reads this
    {
      Session(sessionIds, cursor, statuses, answers)
    }

    /** `Quiz.objects.create(...)` followed by storing the sequence and a cursor of 0 in the session. */
    constructor (user: UserId, source: Source, durationMinutes: nat, draw: seq<QId>)
      requires Distinct(draw)
      ensures Valid()
      ensures this.user == user && this.durationMinutes == durationMinutes
      ensures GetQuizSource(chapter, book) == Some(source)
      ensures totalQuestions == |draw| && drawn == draw
      ensures State() == Session(draw, 0, map[], map[])
      ensures !isCompleted && score.None? && correctAnswers == 0 && endTime.None?
    {
      this.user := user;
      match source {
        case ChapterSource(c) =>
          chapter := Some(c);
          book := None;
        case BookSource(b) =>
          chapter := None;
          book := Some(b);
      }
      this.durationMinutes := durationMinutes;
      totalQuestions := |draw|;
      drawn := draw;
      isCompleted := false;
      score := None;
      correctAnswers := 0;
      endTime := None;
      answers := map[];
      statuses := map[];
      sessionIds := draw;
      cursor := 0;
    }

    /** The figures of the take-quiz page. */
    method Snapshot() returns (v: ProgressView)
      requires Valid() && !isCompleted && cursor < |sessionIds|
      ensures v == ViewOf(State())
    {
      var view, answered := CollectRecords(sessionIds, statuses, answers);
      var marked := MarkedCount(view);
      var total := |sessionIds|;
      v := ProgressView(
        cursor + 1, total, cursor, view, |answered|, marked, total - |answered|,
        (cursor + 1) as real / total as real * 100.0,
        Get(answers, sessionIds[cursor]));
    }

    /**
     * `take_quiz`: refuses another user's or a completed quiz, sends an
     * exhausted session to the results, and otherwise handles the request on
     * the question at the cursor as `Step` says.
     */
    method TakeQuiz(store: Store, requester: UserId, request: Request) returns (outcome: TakeOutcome)
      requires Valid()
      modifies this`answers, this`statuses, this`cursor
      ensures Valid()
      ensures requester != user || old(isCompleted) ==> outcome == NotFound && unchanged(this)
      ensures requester == user && !old(isCompleted) && old(cursor) >= |old(sessionIds)| ==>
                outcome == ShowResults && unchanged(this)
      ensures (&& requester == user && !old(isCompleted) && old(cursor) < |old(sessionIds)|
               && old(sessionIds[cursor]) !in store.questions) ==> outcome == NotFound && unchanged(this)
      ensures (&& requester == user && !old(isCompleted) && old(cursor) < |old(sessionIds)|
               && old(sessionIds[cursor]) in store.questions) ==>
                var r := Step(old(State()), request, store.questions[old(sessionIds[cursor])].correctAnswer);
                && State() == r.session
                && outcome == (match r.reply
                               case ToResults => ShowResults
                               case ToQuestion => ShowQuestion
                               case Render(n) => Page(ViewOf(r.session), n))
    {
      if requester != user || isCompleted {
        return NotFound;
      }
      if sessionIds == [] || cursor >= |sessionIds| {
        return ShowResults;
      }
      var q := sessionIds[cursor];
      if q !in store.questions {
        return NotFound;
      }
      var correct := store.questions[q].correctAnswer;
      ghost var before := State();
      StepKeepsWellFormed(before, request, correct);
      var reply := Handle(request, correct);
      match reply {
        case ToResults => outcome := ShowResults;
        case ToQuestion => outcome := ShowQuestion;
        case Render(notice) =>
          var view := Snapshot();
          outcome := Page(view, notice);
      }
    }

    /** The request handling of `take_quiz` on the question at the cursor. */
    method Handle(request: Request, correct: string) returns (reply: Reply)
      requires cursor < |sessionIds|
      modifies this`answers, this`statuses, this`cursor
      ensures StepResult(State(), reply) == Step(old(State()), request, correct)
    {
      match request {
        case ViewPage =>
          reply := Render(NoNotice);
        case Post(action, raw) =>
          match action {
            case MarkForReview => reply := MarkCurrent(raw, correct);
            case ClearAnswer => reply := ClearCurrent(raw, correct);
            case Next => reply := SubmitCurrent(raw, correct);
            case JumpTo(target) => reply := JumpCursor(target, raw, correct);
            case OtherAction => reply := Render(NoNotice);
          }
      }
    }

    /** `mark_for_review`: the status of the question at the cursor becomes a review status. */
    method MarkCurrent(raw: string, correct: string) returns (reply: Reply)
      requires cursor < |sessionIds|
      modifies this`statuses
      ensures StepResult(State(), reply) == Step(old(State()), Post(MarkForReview, raw), correct)
    {
      var q := sessionIds[cursor];
      statuses := statuses[q := AfterMark(Get(statuses, q))];
      reply := Render(MarkedNotice);
    }

    /** `clear_answer`: the answer record of the question at the cursor is deleted if present. */
    method ClearCurrent(raw: string, correct: string) returns (reply: Reply)
      requires cursor < |sessionIds|
      modifies this`answers, this`statuses
      ensures StepResult(State(), reply) == Step(old(State()), Post(ClearAnswer, raw), correct)
    {
      var q := sessionIds[cursor];
      var notice := NothingToClearNotice;
      if q in answers {
        answers := answers - {q};
        notice := ClearedNotice;
      } else {
        assert answers - {q} == answers;
      }
      statuses := statuses[q := AfterClear(Get(statuses, q))];
      reply := Render(notice);
    }

    /** `next`: a non-blank answer is recorded and graded and the cursor advances. */
    method SubmitCurrent(raw: string, correct: string) returns (reply: Reply)
      requires cursor < |sessionIds|
      modifies this`answers, this`statuses, this`cursor
      ensures StepResult(State(), reply) == Step(old(State()), Post(Next, raw), correct)
    {
      var q := sessionIds[cursor];
      var given := Strip(raw);
      if given == [] {
        return Render(AnswerRequiredNotice);
      }
      answers := answers[q := Answer(given, Lower(given) == Lower(correct))];
      statuses := statuses[q := AfterSubmit(Get(statuses, q))];
      cursor := cursor + 1;
      if cursor >= |sessionIds| {
        reply := ToResults;
      } else {
        reply := ToQuestion;
      }
    }

    /** `jump_to`: a target inside the sequence becomes the cursor. */
    method JumpCursor(target: int, raw: string, correct: string) returns (reply: Reply)
      requires cursor < |sessionIds|
      modifies this`cursor
      ensures StepResult(State(), reply) == Step(old(State()), Post(JumpTo(target), raw), correct)
    {
      if 0 <= target < |sessionIds| {
        cursor := target;
        reply := ToQuestion;
      } else {
        reply := Render(NoNotice);
      }
    }

    /**
     * `quiz_results`: refuses another user's quiz; seals an open quiz once,
     * storing its percentage score, correct count and end time and dropping
     * its session; and reports the breakdown of the stored answers. A sealed
     * quiz is left exactly as it is.
     */
    method Results(requester: UserId, now: int) returns (r: Option<ScoreBreakdown>)
      requires Valid()
      modifies this`isCompleted, this`score, this`correctAnswers, this`endTime, this`sessionIds, this`cursor
      ensures Valid()
      ensures requester != user ==> r.None?
      ensures requester == user ==> r == Some(GetScoreBreakdown(answers, totalQuestions)) && isCompleted
      ensures requester != user || old(isCompleted) ==> unchanged(this)
      ensures requester == user && !old(isCompleted) ==>
                && score == Some(GetScoreBreakdown(answers, totalQuestions).percentage)
                && correctAnswers == GetScoreBreakdown(answers, totalQuestions).correct
                && endTime == Some(now)
                && sessionIds == [] && cursor == 0
    {
      if requester != user {
        return None;
      }
      if !isCompleted {
        var b := GetScoreBreakdown(answers, totalQuestions);
        endTime := Some(now);
        score := Some(b.percentage);
        correctAnswers := b.correct;
        isCompleted := true;
        sessionIds := [];
        cursor := 0;
      }
      r := Some(GetScoreBreakdown(answers, totalQuestions));
    }
  }

  datatype TakeOutcome = NotFound | ShowResults | ShowQuestion | Page(view: ProgressView, notice: Notice)

  datatype StartOutcome = SourceNotFound | NotEnoughQuestions(available: nat) | Started(quiz: Quiz)

  /**
   * `start_quiz` and `start_book_quiz` after the selection form is valid:
   * a chapter or book that is not in the store is not found; with too few
   * eligible questions nothing is created and the eligible count is
   * reported; otherwise a quiz over the sampled sequence is created with
   * its cursor at 0. `draw` is the result of `random.sample`.
   */
  method StartQuiz(store: Store, user: UserId, source: Source, filter: DifficultyFilter,
                   numQuestions: nat, durationMinutes: nat, draw: seq<QId>) returns (r: StartOutcome)
    requires numQuestions <= |QuestionsForSource(store, Some(source), filter)| ==>
               IsSample(draw, QuestionsForSource(store, Some(source), filter), numQuestions)
    ensures r.SourceNotFound? <==> !SourceExists(store, source)
    ensures r.NotEnoughQuestions? <==> SourceExists(store, source) && |QuestionsForSource(store, Some(source), filter)| < numQuestions
    ensures r.NotEnoughQuestions? ==> r.available == |QuestionsForSource(store, Some(source), filter)|
    ensures r.Started? ==>
              && fresh(r.quiz) && r.quiz.Valid()
              && r.quiz.user == user && r.quiz.durationMinutes == durationMinutes
              && GetQuizSource(r.quiz.chapter, r.quiz.book) == Some(source)
              && r.quiz.totalQuestions == numQuestions
              && r.quiz.State() == Session(draw, 0, map[], map[])
              && !r.quiz.isCompleted
              && |draw| == numQuestions && Distinct(draw)
              && forall i :: 0 <= i < |draw| ==> draw[i] in QuestionsForSource(store, Some(source), filter)
  {
    if !SourceExists(store, source) {
      return SourceNotFound;
    }
    match CheckAvailable(store, source, filter, numQuestions) {
      case Err(available) =>
        r := NotEnoughQuestions(available);
      case Ok(pool) =>
        var quiz := new Quiz(user, source, durationMinutes, draw);
        r := Started(quiz);
    }
  }

  /** A sealed quiz's stored score is a percentage between 0 and 100. */
  lemma SealedScoreInRange(quiz: Quiz)
    requires quiz.Valid() && quiz.isCompleted
    ensures quiz.score.Some? && 0.0 <= quiz.score.value <= 100.0
  {
    var b := GetScoreBreakdown(quiz.answers, quiz.totalQuestions);
    DistinctCardinality(quiz.drawn);
    SubsetCardinality(quiz.answers.Keys, Elements(quiz.drawn));
    SubsetCardinality(CorrectIds(quiz.answers), quiz.answers.Keys);
  }
}
