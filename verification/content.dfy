/**
 * The content store (books, chapters and questions) as read by the quiz
 * engine, and the resolution of a quiz source plus a difficulty filter to
 * the set of eligible question ids.
 */
module Content {
  import opened Util

  type QId = nat
  type ChapterId = nat
  type BookId = nat

  /** The three difficulty tiers a question can carry. */
  datatype Difficulty = Easy | Medium | Hard

  datatype Question = Question(
    chapter: ChapterId,
    text: string,
    options: map<string, string>,
    correctAnswer: string,
    explanation: string,
    difficulty: Difficulty)

  datatype Chapter = Chapter(book: BookId, title: string, number: nat)

  /** The ids of the book table and the rows of the chapter and question tables, keyed by id. */
  datatype Store = Store(books: set<BookId>, chapters: map<ChapterId, Chapter>, questions: map<QId, Question>)

  /** What a quiz draws from: one chapter, or every chapter of one book. */
  datatype Source = ChapterSource(chapter: ChapterId) | BookSource(book: BookId)

  /** The chapter or book a source names is a row of the store. */
  predicate SourceExists(store: Store, source: Source) {
    match source
    case ChapterSource(c) => c in store.chapters
    case BookSource(b) => b in store.books
  }

  /** The difficulty choice of the quiz selection form: `all` or one tier. */
  datatype DifficultyFilter = AllDifficulties | OnlyDifficulty(level: Difficulty)

  /** Whether question `q` belongs to `source`; a book owns the questions of its chapters. */
  predicate InScope(store: Store, q: Question, source: Source) {
    match source
    case ChapterSource(c) => q.chapter == c
    case BookSource(b) => q.chapter in store.chapters && store.chapters[q.chapter].book == b
  }

  predicate Passes(q: Question, filter: DifficultyFilter) {
    filter.AllDifficulties? || q.difficulty == filter.level
  }

  /**
   * `get_questions_for_source(source, difficulty)`: the ids of the questions
   * in scope that pass the filter; anything that is neither a chapter nor a
   * book (`None` here) yields no questions.
   */
  function QuestionsForSource(store: Store, source: Option<Source>, filter: DifficultyFilter): (r: set<QId>)
    ensures r <= store.questions.Keys
    ensures source.None? ==> r == {}
  {
    match source
    case None => {}
    case Some(s) =>
      set id | id in store.questions && InScope(store, store.questions[id], s) && Passes(store.questions[id], filter)
  }

  /** With `all`, every question in scope is eligible. */
  lemma AllKeepsWholeScope(store: Store, s: Source, id: QId)
    ensures id in QuestionsForSource(store, Some(s), AllDifficulties)
            <==> id in store.questions && InScope(store, store.questions[id], s)
  {
  }

  /** With one tier, exactly the in-scope questions of that tier are eligible. */
  lemma TierRestrictsScope(store: Store, source: Option<Source>, d: Difficulty)
    ensures QuestionsForSource(store, source, OnlyDifficulty(d))
            == set id | id in QuestionsForSource(store, source, AllDifficulties)
                        && store.questions[id].difficulty == d
  {
  }

  /**
   * The three tiers split the scope: their eligible sets are disjoint and
   * their sizes add up to the size of the whole scope.
   */
  lemma TiersPartitionScope(store: Store, source: Option<Source>)
    ensures var all := QuestionsForSource(store, source, AllDifficulties);
            var easy := QuestionsForSource(store, source, OnlyDifficulty(Easy));
            var medium := QuestionsForSource(store, source, OnlyDifficulty(Medium));
            var hard := QuestionsForSource(store, source, OnlyDifficulty(Hard));
            && all == easy + medium + hard
            && easy !! medium && easy !! hard && medium !! hard
            && |all| == |easy| + |medium| + |hard|
  {
    var all := QuestionsForSource(store, source, AllDifficulties);
    var easy := QuestionsForSource(store, source, OnlyDifficulty(Easy));
    var medium := QuestionsForSource(store, source, OnlyDifficulty(Medium));
    var hard := QuestionsForSource(store, source, OnlyDifficulty(Hard));
    assert all == easy + medium + hard by {
      forall id | id in all ensures id in easy + medium + hard {
        match store.questions[id].difficulty
        case Easy => assert id in easy;
        case Medium => assert id in medium;
        case Hard => assert id in hard;
      }
    }
    assert |easy + medium| == |easy| + |medium|;
    assert (easy + medium) !! hard;
  }

  /** A book's eligible questions are the union of its chapters' eligible questions. */
  lemma BookIsUnionOfChapters(store: Store, b: BookId, filter: DifficultyFilter, id: QId)
    ensures id in QuestionsForSource(store, Some(BookSource(b)), filter)
            <==> exists c :: c in store.chapters && store.chapters[c].book == b
                             && id in QuestionsForSource(store, Some(ChapterSource(c)), filter)
  {
    if id in QuestionsForSource(store, Some(BookSource(b)), filter) {
      var c := store.questions[id].chapter;
      assert c in store.chapters && id in QuestionsForSource(store, Some(ChapterSource(c)), filter);
    }
  }
}
