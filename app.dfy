/** The quiz session of app.js: category selection, start, answering, moving
    on, results. Rendering is reduced to the `Screen` value each step shows. */
module Quiz {
  import opened Seqs
  import opened QuizDb
  import opened Shuffling

  /** What the page shows after a step. */
  datatype Screen =
    | CategorySelection
    | QuizScreen(questionNumber: nat, questionCount: nat, score: nat, prompt: string, answers: seq<string>)
    | ResultsScreen(score: nat, questionCount: nat)

  /** How `startQuiz` ends: at one of its two early returns (each shows an
      alert), or with the first question on screen. */
  datatype StartOutcome =
    | NoCategorySelected
    | NoQuestionsFound
    | Started(screen: Screen)

  /** The answers offered for `q`: the correct one followed by the incorrect
      ones, shuffled. Each is offered exactly as often as it occurs there, so
      the correct answer is always among them. */
  function AnswerChoices(q: Question, pick: nat -> nat): (r: seq<string>)
    requires IndicesInRange(pick)
    ensures multiset(r) == multiset([q.correctAnswer] + q.incorrectAnswers)
    ensures q.correctAnswer in r
  {
    var all := [q.correctAnswer] + q.incorrectAnswers;
    ShuffledPermutes(all, pick);
    assert q.correctAnswer in multiset(all);
    Shuffled(all, pick)
  }

  /** The category list after unchecking `value`: every occurrence removed. */
  function Unchecked(selected: seq<string>, value: string): (r: seq<string>)
    ensures value !in r
    ensures forall c :: c != value ==> (c in r <==> c in selected)
  {
    Filter(selected, c => c != value)
  }

  /** Unchecking keeps every other entry as often as it was there ... */
  lemma UncheckedKeepsOthers(selected: seq<string>, value: string, c: string)
    requires c != value
    ensures multiset(Unchecked(selected, value))[c] == multiset(selected)[c]
  {
    FilterCount(selected, c => c != value, c);
  }

  /** ... and in the order it was in. */
  lemma UncheckedKeepsOrder(front: seq<string>, back: seq<string>, value: string)
    ensures Unchecked(front + back, value) == Unchecked(front, value) + Unchecked(back, value)
  {
    FilterAppend(front, back, c => c != value);
  }

  /** Checking a box and unchecking it again leaves the list without that
      value and otherwise as it was. */
  lemma CheckThenUncheck(selected: seq<string>, value: string)
    ensures Unchecked(selected + [value], value) == Unchecked(selected, value)
  {
    UncheckedKeepsOrder(selected, [value], value);
    FilterEmpty([value], c => c != value);
  }

  /** The quiz session (class `MathQuiz`). `currentQuestion` is not stored:
      it is `questions[currentQuestionIndex]` while a question is on screen. */
  class MathQuiz {
    const db: QuizDB
    var currentQuestionIndex: nat
    var score: nat
    var selectedCategories: seq<string>
    var questions: array<Question>

    /** The database is open and has its `questions` store. */
    ghost predicate Valid()
      reads db, db.questions
    {
      db.Valid() && "questions" in db.objectStores
    }

    constructor (db: QuizDB)
      ensures this.db == db
      ensures currentQuestionIndex == 0 && score == 0
      ensures selectedCategories == ["arithmetic"]
      ensures fresh(questions) && questions.Length == 0
    {
      this.db := db;
      currentQuestionIndex := 0;
      score := 0;
      selectedCategories := ["arithmetic"];
      questions := new Question[0];
    }

    /** `initializeApp`: open the database (running the upgrade step), then
        seed it from the question bank. */
    method InitializeApp(seed: seq<Question>)
      requires db.Valid()
      modifies db, db.questions
      ensures Valid()
      ensures db.objectStores == Upgraded(old(db.objectStores))
      ensures db.questions.records == PutAll(old(db.questions.records), seed)
    {
      db.Init();
      db.StoreQuestions(seed);
    }

    /** The change handler of a category checkbox. */
    method ToggleCategory(value: string, checked: bool)
      modifies this`selectedCategories
      ensures checked ==> selectedCategories == old(selectedCategories) + [value]
      ensures !checked ==> selectedCategories == Unchecked(old(selectedCategories), value)
    {
      if checked {
        selectedCategories := selectedCategories + [value];
      } else {
        selectedCategories := Unchecked(selectedCategories, value);
      }
    }

    /** The question on screen. */
    function CurrentQuestion(): (q: Question)
      reads this, questions
      requires currentQuestionIndex < questions.Length
      ensures q in questions[..]
    {
      questions[currentQuestionIndex]
    }

    /** The screen `displayQuestion` shows for the answer order `pick` draws. */
    function QuestionScreen(pick: nat -> nat): (s: Screen)
      reads this, questions
      requires currentQuestionIndex < questions.Length && IndicesInRange(pick)
      ensures s.QuizScreen? && 0 < s.questionNumber <= s.questionCount
    {
      QuizScreen(currentQuestionIndex + 1, questions.Length, score,
                 CurrentQuestion().question, AnswerChoices(CurrentQuestion(), pick))
    }

    /** `shuffleArray`: Fisher-Yates, from the last position down to the
        second, swapping position i with the drawn position pick(i). */
    static method ShuffleArray<T>(a: array<T>, pick: nat -> nat)
      requires IndicesInRange(pick)
      modifies a
      ensures a[..] == Shuffled(old(a[..]), pick)
      ensures multiset(a[..]) == multiset(old(a[..]))
      ensures a.Length <= 1 ==> a[..] == old(a[..])
    {
      ghost var original := a[..];
      var i := a.Length - 1;
      while i > 0
        invariant -1 <= i < a.Length
        invariant a.Length > 0 ==> 0 <= i
        invariant ShuffleDown(a[..], pick, i) == Shuffled(original, pick)
      {
        var j := pick(i);
        ghost var before := a[..];
        a[i], a[j] := a[j], a[i];
        assert a[..] == Swap(before, i, j);
        i := i - 1;
      }
      assert a[..] == Shuffled(original, pick);
      ShuffledPermutes(original, pick);
    }

    /** `displayQuestion`: the current question with its answers in a freshly
        shuffled order. */
    method DisplayQuestion(pick: nat -> nat) returns (screen: Screen)
      requires currentQuestionIndex < questions.Length && IndicesInRange(pick)
      ensures screen == QuestionScreen(pick)
      ensures screen.QuizScreen? && CurrentQuestion().correctAnswer in screen.answers
      ensures multiset(screen.answers)
              == multiset([CurrentQuestion().correctAnswer] + CurrentQuestion().incorrectAnswers)
    {
      var q := questions[currentQuestionIndex];
      var all := [q.correctAnswer] + q.incorrectAnswers;
      var allAnswers := new string[|all|](i requires 0 <= i < |all| => all[i]);
      assert allAnswers[..] == all;
      ShuffleArray(allAnswers, pick);
      screen := QuizScreen(currentQuestionIndex + 1, questions.Length, score, q.question, allAnswers[..]);
    }

    /** `startQuiz`. */
    method StartQuiz(pickQuestion: nat -> nat, pickAnswer: nat -> nat) returns (outcome: StartOutcome)
      requires Valid() && IndicesInRange(pickQuestion) && IndicesInRange(pickAnswer)
      modifies this
      ensures Valid() && selectedCategories == old(selectedCategories)
      // no category selected: nothing changes
      ensures old(selectedCategories) == [] ==>
                outcome == NoCategorySelected && questions == old(questions)
                && currentQuestionIndex == old(currentQuestionIndex) && score == old(score)
      // otherwise `questions` holds the matching records, in a shuffled order
      ensures old(selectedCategories) != [] ==>
                fresh(questions)
                && questions[..] == Shuffled(db.GetQuestionsByCategory(selectedCategories), pickQuestion)
                && multiset(questions[..]) == multiset(db.GetQuestionsByCategory(selectedCategories))
      // none match: index and score are left as they were
      ensures old(selectedCategories) != [] && questions.Length == 0 ==>
                outcome == NoQuestionsFound
                && currentQuestionIndex == old(currentQuestionIndex) && score == old(score)
      // some match: a new session starts at the first question
      ensures old(selectedCategories) != [] && questions.Length > 0 ==>
                currentQuestionIndex == 0 && score == 0
                && outcome == Started(QuestionScreen(pickAnswer))
    {
      if |selectedCategories| == 0 {
        return NoCategorySelected;
      }
      var found := db.GetQuestionsByCategory(selectedCategories);
      questions := new Question[|found|](i requires 0 <= i < |found| => found[i]);
      assert questions[..] == found;
      assert db.GetQuestionsByCategory(selectedCategories) == found;
      if questions.Length == 0 {
        return NoQuestionsFound;
      }
      ShuffleArray(questions, pickQuestion);
      assert db.GetQuestionsByCategory(selectedCategories) == found;
      currentQuestionIndex := 0;
      score := 0;
      var screen := DisplayQuestion(pickAnswer);
      return Started(screen);
    }

    /** `selectAnswer`: one point for the correct answer, none otherwise; it
        does not move to the next question. */
    method SelectAnswer(selected: string)
      requires currentQuestionIndex < questions.Length
      modifies this`score
      ensures selected == CurrentQuestion().correctAnswer ==> score == old(score) + 1
      ensures selected != CurrentQuestion().correctAnswer ==> score == old(score)
      ensures currentQuestionIndex == old(currentQuestionIndex)
    {
      if selected == questions[currentQuestionIndex].correctAnswer {
        score := score + 1;
      }
    }

    /** `nextQuestion`: advance; show the next question, or the results once
        past the last one. */
    method NextQuestion(pick: nat -> nat) returns (screen: Screen)
      requires IndicesInRange(pick)
      modifies this`currentQuestionIndex
      ensures currentQuestionIndex == old(currentQuestionIndex) + 1 && score == old(score)
      ensures currentQuestionIndex < questions.Length ==> screen == QuestionScreen(pick)
      ensures currentQuestionIndex >= questions.Length ==> screen == ResultsScreen(score, questions.Length)
    {
      currentQuestionIndex := currentQuestionIndex + 1;
      if currentQuestionIndex < questions.Length {
        screen := DisplayQuestion(pick);
      } else {
        screen := ResultsScreen(score, questions.Length);
      }
    }

    /** The restart button: back to category selection. No field is reset, so
        the selected categories carry over to the next quiz. */
    method Restart() returns (screen: Screen)
      ensures screen == CategorySelection
    {
      screen := CategorySelection;
    }
  }
}
