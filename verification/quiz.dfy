/** The flashcard quiz session: like the practice loop, but one pass only;
    moving past the last question ends the quiz instead of wrapping. */
module Quiz {
  import opened Types
  import opened QuizGen
  import OptionView

  datatype QuizState = QuizState(
    questions: seq<QuizQuestion>,
    index: nat,
    selected: Option<nat>,
    score: nat,
    shown: bool,
    finished: bool)

  /** User actions on the question screen. */
  datatype Event = Choose(option: nat) | CheckAnswer | NextQuestion

  /** `startNewQuiz`: a freshly generated quiz, at its first question, with
      nothing chosen, nothing revealed and no points. Also the "Play Again"
      action. */
  function StartNewQuiz(cards: seq<FlashcardData>, order: seq<nat>, dperms: seq<seq<nat>>, operms: seq<seq<nat>>): (s: QuizState)
    requires QuizShufflesFit(cards, order, dperms, operms)
    ensures |s.questions| == |cards|
    ensures s.index == 0 && s.selected == None && s.score == 0 && !s.shown && !s.finished
    ensures Inv(s)
  {
    QuizState(GenerateQuiz(cards, order, dperms, operms), 0, None, 0, false, false)
  }

  function Select(s: QuizState, option: nat): (r: QuizState)
    ensures s.shown ==> r == s
    ensures !s.shown ==> r.selected == Some(option) && r == s.(selected := r.selected)
  {
    if s.shown then s else s.(selected := Some(option))
  }

  /** Confirming the choice: without a choice nothing happens; otherwise the
      answer is revealed and one point is added exactly when it is correct. */
  function Check(s: QuizState): (r: QuizState)
    requires s.index < |s.questions|
    ensures s.selected == None ==> r == s
    ensures s.selected != None ==>
              r.shown && r.index == s.index && r.selected == s.selected
              && r.questions == s.questions && r.finished == s.finished
    ensures s.selected != None ==>
              (r.score == s.score + 1 <==> s.selected.value == s.questions[s.index].correctAnswerIndex)
    ensures r.score == s.score || r.score == s.score + 1
  {
    if s.selected == None then s
    else
      var r := s.(shown := true);
      if s.selected.value == s.questions[s.index].correctAnswerIndex then r.(score := s.score + 1) else r
  }

  /** Moving on: before the last question the index advances and choice and
      reveal are cleared; on the last one the quiz is finished and nothing
      else changes. */
  function Next(s: QuizState): (r: QuizState)
    ensures r.questions == s.questions && r.score == s.score
    ensures s.index + 1 < |s.questions| ==>
              r.index == s.index + 1 && r.selected == None && !r.shown && r.finished == s.finished
    ensures s.index + 1 >= |s.questions| ==> r == s.(finished := true)
  {
    if s.index < |s.questions| - 1 then
      s.(index := s.index + 1, selected := None, shown := false)
    else
      s.(finished := true)
  }

  function OptionClass(s: QuizState, i: nat): (c: OptionView.OptionClass)
    requires s.index < |s.questions|
    ensures c == OptionView.Correct <==> s.shown && i == s.questions[s.index].correctAnswerIndex
    ensures c == OptionView.Incorrect <==>
              s.shown && s.selected == Some(i) && i != s.questions[s.index].correctAnswerIndex
    ensures c == OptionView.Selected <==> !s.shown && s.selected == Some(i)
  {
    OptionView.Classify(s.shown, s.selected, s.questions[s.index].correctAnswerIndex, i)
  }

  /** The question screen is shown only while the quiz has questions and is
      not finished; on it, the option buttons are disabled after the reveal,
      "Check Answer" is rendered before the reveal and disabled without a
      choice, "Next Question"/"Finish Quiz" is rendered after the reveal. */
  predicate Enabled(s: QuizState, e: Event) {
    && !s.finished
    && s.index < |s.questions|
    && match e
       case Choose(o) => !s.shown && o < |s.questions[s.index].options|
       case CheckAnswer => !s.shown && s.selected != None
       case NextQuestion => s.shown
  }

  function Dispatch(s: QuizState, e: Event): QuizState {
    if !Enabled(s, e) then s
    else match e
      case Choose(o) => Select(s, o)
      case CheckAnswer => Check(s)
      case NextQuestion => Next(s)
  }

  /** The quiz invariant: the index is in range (or 0 for an empty quiz), a
      reveal has a choice behind it, and the score is at most the number of
      questions answered so far. */
  predicate Inv(s: QuizState) {
    && (s.index < |s.questions| || (s.index == 0 && |s.questions| == 0))
    && (s.shown ==> s.selected != None && s.index < |s.questions|)
    && s.score <= s.index + (if s.shown then 1 else 0)
  }

  lemma DispatchKeepsInv(s: QuizState, e: Event)
    requires Inv(s)
    ensures Inv(Dispatch(s, e))
    ensures Dispatch(s, e).questions == s.questions
  {
  }

  function Run(s: QuizState, es: seq<Event>): (r: QuizState)
    requires Inv(s)
    ensures Inv(r)
    ensures r.questions == s.questions
    decreases |es|
  {
    if es == [] then s
    else
      DispatchKeepsInv(s, es[0]);
      Run(Dispatch(s, es[0]), es[1..])
  }

  /** Once finished the question screen is gone: no event changes anything
      until a new quiz is started. */
  lemma FinishedIsTerminal(s: QuizState, es: seq<Event>)
    requires Inv(s) && s.finished
    ensures Run(s, es) == s
    decreases |es|
  {
    if es != [] {
      FinishedIsTerminal(Dispatch(s, es[0]), es[1..]);
    }
  }

  /** The final score shown is at most the quiz length. */
  lemma FinalScoreBounded(s: QuizState)
    requires Inv(s)
    ensures s.score <= |s.questions|
  {
  }

  /** A whole session from a freshly generated quiz keeps the score within
      the quiz length, which is the number of cards. */
  lemma SessionScoreBounded(cards: seq<FlashcardData>, order: seq<nat>, dperms: seq<seq<nat>>, operms: seq<seq<nat>>, es: seq<Event>)
    requires QuizShufflesFit(cards, order, dperms, operms)
    ensures Run(StartNewQuiz(cards, order, dperms, operms), es).score <= |cards|
  {
    var s := StartNewQuiz(cards, order, dperms, operms);
    FinalScoreBounded(Run(s, es));
  }

  /** On a generated quiz, after the reveal exactly one option of the current
      question is marked correct, and it holds the card's answer. */
  lemma RevealMarksTheAnswer(cards: seq<FlashcardData>, order: seq<nat>, dperms: seq<seq<nat>>, operms: seq<seq<nat>>, s: QuizState)
    requires QuizShufflesFit(cards, order, dperms, operms)
    requires s.questions == GenerateQuiz(cards, order, dperms, operms)
    requires s.index < |s.questions| && s.shown
    ensures var q := s.questions[s.index];
      && OptionView.WithClass(true, s.selected, q.correctAnswerIndex, |q.options|, OptionView.Correct)
           == {q.correctAnswerIndex as nat}
      && q.options[q.correctAnswerIndex] == cards[order[s.index]].answer
  {
    var q := s.questions[s.index];
    OptionView.ClassesAfterReveal(s.selected, q.correctAnswerIndex, |q.options|);
  }
}
