/** The practice multiple-choice loop: answer one question at a time from the
    catalog; after the last question the loop wraps to the first and the
    score starts again from zero. */
module Practice {
  import opened Types
  import OptionView

  datatype PracticeState = PracticeState(
    index: nat,               // position of the current question
    selected: Option<nat>,    // tentatively chosen option
    shown: bool,              // answer and explanation revealed
    score: nat)

  /** User actions the screen can produce. */
  datatype Event = Choose(option: nat) | CheckAnswer | NextQuestion

  /** State when the section first mounts. */
  function Initial(): (s: PracticeState)
    ensures s.index == 0 && s.selected == None && !s.shown && s.score == 0
  {
    PracticeState(0, None, false, 0)
  }

  /** Choosing an option: ignored once the answer is revealed. */
  function Select(s: PracticeState, option: nat): (r: PracticeState)
    ensures s.shown ==> r == s
    ensures !s.shown ==> r.selected == Some(option) && r == s.(selected := r.selected)
  {
    if s.shown then s else s.(selected := Some(option))
  }

  /** Whether the chosen option is the current question's correct one. */
  predicate IsCorrectChoice(s: PracticeState, qs: seq<McqData>)
    requires s.index < |qs|
  {
    s.selected.Some? && s.selected.value == qs[s.index].correctAnswerIndex
  }

  /** Confirming the choice: without a choice nothing happens; otherwise the
      answer is revealed and the score goes up by one exactly when the choice
      is correct. The handler itself does not look at `shown`. */
  function Check(s: PracticeState, qs: seq<McqData>): (r: PracticeState)
    requires s.index < |qs|
    ensures s.selected == None ==> r == s
    ensures s.selected != None ==> r.shown && r.index == s.index && r.selected == s.selected
    ensures s.selected != None ==>
              (r.score == s.score + 1 <==> s.selected.value == qs[s.index].correctAnswerIndex)
    ensures r.score == s.score || r.score == s.score + 1
  {
    if s.selected == None then s
    else
      var r := s.(shown := true);
      if IsCorrectChoice(s, qs) then r.(score := s.score + 1) else r
  }

  /** Moving on: the choice and the reveal are cleared; before the last
      question the index advances and the score is kept, on the last one the
      index wraps to 0 and the score is reset. */
  function Next(s: PracticeState, qs: seq<McqData>): (r: PracticeState)
    ensures r.selected == None && !r.shown
    ensures s.index + 1 < |qs| ==> r.index == s.index + 1 && r.score == s.score
    ensures s.index + 1 >= |qs| ==> r.index == 0 && r.score == 0
  {
    var cleared := s.(shown := false, selected := None);
    if s.index < |qs| - 1 then cleared.(index := s.index + 1)
    else cleared.(index := 0, score := 0)
  }

  /** Display class of option `i` of the current question. */
  function OptionClass(s: PracticeState, qs: seq<McqData>, i: nat): (c: OptionView.OptionClass)
    requires s.index < |qs|
    ensures c == OptionView.Correct <==> s.shown && i == qs[s.index].correctAnswerIndex
    ensures c == OptionView.Incorrect <==>
              s.shown && s.selected == Some(i) && i != qs[s.index].correctAnswerIndex
    ensures c == OptionView.Selected <==> !s.shown && s.selected == Some(i)
  {
    OptionView.Classify(s.shown, s.selected, qs[s.index].correctAnswerIndex, i)
  }

  /** Which events the screen can deliver: option buttons are disabled once
      the answer is shown, "Check Answer" is only rendered before the reveal
      and disabled without a choice, "Next Question" is only rendered after. */
  predicate Enabled(s: PracticeState, qs: seq<McqData>, e: Event)
    requires s.index < |qs|
  {
    match e
    case Choose(o) => !s.shown && o < |qs[s.index].options|
    case CheckAnswer => !s.shown && s.selected != None
    case NextQuestion => s.shown
  }

  /** One event on the screen; a click on a disabled or absent button does
      nothing. */
  function Dispatch(s: PracticeState, qs: seq<McqData>, e: Event): PracticeState
    requires s.index < |qs|
  {
    if !Enabled(s, qs, e) then s
    else match e
      case Choose(o) => Select(s, o)
      case CheckAnswer => Check(s, qs)
      case NextQuestion => Next(s, qs)
  }

  /** The practice invariant: the index points into the catalog, a revealed
      answer has a choice behind it, and the score never exceeds the number
      of questions answered in the current pass. */
  predicate Inv(s: PracticeState, qs: seq<McqData>) {
    && s.index < |qs|
    && (s.shown ==> s.selected != None)
    && s.score <= s.index + (if s.shown then 1 else 0)
  }

  lemma InitialInv(qs: seq<McqData>)
    requires |qs| > 0
    ensures Inv(Initial(), qs)
  {
  }

  /** Every event the screen can deliver keeps the invariant. */
  lemma DispatchKeepsInv(s: PracticeState, qs: seq<McqData>, e: Event)
    requires Inv(s, qs)
    ensures Inv(Dispatch(s, qs, e), qs)
  {
  }

  /** Processing a sequence of events in order. */
  function Run(s: PracticeState, qs: seq<McqData>, es: seq<Event>): (r: PracticeState)
    requires Inv(s, qs)
    ensures Inv(r, qs)
    decreases |es|
  {
    if es == [] then s
    else
      DispatchKeepsInv(s, qs, es[0]);
      Run(Dispatch(s, qs, es[0]), qs, es[1..])
  }

  /** Corollary of the invariant: the score is bounded by the catalog size. */
  lemma ScoreBounded(s: PracticeState, qs: seq<McqData>)
    requires Inv(s, qs)
    ensures s.score <= |qs|
  {
  }

  /** The score changes only by a correct confirmation (+1) or the wrap after
      the last question (reset to 0). */
  lemma ScoreChanges(s: PracticeState, qs: seq<McqData>, e: Event)
    requires Inv(s, qs)
    ensures var r := Dispatch(s, qs, e);
      || r.score == s.score
      || (r.score == s.score + 1 && e == CheckAnswer && !s.shown && IsCorrectChoice(s, qs))
      || (r.score == 0 && e == NextQuestion && s.index == |qs| - 1)
  {
  }

  /** Choosing and confirming the correct option of the current question
      earns exactly one point, and the option is then shown as correct. */
  lemma CorrectAnswerScores(s: PracticeState, qs: seq<McqData>)
    requires Inv(s, qs) && !s.shown
    requires WellFormedMcq(qs[s.index])
    ensures var c := qs[s.index].correctAnswerIndex as nat;
      var r := Dispatch(Dispatch(s, qs, Choose(c)), qs, CheckAnswer);
      && r.score == s.score + 1
      && r.shown
      && OptionClass(r, qs, c) == OptionView.Correct
  {
  }

  /** Choosing and confirming a wrong option earns nothing, marks the choice
      incorrect and still marks the correct option. */
  lemma WrongAnswerDoesNotScore(s: PracticeState, qs: seq<McqData>, o: nat)
    requires Inv(s, qs) && !s.shown
    requires WellFormedMcq(qs[s.index])
    requires o < |qs[s.index].options| && o != qs[s.index].correctAnswerIndex
    ensures var r := Dispatch(Dispatch(s, qs, Choose(o)), qs, CheckAnswer);
      && r.score == s.score
      && r.shown
      && OptionClass(r, qs, o) == OptionView.Incorrect
      && OptionClass(r, qs, qs[s.index].correctAnswerIndex as nat) == OptionView.Correct
  {
  }

  /** A pass over the bundled catalog answering three questions right and
      one wrong ends with a score of 3. */
  lemma ThreeRightOneWrong()
    ensures
      var s0 := Initial();
      var s1 := Run(s0, MCQS, [Choose(0), CheckAnswer, NextQuestion]);
      var s2 := Run(s1, MCQS, [Choose(0), CheckAnswer, NextQuestion]);
      var s3 := Run(s2, MCQS, [Choose(2), CheckAnswer, NextQuestion]);
      var s4 := Run(s3, MCQS, [Choose(0), CheckAnswer]);
      s4.score == 3 && s4.index == 3
  {
    BundledCatalogWellFormed();
  }
}
