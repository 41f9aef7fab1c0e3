/** Building a multiple-choice quiz from the flashcards: one question per
    card, in shuffled card order, whose options are the card's answer plus up
    to three answers of other cards. The three shuffles of the source are
    parameters (see `Permutations`). */
module QuizGen {
  import opened Types
  import opened Permutations

  datatype QuizQuestion = QuizQuestion(
    question: string,
    options: seq<string>,
    correctAnswerIndex: int)

  /** How many distractors a question offers at most. */
  const MaxDistractors: nat := 3

  function Min(a: nat, b: nat): nat {
    if a <= b then a else b
  }

  /** The answers of all cards, in catalog order. */
  function Answers(cards: seq<FlashcardData>): (r: seq<string>)
    ensures |r| == |cards|
    ensures forall k :: 0 <= k < |cards| ==> r[k] == cards[k].answer
  {
    seq(|cards|, k requires 0 <= k < |cards| => cards[k].answer)
  }

  /** The answers that differ from `correct`, in order: every copy of the
      correct answer is dropped and every other answer is kept with its
      multiplicity. */
  function Distractors(all: seq<string>, correct: string): (r: seq<string>)
    ensures multiset(r)[correct] == 0
    ensures forall x :: x != correct ==> multiset(r)[x] == multiset(all)[x]
    ensures |r| == |all| - multiset(all)[correct]
  {
    if all == [] then []
    else
      assert all == [all[0]] + all[1..];
      var rest := Distractors(all[1..], correct);
      if all[0] != correct then [all[0]] + rest else rest
  }

  /** JavaScript `indexOf`: the first position holding `x`, or -1. */
  function IndexOf(xs: seq<string>, x: string): (r: int)
    ensures -1 <= r < |xs|
    ensures r == -1 <==> x !in xs
    ensures r >= 0 ==> xs[r] == x
    ensures forall j :: 0 <= j < r ==> xs[j] != x
  {
    if xs == [] then -1
    else if xs[0] == x then 0
    else
      var i := IndexOf(xs[1..], x);
      assert xs == [xs[0]] + xs[1..];
      if i < 0 then -1 else i + 1
  }

  /** The shuffles handed to one question fit its lists: `dperm` reorders the
      distractors and `operm` reorders the options. */
  predicate ShufflesFit(all: seq<string>, correct: string, dperm: seq<nat>, operm: seq<nat>) {
    var n := |Distractors(all, correct)|;
    IsPermutation(dperm, n) && IsPermutation(operm, 1 + Min(MaxDistractors, n))
  }

  /** The question generated for one card. */
  function BuildQuestion(card: FlashcardData, all: seq<string>, dperm: seq<nat>, operm: seq<nat>): (r: QuizQuestion)
    requires ShufflesFit(all, card.answer, dperm, operm)
    ensures r.question == card.question
    ensures |r.options| == 1 + Min(MaxDistractors, |all| - multiset(all)[card.answer])
    ensures 0 <= r.correctAnswerIndex < |r.options|
    ensures r.options[r.correctAnswerIndex] == card.answer
    ensures forall k :: 0 <= k < |r.options| && r.options[k] == card.answer ==> k == r.correctAnswerIndex
    ensures forall k :: 0 <= k < |r.options| && k != r.correctAnswerIndex ==> r.options[k] in all
    ensures multiset(r.options) <= multiset{card.answer} + multiset(Distractors(all, card.answer))
  {
    var correct := card.answer;
    var shuffled := Apply(dperm, Distractors(all, correct));
    var picked := shuffled[..Min(MaxDistractors, |shuffled|)];
    var options := Apply(operm, [correct] + picked);
    OptionsFacts(all, correct, dperm, operm);
    QuizQuestion(card.question, options, IndexOf(options, correct))
  }

  /** The facts behind `BuildQuestion`'s contract: the correct answer sits
      exactly where the option shuffle put position 0, and every other
      option is a distractor. */
  lemma OptionsFacts(all: seq<string>, correct: string, dperm: seq<nat>, operm: seq<nat>)
    requires ShufflesFit(all, correct, dperm, operm)
    ensures var ds := Distractors(all, correct);
      var shuffled := Apply(dperm, ds);
      var options := Apply(operm, [correct] + shuffled[..Min(MaxDistractors, |shuffled|)]);
      var i := IndexOf(options, correct);
      && 0 <= i < |options|
      && options[i] == correct
      && (forall k :: 0 <= k < |options| && options[k] == correct ==> k == i)
      && (forall k :: 0 <= k < |options| && k != i ==> options[k] in all)
      && multiset(options) <= multiset{correct} + multiset(ds)
  {
    var ds := Distractors(all, correct);
    var shuffled := Apply(dperm, ds);
    var base := [correct] + shuffled[..Min(MaxDistractors, |shuffled|)];
    var options := Apply(operm, base);
    forall m | 1 <= m < |base|
      ensures base[m] != correct && base[m] in all
    {
      var d := ds[dperm[m - 1]];
      assert base[m] == d;
      assert d in multiset(ds);
      assert d in multiset(all);
    }
    PermutationUnique(operm, |base|, 0);
    var k0 :| 0 <= k0 < |base| && operm[k0] == 0;
    assert options[k0] == correct;
    var i := IndexOf(options, correct);
    assert forall k :: 0 <= k < |options| && options[k] == correct ==> operm[k] == 0;
    PickedWithinDistractors(correct, ds, shuffled);
  }

  /** The options before their shuffle (the answer and a prefix of the
      shuffled distractors) offer no answer more often than the deck. */
  lemma PickedWithinDistractors(correct: string, ds: seq<string>, shuffled: seq<string>)
    requires multiset(shuffled) == multiset(ds)
    ensures multiset([correct] + shuffled[..Min(MaxDistractors, |shuffled|)])
              <= multiset{correct} + multiset(ds)
  {
    var m := Min(MaxDistractors, |shuffled|);
    assert shuffled == shuffled[..m] + shuffled[m..];
  }

  /** All shuffles of a quiz fit: the card order is a permutation of the
      cards, and the shuffles of the k-th question fit that question. */
  predicate QuizShufflesFit(cards: seq<FlashcardData>, order: seq<nat>, dperms: seq<seq<nat>>, operms: seq<seq<nat>>) {
    && IsPermutation(order, |cards|)
    && |dperms| == |cards| && |operms| == |cards|
    && forall k :: 0 <= k < |cards| ==>
         ShufflesFit(Answers(cards), cards[order[k]].answer, dperms[k], operms[k])
  }

  /** `generateQuiz`: the k-th question is built from card `order[k]`. */
  function GenerateQuiz(cards: seq<FlashcardData>, order: seq<nat>, dperms: seq<seq<nat>>, operms: seq<seq<nat>>): (quiz: seq<QuizQuestion>)
    requires QuizShufflesFit(cards, order, dperms, operms)
    ensures |quiz| == |cards|
    ensures forall k :: 0 <= k < |quiz| ==> quiz[k].question == cards[order[k]].question
    ensures forall k :: 0 <= k < |quiz| ==> WellFormedFor(quiz[k], cards[order[k]].answer, Answers(cards))
  {
    var all := Answers(cards);
    seq(|cards|, k requires 0 <= k < |cards| => BuildQuestion(cards[order[k]], all, dperms[k], operms[k]))
  }

  /** A generated question for a card with answer `answer`: the correct index
      names the only option equal to the answer, every other option is an
      answer from the deck, no answer is offered more often than the deck
      holds it, and there are `1 + min(3, #other answers)` options. */
  predicate WellFormedFor(q: QuizQuestion, answer: string, all: seq<string>) {
    && 0 <= q.correctAnswerIndex < |q.options|
    && q.options[q.correctAnswerIndex] == answer
    && (forall k :: 0 <= k < |q.options| && q.options[k] == answer ==> k == q.correctAnswerIndex)
    && (forall k :: 0 <= k < |q.options| && k != q.correctAnswerIndex ==> q.options[k] in all)
    && |q.options| == 1 + Min(MaxDistractors, |all| - multiset(all)[answer])
    && multiset(q.options) <= multiset{answer} + multiset(Distractors(all, answer))
  }

  /** Every card is asked exactly once: for each card there is one quiz
      position built from it, carrying its question and, at the correct index,
      its answer. */
  lemma EveryCardAskedOnce(cards: seq<FlashcardData>, order: seq<nat>, dperms: seq<seq<nat>>, operms: seq<seq<nat>>, j: nat)
    requires QuizShufflesFit(cards, order, dperms, operms)
    requires j < |cards|
    ensures var quiz := GenerateQuiz(cards, order, dperms, operms);
      exists k :: 0 <= k < |quiz| && order[k] == j
        && quiz[k].question == cards[j].question
        && quiz[k].options[quiz[k].correctAnswerIndex] == cards[j].answer
    ensures forall k, l :: 0 <= k < |cards| && 0 <= l < |cards| && order[k] == j && order[l] == j ==> k == l
  {
    PermutationUnique(order, |cards|, j);
  }

  /** A sequence with no repeated element. */
  predicate Distinct(xs: seq<string>) {
    forall i, j :: 0 <= i < j < |xs| ==> xs[i] != xs[j]
  }

  lemma {:induction false} DistinctCountsAtMostOne(xs: seq<string>, x: string)
    requires Distinct(xs)
    ensures multiset(xs)[x] <= 1
  {
    if xs != [] {
      var ys := xs[1..];
      assert xs == [xs[0]] + ys;
      DistinctCountsAtMostOne(ys, x);
      if xs[0] == x {
        assert x !in ys by {
          forall j | 0 <= j < |ys| ensures ys[j] != x {
            assert ys[j] == xs[j + 1];
          }
        }
      }
    }
  }

  lemma RepeatCountsTwice(xs: seq<string>, i: nat, j: nat)
    requires i < j < |xs|
    ensures xs[i] == xs[j] ==> multiset(xs)[xs[i]] >= 2
  {
    assert xs == xs[..i] + [xs[i]] + xs[i + 1..j] + [xs[j]] + xs[j + 1..];
  }

  /** When the cards' answers are pairwise different, as in the bundled
      deck, every generated question offers pairwise different options. */
  lemma DistinctDeckDistinctOptions(q: QuizQuestion, answer: string, all: seq<string>)
    requires Distinct(all) && WellFormedFor(q, answer, all)
    ensures Distinct(q.options)
  {
    var ds := Distractors(all, answer);
    forall i, j | 0 <= i < j < |q.options|
      ensures q.options[i] != q.options[j]
    {
      var x := q.options[i];
      RepeatCountsTwice(q.options, i, j);
      DistinctCountsAtMostOne(all, x);
      assert (multiset{answer} + multiset(ds))[x] <= 1;
    }
  }
}
