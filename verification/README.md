# Study-app session state machines in Dafny

This project models the interactive core of a single-page exam-preparation
app: the small, sequential UI state machines behind its practice questions,
its flashcard quiz, its flashcard decks and its accordion lists. Each one is
an immutable state record with pure transition functions. The model proves
the invariants the screens rely on.

- `Types` (`types.dfy`): the catalog records (`McqData`, `FlashcardData`), the
  nullable `Option`, and the bundled practice catalog `MCQS`.
- `OptionView` (`option_view.dfy`): the display class of an answer option
  (selected, neutral, correct, incorrect). Both question screens compute it.
- `Practice` (`practice.dfy`): the practice MCQ loop. You select, check and
  move on. After the last question the loop wraps to the first one and the
  score resets.
- `Permutations` (`permutations.dfy`): index permutations. They stand for
  the app's random-comparator shuffles.
- `QuizGen` (`quiz_gen.dfy`): `generateQuiz`. It builds one question per
  flashcard, with the card's answer plus up to three other answers as options.
- `Quiz` (`quiz.dfy`): the quiz session. It works like the practice loop but
  ends in a terminal finished state.
- `Carousel` (`carousel.dfy`): circular next/previous over `n` cards.
- `Player` (`player.dfy`): the study-tools flashcard player. Touch swipes
  are classified against a 50-pixel threshold.
- `Accordion` (`accordion.dfy`): the single-open accordion. The
  current-affairs list and the general-knowledge list share identical toggle
  logic, so this one model serves both.

Design choices:

- Each click handler is modelled as the function it is. A "Check Answer"
  handler has no guard against being called after the reveal. Only the
  screen prevents a second check, by not rendering that button any more.
  The screen is therefore modelled as well. `Enabled` says which events the
  rendered buttons can deliver, and `Dispatch` ignores the others. The
  invariants are proved for every sequence of events processed that way
  (`Run`).
- Each `sort(() => 0.5 - Math.random())` becomes a permutation parameter.
  No claim is made about the distribution of the shuffles.
- JavaScript's truncating `%` is written out as `Carousel.JsRem`. On the
  non-negative operands of the navigation code it agrees with Dafny's `%`.
- A touch coordinate is "missing" when it is falsy. That covers `null` and
  also the coordinate `0`.

## Model

| member | source | states |
|---|---|---|
| Types.BundledCatalogWellFormed | constants.tsx:14-20 | The bundled practice catalog has five questions, and each correct index names one of that question's options. |
| OptionView.Classify | components/MCQSection.tsx:39-50 | An option is "selected" iff it is chosen before the reveal. It is "correct" iff the answer is revealed and it is the correct one. It is "incorrect" iff it is revealed, chosen and not correct. Otherwise it is neutral. |
| OptionView.ClassesBeforeReveal | components/MCQSection.tsx:40-42 | Before the reveal no option is marked correct or incorrect. Exactly the chosen option, if it exists, is highlighted. |
| OptionView.ClassesAfterReveal | components/MCQSection.tsx:43-49 | After the reveal exactly one option, the correct one, is marked correct. At most one is marked incorrect, and one is iff the choice was wrong. None remains merely selected. |
| Practice.Initial | components/MCQSection.tsx:7-10 | The loop starts at question 0 with no choice, no reveal and score 0. |
| Practice.Select | components/MCQSection.tsx:14-17 | Choosing does nothing once the answer is shown. Otherwise it records the choice and changes nothing else. |
| Practice.Check | components/MCQSection.tsx:19-25 | Without a choice nothing changes. Otherwise the answer is revealed, and the score rises by exactly one iff the choice equals the correct index. It is never changed in any other way. |
| Practice.Next | components/MCQSection.tsx:27-37 | Choice and reveal are always cleared. Before the last question the index advances and the score is kept. On the last question the index wraps to 0 and the score resets to 0. |
| Practice.OptionClass | components/MCQSection.tsx:39-50 | The current question's option classes: correct iff revealed and correct, incorrect iff revealed and wrongly chosen, selected iff chosen before the reveal. |
| Practice.DispatchKeepsInv | components/MCQSection.tsx:61-93 | Every event the screen can deliver preserves three facts. The index stays inside the catalog. A reveal always has a choice behind it. The score is at most the index, plus one when revealed. |
| Practice.Run | components/MCQSection.tsx:12-37 | Any sequence of screen events keeps the practice invariant. |
| Practice.InitialInv | components/MCQSection.tsx:7-12 | The initial state satisfies the practice invariant on a non-empty catalog. |
| Practice.ScoreBounded | components/MCQSection.tsx:56-57 | The displayed score never exceeds the number of questions in the catalog. |
| Practice.ScoreChanges | components/MCQSection.tsx:19-36 | On the screen the score changes only in two ways. A correct first confirmation adds one. "Restart Quiz" on the last question resets it to 0. |
| Practice.CorrectAnswerScores | components/MCQSection.tsx:19-25 | Choosing and confirming the correct option earns exactly one point and marks that option correct. |
| Practice.WrongAnswerDoesNotScore | components/MCQSection.tsx:39-50 | Confirming a wrong option keeps the score, marks the choice incorrect and marks the right option correct. |
| Practice.ThreeRightOneWrong | components/MCQSection.tsx:14-36 | On the bundled catalog, three right answers and one wrong answer leave the score at 3. |
| Permutations.Apply | components/FlashcardQuiz.tsx:11 | A shuffle yields the same elements, each as often as before, in a new order: the multiset is kept, and position k holds the element the permutation sends there. |
| Permutations.ReorderKeepsElements | components/FlashcardQuiz.tsx:11 | Any reordering of a sequence by a permutation has the same multiset of elements as the sequence. |
| Permutations.PermutationCovers | components/FlashcardQuiz.tsx:11 | A permutation of n positions contains every position below n. |
| Permutations.PermutationUnique | components/FlashcardQuiz.tsx:11 | Each source position lands at exactly one result position. |
| Permutations.DistinctElementsSize | components/FlashcardQuiz.tsx:11 | A sequence without repeats has as many distinct elements as entries. |
| QuizGen.Distractors | components/FlashcardQuiz.tsx:17 | The distractors contain no copy of the correct answer. They hold every other answer with its multiplicity, so their number is the total minus the copies of the correct answer. |
| QuizGen.IndexOf | components/FlashcardQuiz.tsx:22 | The result is -1 iff the value is absent. Otherwise it is the first position holding the value. |
| QuizGen.BuildQuestion | components/FlashcardQuiz.tsx:14-29 | A generated question keeps the card's question text. It has 1 + min(3, number of answers different from the correct one) options. The correct index is in range and holds the card's answer. No other option equals that answer, and every other option is an answer from the deck. No answer is offered more often than the deck's other answers hold it, because distractors are drawn from distinct positions. |
| QuizGen.OptionsFacts | components/FlashcardQuiz.tsx:17-22 | After the option shuffle, the correct answer occurs at exactly one position, the one `indexOf` finds. All other options are drawn from the deck's answers. The options, as a multiset, lie within the answer plus the distractors. |
| QuizGen.GenerateQuiz | components/FlashcardQuiz.tsx:10-30 | The quiz has one question per card, in the shuffled card order. Each question is well formed for its card's answer: the correct index holds the only copy of the answer, the option count is 1 + min(3, other answers), and the options lie within the answer plus the distractors as a multiset. |
| QuizGen.DistinctDeckDistinctOptions | components/FlashcardQuiz.tsx:17-21 | When the deck's answers are pairwise different, every generated question offers pairwise different options. |
| QuizGen.EveryCardAskedOnce | components/FlashcardQuiz.tsx:11-14 | Every card is the source of exactly one quiz position. That position carries the card's question, and the card's answer sits at its correct index. |
| Quiz.StartNewQuiz | components/FlashcardQuiz.tsx:44-51 | A new quiz has one question per card. It starts at index 0 with no choice, score 0, no reveal and not finished, and it satisfies the quiz invariant. |
| Quiz.Select | components/FlashcardQuiz.tsx:55-58 | Choosing does nothing once the answer is shown. Otherwise it records the choice only. |
| Quiz.Check | components/FlashcardQuiz.tsx:60-66 | Without a choice nothing changes. Otherwise the answer is revealed, and one point is added iff the choice is the correct index. |
| Quiz.Next | components/FlashcardQuiz.tsx:68-76 | Before the last question the index advances and choice and reveal are cleared. On the last question the quiz becomes finished and nothing else changes. |
| Quiz.OptionClass | components/FlashcardQuiz.tsx:78-85 | The current question's option classes: correct iff revealed and correct, incorrect iff revealed and wrongly chosen, selected iff chosen before the reveal. |
| Quiz.DispatchKeepsInv | components/FlashcardQuiz.tsx:55-76 | Every event the question screen can deliver keeps the questions and keeps the quiz invariant. The index stays in range. A reveal has a choice behind it. The score is at most the index, plus one when revealed. |
| Quiz.Run | components/FlashcardQuiz.tsx:119-147 | Any sequence of screen events keeps the quiz invariant and the question list. |
| Quiz.FinishedIsTerminal | components/FlashcardQuiz.tsx:91-106 | Once the quiz is finished, no event changes the state. Only a new quiz leaves that state. |
| Quiz.FinalScoreBounded | components/FlashcardQuiz.tsx:96 | The final score "score / length" never exceeds the quiz length. |
| Quiz.SessionScoreBounded | components/FlashcardQuiz.tsx:40-76 | In any session on a generated quiz, the score stays at most the number of flashcards. |
| Quiz.RevealMarksTheAnswer | components/FlashcardQuiz.tsx:78-85 | After the reveal on a generated quiz, exactly one option is marked correct, and it holds the card's answer. |
| Carousel.JsRem | components/FlashcardSection.tsx:10 | JavaScript's truncating remainder agrees with the Euclidean one on non-negative dividends. Its magnitude is below the divisor, a nonzero result takes the dividend's sign, and it differs from the dividend by a multiple of the divisor, which fixes it for negative dividends too. |
| Carousel.Next | components/FlashcardSection.tsx:9-11 | Next stays in [0, n). It moves to i+1, or from the last card to 0. |
| Carousel.Prev | components/FlashcardSection.tsx:13-15 | Previous stays in [0, n). It moves to i-1, or from card 0 to n-1. |
| Carousel.CardNumber | components/FlashcardSection.tsx:27 | The card number shown, "Card k of n", lies in [1, n]. |
| Carousel.NextPrevInverse | components/FlashcardSection.tsx:9-15 | Next then previous, and previous then next, return to the original card. |
| Carousel.NextTimesIsShift | components/FlashcardSection.tsx:10 | Pressing next k times from card i shows card (i + k) mod n. |
| Carousel.FullCycle | components/FlashcardSection.tsx:9-11 | Pressing next n times returns to the starting card. |
| Player.Initial | components/StudyToolsSection.tsx:8-10 | The player starts at card 0 with no touch recorded. |
| Player.ClassifySwipe | components/StudyToolsSection.tsx:33-35 | A movement is a left swipe iff it goes left by more than 50 pixels. It is a right swipe iff it goes right by more than 50 pixels. Otherwise it is no swipe. |
| Player.GoToNext | components/StudyToolsSection.tsx:14-16 | Only the card index changes, and it moves to the circular next card. |
| Player.GoToPrev | components/StudyToolsSection.tsx:18-20 | Only the card index changes, and it moves to the circular previous card. |
| Player.OnTouchStart | components/StudyToolsSection.tsx:22-25 | Touch start records the start coordinate and clears the end coordinate. The card is kept. |
| Player.OnTouchMove | components/StudyToolsSection.tsx:27-29 | Touch move records the end coordinate only. |
| Player.OnTouchEnd | components/StudyToolsSection.tsx:31-44 | If either coordinate is missing or 0, nothing changes. Otherwise a left swipe goes to the next card, a right swipe to the previous one, and anything else stays. Both coordinates are then cleared. |
| Player.OperationsKeepIndexInDeck | components/StudyToolsSection.tsx:63 | Every player operation keeps the index inside the deck, and the counter "Card k of n" shows a k in [1, n]. |
| Player.SwipeBackReturns | components/StudyToolsSection.tsx:31-44 | A left swipe followed by the reverse right swipe returns to the original card and leaves no touch recorded. |
| Player.ZeroCoordinateIgnored | components/StudyToolsSection.tsx:32 | A swipe that ends at coordinate 0 is ignored, and its coordinates are not cleared. |
| Player.SwipeSymmetry | components/StudyToolsSection.tsx:34-35 | Reversing a movement turns a left swipe into a right swipe, and no swipe stays no swipe. |
| Accordion.Initial | components/CurrentAffairsSection.tsx:47 | Initially entry 0 is expanded and no other entry is. |
| Accordion.Toggle | components/CurrentAffairsSection.tsx:49-51 | Toggling the expanded entry collapses everything. Toggling a collapsed entry expands it, and it becomes the only expanded entry. |
| Accordion.AtMostOneOpen | components/CurrentAffairsSection.tsx:65 | At most one of the n entries is expanded. None is iff the open index is absent or outside the list. |
| Accordion.ToggleTwice | components/GeneralKnowledgeSection.tsx:45 | Toggling entry i twice restores the state when i or nothing was expanded. If another entry was expanded, nothing is left expanded. |
| Accordion.ToggleIsLocal | components/GeneralKnowledgeSection.tsx:45-59 | A toggle of entry i changes the expanded status only of i and of the previously expanded entry. |

## Left out

- Rendering, JSX and colour class strings: option colours become the `OptionView.OptionClass` enumeration.
- Randomness: the three random-comparator shuffles in `generateQuiz` are permutation parameters. No claim about their distribution is made.
- React effects and batched state updates: the mount-time `startNewQuiz` is a plain constructor, and handlers apply their updates in order.
- The progress-bar width percentage of the player: floating-point arithmetic.
- Touch coordinates are whole numbers. Fractional pixel values and the falsy `NaN` are not modelled.
- The card flip in the flashcard view, the mind-map tab and the tab switch of the study-tools screen, page routing, header, reels and bottom navigation: presentational, with no state machine.
- The flashcard, current-affairs and general-knowledge datasets: the deck and the lists are parameters (a sequence of cards, a list length `n`). The list datasets are not part of this model.
- Exam mode, countdown timer, difficulty and bookmark filters, feedback and persisted progress: no component modelled here implements them.
- Practice.Check and Quiz.Check: neither handler guards against a second call after the reveal, and such a call would count the answer again. The score bounds are proved only for events the screen can deliver (`Enabled`), because the screen no longer renders the check button once the answer is shown.
