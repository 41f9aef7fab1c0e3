/** The display class of one answer option, shared by the practice loop and
    the flashcard quiz (both compute it the same way). The colour strings of
    the source become an abstract enumeration. */
module OptionView {
  import opened Types

  datatype OptionClass = Selected | Neutral | Correct | Incorrect

  /** Class of option `i` given whether the answer is revealed, the current
      selection and the question's correct index. */
  function Classify(shown: bool, selected: Option<nat>, correct: int, i: nat): (c: OptionClass)
    ensures c == Selected <==> !shown && selected == Some(i)
    ensures c == Correct <==> shown && i == correct
    ensures c == Incorrect <==> shown && selected == Some(i) && i != correct
    ensures c == Neutral <==> !(selected == Some(i) || (shown && i == correct))
  {
    if !shown then
      if selected == Some(i) then Selected else Neutral
    else if i == correct then Correct
    else if selected == Some(i) then Incorrect
    else Neutral
  }

  /** The options of an `m`-option question carrying class `c`. */
  function WithClass(shown: bool, selected: Option<nat>, correct: int, m: nat, c: OptionClass): set<nat>
  {
    set i: nat | i < m && Classify(shown, selected, correct, i) == c
  }

  /** Before the reveal only the selected option is highlighted: nothing is
      marked correct or incorrect, and at most one option is selected. */
  lemma ClassesBeforeReveal(selected: Option<nat>, correct: int, m: nat)
    ensures WithClass(false, selected, correct, m, Correct) == {}
    ensures WithClass(false, selected, correct, m, Incorrect) == {}
    ensures selected.Some? && selected.value < m ==>
              WithClass(false, selected, correct, m, Selected) == {selected.value}
    ensures !(selected.Some? && selected.value < m) ==>
              WithClass(false, selected, correct, m, Selected) == {}
  {
  }

  /** After the reveal exactly one option is marked correct, at most one is
      marked incorrect (a wrong selection), and none stays merely selected. */
  lemma ClassesAfterReveal(selected: Option<nat>, correct: int, m: nat)
    requires 0 <= correct < m
    ensures |WithClass(true, selected, correct, m, Correct)| == 1
    ensures correct in WithClass(true, selected, correct, m, Correct)
    ensures |WithClass(true, selected, correct, m, Incorrect)| <= 1
    ensures WithClass(true, selected, correct, m, Selected) == {}
    ensures WithClass(true, selected, correct, m, Incorrect) != {} <==>
              selected.Some? && selected.value < m && selected.value != correct
  {
    assert WithClass(true, selected, correct, m, Correct) == {correct as nat};
    if selected.Some? && selected.value < m && selected.value != correct {
      assert WithClass(true, selected, correct, m, Incorrect) == {selected.value};
    } else {
      assert WithClass(true, selected, correct, m, Incorrect) == {};
    }
  }
}
