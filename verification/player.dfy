/** The flashcard player of the study-tools screen: circular navigation by
    buttons or by horizontal touch swipes. Touch coordinates are whole
    pixels here. */
module Player {
  import opened Types
  import Carousel

  datatype PlayerState = PlayerState(
    index: nat,
    touchStart: Option<int>,
    touchEnd: Option<int>)

  /** A swipe must cover more than this many pixels to count. */
  const MinSwipeDistance: int := 50

  datatype Swipe = LeftSwipe | RightSwipe | NoSwipe

  function Initial(): (s: PlayerState)
    ensures s.index == 0 && s.touchStart == None && s.touchEnd == None
  {
    PlayerState(0, None, None)
  }

  /** JavaScript truthiness of a nullable coordinate: `null` and `0` are
      both falsy. */
  predicate Truthy(c: Option<int>) {
    c.Some? && c.value != 0
  }

  /** Classify a finger movement from `start` to `end`: moving left by more
      than the threshold is a left swipe (next card), moving right by more
      than it a right swipe (previous card). */
  function ClassifySwipe(start: int, end: int): (w: Swipe)
    ensures w == LeftSwipe <==> end < start - MinSwipeDistance
    ensures w == RightSwipe <==> end > start + MinSwipeDistance
    ensures w == NoSwipe <==> start - MinSwipeDistance <= end <= start + MinSwipeDistance
  {
    var distance := start - end;
    if distance > MinSwipeDistance then LeftSwipe
    else if distance < -MinSwipeDistance then RightSwipe
    else NoSwipe
  }

  function GoToNext(s: PlayerState, n: nat): (r: PlayerState)
    requires n > 0
    ensures r.index == Carousel.Next(s.index, n)
    ensures r.touchStart == s.touchStart && r.touchEnd == s.touchEnd
  {
    s.(index := Carousel.Next(s.index, n))
  }

  function GoToPrev(s: PlayerState, n: nat): (r: PlayerState)
    requires n > 0
    ensures r.index == Carousel.Prev(s.index, n)
    ensures r.touchStart == s.touchStart && r.touchEnd == s.touchEnd
  {
    s.(index := Carousel.Prev(s.index, n))
  }

  /** A finger goes down at `x`: the start is recorded and any old end is
      forgotten. */
  function OnTouchStart(s: PlayerState, x: int): (r: PlayerState)
    ensures r.touchStart == Some(x) && r.touchEnd == None && r.index == s.index
  {
    s.(touchEnd := None, touchStart := Some(x))
  }

  /** The finger moves to `x`. */
  function OnTouchMove(s: PlayerState, x: int): (r: PlayerState)
    ensures r.touchEnd == Some(x) && r.touchStart == s.touchStart && r.index == s.index
  {
    s.(touchEnd := Some(x))
  }

  /** The finger lifts: without a (truthy) start and end nothing happens;
      otherwise the swipe moves to the next or previous card or nowhere, and
      both coordinates are cleared. */
  function OnTouchEnd(s: PlayerState, n: nat): (r: PlayerState)
    requires n > 0
    ensures !(Truthy(s.touchStart) && Truthy(s.touchEnd)) ==> r == s
    ensures Truthy(s.touchStart) && Truthy(s.touchEnd) ==>
      && r.touchStart == None && r.touchEnd == None
      && r.index == match ClassifySwipe(s.touchStart.value, s.touchEnd.value)
                    case LeftSwipe => Carousel.Next(s.index, n)
                    case RightSwipe => Carousel.Prev(s.index, n)
                    case NoSwipe => s.index
  {
    if !Truthy(s.touchStart) || !Truthy(s.touchEnd) then s
    else
      var moved := match ClassifySwipe(s.touchStart.value, s.touchEnd.value)
        case LeftSwipe => GoToNext(s, n)
        case RightSwipe => GoToPrev(s, n)
        case NoSwipe => s;
      moved.(touchStart := None, touchEnd := None)
  }

  /** Every operation keeps the card index inside the deck, so the counter
      "Card k of n" shows some `1 <= k <= n`. */
  predicate Inv(s: PlayerState, n: nat) {
    s.index < n
  }

  lemma OperationsKeepIndexInDeck(s: PlayerState, n: nat, x: int)
    requires n > 0 && Inv(s, n)
    ensures Inv(GoToNext(s, n), n) && Inv(GoToPrev(s, n), n)
    ensures Inv(OnTouchStart(s, x), n) && Inv(OnTouchMove(s, x), n)
    ensures Inv(OnTouchEnd(s, n), n)
    ensures 1 <= Carousel.CardNumber(s.index, n) <= n
  {
  }

  /** Swiping back over the same track undoes a swipe: a left swipe from
      `a` to `b` followed by a right swipe from `b` to `a` returns to the
      original card with no touch recorded. */
  lemma SwipeBackReturns(s: PlayerState, n: nat, a: int, b: int)
    requires n > 0 && Inv(s, n)
    requires a != 0 && b != 0 && a - b > MinSwipeDistance
    ensures var s1 := OnTouchEnd(OnTouchMove(OnTouchStart(s, a), b), n);
      var s2 := OnTouchEnd(OnTouchMove(OnTouchStart(s1, b), a), n);
      && s1.index == Carousel.Next(s.index, n)
      && s2.index == s.index
      && s2.touchStart == None && s2.touchEnd == None
  {
    Carousel.NextPrevInverse(s.index, n);
  }

  /** A swipe ending at coordinate 0 is ignored, and its coordinates are
      kept, because 0 is falsy. */
  lemma ZeroCoordinateIgnored(s: PlayerState, n: nat, a: int)
    requires n > 0
    ensures var s1 := OnTouchMove(OnTouchStart(s, a), 0);
      OnTouchEnd(s1, n) == s1 && s1.touchEnd == Some(0)
  {
  }

  /** Left and right swipes are mirror images. */
  lemma SwipeSymmetry(a: int, b: int)
    ensures ClassifySwipe(a, b) == LeftSwipe <==> ClassifySwipe(b, a) == RightSwipe
    ensures ClassifySwipe(a, b) == NoSwipe <==> ClassifySwipe(b, a) == NoSwipe
  {
  }
}
