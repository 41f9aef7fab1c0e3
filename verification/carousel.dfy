/** Circular navigation over a deck of `n` cards, as in the flashcard
    section: "Next" after the last card shows the first, "Previous" before
    the first shows the last. */
module Carousel {

  /** JavaScript's `%`, which truncates toward zero (the sign follows the
      dividend), unlike Dafny's Euclidean `%`. */
  function JsRem(a: int, n: int): (r: int)
    requires n != 0
    ensures a >= 0 ==> r == a % n
    ensures -(if n < 0 then -n else n) < r < (if n < 0 then -n else n)
    ensures r != 0 ==> (r < 0 <==> a < 0)
    ensures (a - r) % n == 0
  {
    var r := if a >= 0 then a % n else -((-a) % n);
    TruncatedRemDivides(a, n, r);
    r
  }

  /** The truncating remainder differs from its dividend by a multiple of
      the divisor. */
  lemma TruncatedRemDivides(a: int, n: int, r: int)
    requires n != 0 && r == (if a >= 0 then a % n else -((-a) % n))
    ensures (a - r) % n == 0
  {
    if a >= 0 {
      assert a - r == (a / n) * n;
      MultipleRem(a / n, n);
    } else {
      var q := (-a) / n;
      assert -a == q * n + (-a) % n;
      assert a - r == (-q) * n;
      MultipleRem(-q, n);
    }
  }

  function Abs(x: int): nat {
    if x < 0 then -x else x
  }

  /** A nonzero multiple of `n` is at least as large as `n` in magnitude. */
  lemma MulMagnitude(d: int, n: int)
    requires n != 0
    ensures d != 0 ==> Abs(d * n) >= Abs(n)
  {
    if d != 0 {
      MulAtLeast(Abs(d), Abs(n));
      assert Abs(d) * Abs(n) == Abs(d * n) by {
        if d < 0 && n < 0 {
          assert (-d) * (-n) == d * n;
        } else if d < 0 {
          assert (-d) * n == -(d * n);
        } else if n < 0 {
          assert d * (-n) == -(d * n);
        }
      }
    }
  }

  /** A multiple of `n` leaves no remainder. */
  lemma MultipleRem(q: int, n: int)
    requires n != 0
    ensures (q * n) % n == 0
  {
    var m := q * n;
    var d := q - m / n;
    assert m % n == d * n by {
      assert m == (m / n) * n + m % n;
      assert d * n == q * n - (m / n) * n;
    }
    MulMagnitude(d, n);
  }

  /** `goToNext`: `(i + 1) % n`. */
  function Next(i: nat, n: nat): (r: nat)
    requires n > 0
    ensures r < n
    ensures i < n ==> r == (if i == n - 1 then 0 else i + 1)
  {
    JsRem(i + 1, n)
  }

  /** `goToPrev`: `(i - 1 + n) % n`. */
  function Prev(i: nat, n: nat): (r: nat)
    requires n > 0
    ensures r < n
    ensures i < n ==> r == (if i == 0 then n - 1 else i - 1)
  {
    JsRem(i - 1 + n, n)
  }

  /** The card number shown to the user ("Card k of n"). */
  function CardNumber(i: nat, n: nat): (k: nat)
    requires i < n
    ensures 1 <= k <= n
  {
    i + 1
  }

  /** Next and previous undo each other. */
  lemma NextPrevInverse(i: nat, n: nat)
    requires i < n
    ensures Prev(Next(i, n), n) == i
    ensures Next(Prev(i, n), n) == i
  {
  }

  /** `k` presses of "Next" from card `i`. */
  function NextTimes(i: nat, n: nat, k: nat): (r: nat)
    requires n > 0 && i < n
    ensures r < n
  {
    if k == 0 then i else Next(NextTimes(i, n, k - 1), n)
  }

  lemma {:induction false} NextTimesIsShift(i: nat, n: nat, k: nat)
    requires i < n
    ensures NextTimes(i, n, k) == (i + k) % n
  {
    if k > 0 {
      NextTimesIsShift(i, n, k - 1);
      var j := (i + k - 1) % n;
      assert NextTimes(i, n, k) == Next(j, n);
      ModStep(i + k - 1, n);
    }
  }

  /** Euclidean remainder is determined by any decomposition `a = q*n + r`
      with `0 <= r < n`. */
  lemma ModUnique(a: int, n: int, q: int, r: int)
    requires n > 0 && 0 <= r < n && a == q * n + r
    ensures a % n == r
  {
    var q', r' := a / n, a % n;
    assert a == q' * n + r';
    if q != q' {
      var d := if q > q' then q - q' else q' - q;
      assert d * n == (if q > q' then r' - r else r - r') by {
        assert d * n == (if q > q' then q * n - q' * n else q' * n - q * n);
      }
      MulAtLeast(d, n);
    }
  }

  lemma MulAtLeast(d: int, n: int)
    requires d >= 1 && n > 0
    ensures d * n >= n
  {
    assert d * n == (d - 1) * n + n;
    assert (d - 1) * n >= 0;
  }

  lemma ModStep(a: nat, n: nat)
    requires n > 0
    ensures (if a % n == n - 1 then 0 else a % n + 1) == (a + 1) % n
  {
    var q, r := a / n, a % n;
    if r == n - 1 {
      ModUnique(a + 1, n, q + 1, 0);
    } else {
      ModUnique(a + 1, n, q, r + 1);
    }
  }

  /** Pressing "Next" `n` times comes back to the starting card. */
  lemma FullCycle(i: nat, n: nat)
    requires i < n
    ensures NextTimes(i, n, n) == i
  {
    NextTimesIsShift(i, n, n);
    ModUnique(i + n, n, 1, i);
  }
}
