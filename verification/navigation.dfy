/**
 The index arithmetic of the gallery's next/previous navigation: JavaScript's
 `%` operator, one wrap-around step in either direction, and what repeating
 a step does.
 */
module Navigation {

  /** JavaScript's `%` on integral numbers with a positive divisor: the
      remainder of division truncated toward zero, so it takes the sign of
      the dividend (unlike Dafny's `%`, which is never negative). */
  function JsRem(a: int, b: int): (r: int)
    requires b > 0
    ensures 0 <= a ==> r == a % b && 0 <= r < b
    ensures a < 0 ==> -b < r <= 0
  {
    if a >= 0 then a % b else -((-a) % b)
  }

  /** `(currentIndex + 1) % images.length` */
  function NextIndex(i: int, n: int): (r: int)
    requires n > 0
    ensures 0 <= i < n ==> 0 <= r < n
    ensures 0 <= i < n ==> r == if i == n - 1 then 0 else i + 1
  {
    JsRem(i + 1, n)
  }

  /** `(currentIndex - 1 + images.length) % images.length` */
  function PrevIndex(i: int, n: int): (r: int)
    requires n > 0
    ensures 0 <= i < n ==> 0 <= r < n
    ensures 0 <= i < n ==> r == if i == 0 then n - 1 else i - 1
  {
    JsRem(i - 1 + n, n)
  }

  /** Previous undoes next and next undoes previous, on every in-range index. */
  lemma PrevNextInverse(i: int, n: int)
    requires 0 <= i < n
    ensures PrevIndex(NextIndex(i, n), n) == i
    ensures NextIndex(PrevIndex(i, n), n) == i
  {
  }

  datatype Direction = Forward | Backward

  function Step(d: Direction, i: int, n: int): int
    requires n > 0
  {
    match d
    case Forward => NextIndex(i, n)
    case Backward => PrevIndex(i, n)
  }

  /** The index reached after `k` steps in direction `d` from `i`. */
  function Steps(d: Direction, i: int, k: nat, n: int): (r: int)
    requires n > 0
    ensures 0 <= i < n ==> 0 <= r < n
    decreases k
  {
    if k == 0 then i else Steps(d, Step(d, i, n), k - 1, n)
  }

  /** `a + b` steps are `a` steps followed by `b` steps. */
  lemma {:induction false} StepsSplit(d: Direction, i: int, a: nat, b: nat, n: int)
    requires n > 0
    ensures Steps(d, i, a + b, n) == Steps(d, Steps(d, i, a, n), b, n)
    decreases a
  {
    if a > 0 {
      StepsSplit(d, Step(d, i, n), a - 1, b, n);
    }
  }

  /** Going forward without reaching the end just adds. */
  lemma {:induction false} ForwardClimbs(i: int, k: nat, n: int)
    requires 0 <= i && i + k < n
    ensures Steps(Forward, i, k, n) == i + k
    decreases k
  {
    if k > 0 {
      ForwardClimbs(i + 1, k - 1, n);
    }
  }

  /** Going backward without passing the start just subtracts. */
  lemma {:induction false} BackwardDescends(i: int, k: nat, n: int)
    requires 0 <= k <= i < n
    ensures Steps(Backward, i, k, n) == i - k
    decreases k
  {
    if k > 0 {
      BackwardDescends(i - 1, k - 1, n);
    }
  }

  /** `n` presses of "next" from any in-range index come back to it. */
  lemma NextCycle(i: int, n: int)
    requires 0 <= i < n
    ensures Steps(Forward, i, n, n) == i
  {
    var up := n - 1 - i;
    ForwardClimbs(i, up, n);
    StepsSplit(Forward, i, up, 1, n);
    assert Steps(Forward, i, up + 1, n) == 0;
    StepsSplit(Forward, i, up + 1, i, n);
    ForwardClimbs(0, i, n);
  }

  /** `n` presses of "previous" from any in-range index come back to it. */
  lemma PrevCycle(i: int, n: int)
    requires 0 <= i < n
    ensures Steps(Backward, i, n, n) == i
  {
    BackwardDescends(i, i, n);
    StepsSplit(Backward, i, i, 1, n);
    assert Steps(Backward, i, i + 1, n) == n - 1;
    StepsSplit(Backward, i, i + 1, n - 1 - i, n);
    BackwardDescends(n - 1, n - 1 - i, n);
  }
}
