/**
 * Index arithmetic of the project carousel: `nextProject` and
 * `previousProject` wrap around the card list, a swipe (`handleInteractionEnd`)
 * clamps at its ends.
 */
module Carousel {
  import opened Indices

  /** `swipeThreshold`, in pixels. */
  const SwipeThreshold: int := 50

  /** `nextProject`: one card on, from the last card back to the first.
      With no cards the index stays where it is (see NextProjectAsWritten). */
  function NextIndex(current: int, total: nat): (r: int)
    requires InRange(current, total)
    ensures InRange(r, total)
    ensures current + 1 < total ==> r == current + 1
    ensures total >= 1 && current == total - 1 ==> r == 0
  {
    if total == 0 then current else (current + 1) % total
  }

  /** `previousProject`: one card back, from the first card to the last.
      It undoes NextIndex. */
  function PreviousIndex(current: int, total: nat): (r: int)
    requires InRange(current, total)
    ensures InRange(r, total)
    ensures NextIndex(r, total) == current
    ensures total >= 1 && current == 0 ==> r == total - 1
  {
    if current == 0 then (if total == 0 then 0 else total - 1) else current - 1
  }

  /** NextIndex undoes PreviousIndex. */
  lemma PreviousAfterNext(current: int, total: nat)
    requires InRange(current, total)
    ensures PreviousIndex(NextIndex(current, total), total) == current
  {
  }

  /** `nextProject` called k times in a row. */
  function NextTimes(current: int, total: nat, k: nat): (r: int)
    requires InRange(current, total)
    ensures InRange(r, total)
  {
    if k == 0 then current else NextIndex(NextTimes(current, total, k - 1), total)
  }

  /** k calls of `nextProject`, for k up to the card count, move k cards
      on, passing from the last card to the first at most once. */
  lemma {:induction false} NextTimesShifts(current: int, total: nat, k: nat)
    requires InRange(current, total) && k <= total
    ensures NextTimes(current, total, k) == if current + k < total then current + k else current + k - total
  {
    if k > 0 {
      NextTimesShifts(current, total, k - 1);
    }
  }

  /** As many `nextProject` calls as there are cards return to the start. */
  lemma NextFullCycle(current: int, total: nat)
    requires InRange(current, total)
    ensures NextTimes(current, total, total) == current
  {
    NextTimesShifts(current, total, total);
  }

  /** Where `handleInteractionEnd` moves the index after a drag of signed
      horizontal displacement `displacement`: right beyond the threshold goes
      back one card unless at the first, left beyond it goes on one card
      unless at the last; otherwise nothing moves. */
  function SwipeTarget(current: int, displacement: int, total: nat): (r: int)
    requires InRange(current, total)
    ensures InRange(r, total)
    ensures r == current - 1 <==> displacement > SwipeThreshold && current > 0
    ensures r == current + 1 <==> displacement < -SwipeThreshold && current < total - 1
    ensures r == current <==>
      !(displacement > SwipeThreshold && current > 0) && !(displacement < -SwipeThreshold && current < total - 1)
  {
    if displacement > SwipeThreshold && current > 0 then current - 1
    else if displacement < -SwipeThreshold && current < total - 1 then current + 1
    else current
  }

  /** At the last card a left swipe stays put while `nextProject` wraps to
      the first card; at the first card a right swipe stays put while
      `previousProject` wraps to the last. */
  lemma SwipeClampsWhereStepsWrap(total: nat, distance: int)
    requires total >= 2 && distance > SwipeThreshold
    ensures SwipeTarget(total - 1, -distance, total) == total - 1
    ensures NextIndex(total - 1, total) == 0
    ensures SwipeTarget(0, distance, total) == 0
    ensures PreviousIndex(0, total) == total - 1
  {
  }

  /** A number as JavaScript stores it: an integer here, or NaN. */
  datatype JsNumber = Finite(value: int) | NaN

  /** Integer division rounding toward zero, the quotient that goes with
      JavaScript's `%`. */
  function TruncDiv(a: int, b: nat): int
    requires b > 0
  {
    if a >= 0 then a / b else -((-a) / b)
  }

  /** JavaScript's `%` on integers: the remainder takes the sign of the
      dividend, and a zero divisor gives NaN (only the non-negative divisors
      of the card count occur here). */
  function JsRemainder(a: int, b: nat): (r: JsNumber)
    ensures b == 0 <==> r == NaN
    ensures r.Finite? ==> a == TruncDiv(a, b) * b + r.value
    ensures r.Finite? && a >= 0 ==> 0 <= r.value < b
    ensures r.Finite? && a < 0 ==> 0 - b < r.value <= 0
  {
    if b == 0 then NaN
    else if a >= 0 then Finite(a % b)
    else Finite(-((-a) % b))
  }

  /** `nextProject` as written: JavaScript's remainder of the next index by
      the card count, with no guard for an empty list. */
  function NextProjectAsWritten(current: int, total: nat): (r: JsNumber)
    ensures r == NaN <==> total == 0
    ensures total >= 1 && 0 <= current < total ==> r.Finite? && 0 <= r.value < total
  {
    JsRemainder(current + 1, total)
  }

  /** `previousProject` as written: from the first position to the card
      count minus one, otherwise one back, with no guard for an empty list. */
  function PreviousProjectAsWritten(current: int, total: nat): (r: JsNumber)
    ensures r.Finite?
    ensures 0 <= current < total ==> 0 <= r.value < total
    ensures current == 0 && total == 0 ==> r.value < 0
  {
    Finite(if current == 0 then total - 1 else current - 1)
  }

  /** With no project cards the arrow keys still reach `nextProject` and
      `previousProject`, which store NaN and -1: neither is an index. */
  lemma NoCardsLeaveRange()
    ensures NextProjectAsWritten(0, 0) == NaN
    ensures PreviousProjectAsWritten(0, 0) == Finite(-1) && !InRange(-1, 0)
  {
  }

  /** With at least one card the source and the corrected NextIndex and
      PreviousIndex agree: they differ only when there are no cards. */
  lemma AsWrittenAgreesWithCards(current: int, total: nat)
    requires total >= 1 && InRange(current, total)
    ensures NextProjectAsWritten(current, total) == Finite(NextIndex(current, total))
    ensures PreviousProjectAsWritten(current, total) == Finite(PreviousIndex(current, total))
  {
  }
}
