/**
 * Section navigation arithmetic: visible overlap of a section with the
 * viewport and the most visible section (`updateCurrentSection`), the
 * clamped one-section step of the arrow keys and the mouse wheel, and the
 * wheel throttle.
 */
module Sections {
  import opened Wrappers
  import opened Indices

  /** `wheelThrottle`, in milliseconds. */
  const WheelThrottle: int := 150

  /** `Math.abs(deltaY) < 5`: smaller wheel deltas do not step. */
  const WheelDeltaThreshold: int := 5

  /** `Math.abs(distance) < 5`: closer targets are jumped to, not animated. */
  const SnapDistance: int := 5

  /** A section's `offsetTop` and `offsetHeight`, in pixels. */
  datatype SectionBox = SectionBox(top: int, height: int)

  function Abs(x: int): (r: nat)
    ensures r == x || r == -x
  {
    if x < 0 then -x else x
  }

  /** The length of the part of `box` inside the viewport
      [scrollTop, scrollTop + viewportHeight): positive exactly when the two
      intervals overlap, and never more than either of them. */
  function VisibleOverlap(box: SectionBox, scrollTop: int, viewportHeight: int): (r: int)
    ensures r >= 0
    ensures r > 0 <==>
      0 < viewportHeight && 0 < box.height && box.top < scrollTop + viewportHeight && scrollTop < box.top + box.height
    ensures r <= if box.height > 0 then box.height else 0
    ensures r <= if viewportHeight > 0 then viewportHeight else 0
  {
    var visibleTop := if scrollTop > box.top then scrollTop else box.top;
    var bottom := box.top + box.height;
    var visibleBottom := if scrollTop + viewportHeight < bottom then scrollTop + viewportHeight else bottom;
    if visibleBottom - visibleTop > 0 then visibleBottom - visibleTop else 0
  }

  /** k is the first section whose visible overlap is the largest. */
  predicate IsFirstMostVisible(sections: seq<SectionBox>, scrollTop: int, viewportHeight: int, k: int) {
    && 0 <= k < |sections|
    && (forall j :: 0 <= j < |sections| ==>
          VisibleOverlap(sections[j], scrollTop, viewportHeight) <= VisibleOverlap(sections[k], scrollTop, viewportHeight))
    && (forall j :: 0 <= j < k ==>
          VisibleOverlap(sections[j], scrollTop, viewportHeight) < VisibleOverlap(sections[k], scrollTop, viewportHeight))
  }

  /** At most one section is the first most visible one. */
  lemma FirstMostVisibleUnique(sections: seq<SectionBox>, scrollTop: int, viewportHeight: int, k1: int, k2: int)
    requires IsFirstMostVisible(sections, scrollTop, viewportHeight, k1)
    requires IsFirstMostVisible(sections, scrollTop, viewportHeight, k2)
    ensures k1 == k2
  {
    assert VisibleOverlap(sections[k1], scrollTop, viewportHeight) == VisibleOverlap(sections[k2], scrollTop, viewportHeight);
  }

  /** The loop of `updateCurrentSection`: keep the first section whose
      overlap beats the best so far, starting from section 0 and overlap 0.
      The result is the first most visible section, and 0 when no section
      is visible at all. */
  method MostVisibleSection(sections: seq<SectionBox>, scrollTop: int, viewportHeight: int) returns (best: nat)
    requires |sections| > 0
    ensures IsFirstMostVisible(sections, scrollTop, viewportHeight, best)
    ensures (forall j :: 0 <= j < |sections| ==> VisibleOverlap(sections[j], scrollTop, viewportHeight) == 0) ==> best == 0
  {
    best := 0;
    var maxVisibleArea := 0;
    var i := 0;
    while i < |sections|
      invariant 0 <= i <= |sections|
      invariant best < |sections| && (best < i || best == 0)
      invariant maxVisibleArea == if i == 0 then 0 else VisibleOverlap(sections[best], scrollTop, viewportHeight)
      invariant i > 0 && best == 0 ==> maxVisibleArea == VisibleOverlap(sections[0], scrollTop, viewportHeight)
      invariant forall j :: 0 <= j < i ==> VisibleOverlap(sections[j], scrollTop, viewportHeight) <= maxVisibleArea
      invariant forall j :: 0 <= j < best ==> VisibleOverlap(sections[j], scrollTop, viewportHeight) < maxVisibleArea
    {
      var visibleArea := VisibleOverlap(sections[i], scrollTop, viewportHeight);
      if visibleArea > maxVisibleArea {
        maxVisibleArea := visibleArea;
        best := i;
      }
      i := i + 1;
    }
  }

  /** Which way a step goes: ArrowUp or a negative wheel delta, ArrowDown
      or a positive one. */
  datatype Direction = Up | Down

  /** The target of a one-section step from `current` among `count`
      sections, or None at the first (Up) or last (Down) section: steps
      are clamped, never wrapped. */
  function StepTarget(current: int, dir: Direction, count: nat): (r: Option<int>)
    requires InRange(current, count)
    ensures r.Some? ==> 0 <= r.value < count
    ensures dir == Down ==> (r.Some? <==> current < count - 1) && (r.Some? ==> r.value == current + 1)
    ensures dir == Up ==> (r.Some? <==> current > 0) && (r.Some? ==> r.value == current - 1)
  {
    match dir
    case Down => if current < count - 1 then Some(current + 1) else None
    case Up => if current > 0 then Some(current - 1) else None
  }

  /** n one-section steps in the same direction. */
  function StepTimes(current: int, dir: Direction, count: nat, n: nat): (r: int)
    requires InRange(current, count)
    ensures InRange(r, count)
  {
    if n == 0 then current
    else
      var previous := StepTimes(current, dir, count, n - 1);
      match StepTarget(previous, dir, count)
      case Some(t) => t
      case None => previous
  }

  /** Repeated Down steps end at the last section and stay there:
      n of them from `current` reach min(current + n, count - 1). */
  lemma {:induction false} DownStepsClamp(current: int, count: nat, n: nat)
    requires count >= 1 && InRange(current, count)
    ensures StepTimes(current, Down, count, n) == if current + n < count then current + n else count - 1
  {
    if n > 0 {
      DownStepsClamp(current, count, n - 1);
    }
  }

  /** Repeated Up steps end at the first section and stay there:
      n of them from `current` reach max(current - n, 0). */
  lemma {:induction false} UpStepsClamp(current: int, count: nat, n: nat)
    requires InRange(current, count)
    ensures StepTimes(current, Up, count, n) == if current - n > 0 then current - n else 0
  {
    if n > 0 {
      UpStepsClamp(current, count, n - 1);
    }
  }

  /** The two early returns of `handleWheelScroll`: an event less than 150 ms
      after the last accepted one, or during a scroll animation, is ignored. */
  predicate WheelAccepted(now: int, lastWheelTime: int, isScrolling: bool) {
    !(now - lastWheelTime < WheelThrottle) && !isScrolling
  }

  /** The direction the wheel timeout steps in, or None for a delta under
      the threshold. */
  function WheelDirection(deltaY: int): (r: Option<Direction>)
    ensures r.None? <==> Abs(deltaY) < WheelDeltaThreshold
    ensures r == Some(Down) <==> deltaY >= WheelDeltaThreshold
    ensures r == Some(Up) <==> deltaY <= -WheelDeltaThreshold
  {
    if Abs(deltaY) < WheelDeltaThreshold then None
    else if deltaY > 0 then Some(Down)
    else Some(Up)
  }

  /** The step the wheel timeout takes from section `current`: none for a
      small delta or at the boundary in the delta's direction. */
  function WheelStep(deltaY: int, current: int, count: nat): (r: Option<int>)
    requires InRange(current, count)
    ensures r.Some? ==> 0 <= r.value < count
    ensures r == Some(current + 1) <==> deltaY >= WheelDeltaThreshold && current < count - 1
    ensures r == Some(current - 1) <==> deltaY <= -WheelDeltaThreshold && current > 0
    ensures r.None? <==>
      Abs(deltaY) < WheelDeltaThreshold || (deltaY > 0 && current >= count - 1) || (deltaY < 0 && current <= 0)
  {
    match WheelDirection(deltaY)
    case None => None
    case Some(dir) => StepTarget(current, dir, count)
  }

  /** What `smoothScrollToSection` does to the scroll position: a target
      closer than 5 px is jumped to, any other is animated towards. */
  datatype ScrollEffect = NoScroll | JumpTo(position: int) | AnimateFrom(start: int, target: int)

  function ScrollTo(target: int, scrollTop: int): (e: ScrollEffect)
    ensures e.JumpTo? <==> -SnapDistance < target - scrollTop < SnapDistance
    ensures e.JumpTo? ==> e.position == target
    ensures e.AnimateFrom? ==> e.start == scrollTop && e.target == target
    ensures e != NoScroll
  {
    if Abs(target - scrollTop) < SnapDistance then JumpTo(target) else AnimateFrom(scrollTop, target)
  }

  /** Consecutive accepted wheel times are at least the throttle apart. */
  predicate Spaced(times: seq<int>) {
    forall i :: 0 < i < |times| ==> times[i - 1] + WheelThrottle <= times[i]
  }

  /** Accepting a wheel event keeps the accepted times spaced. */
  lemma SpacedExtend(times: seq<int>, now: int)
    requires Spaced(times) && times != []
    requires WheelAccepted(now, times[|times| - 1], false)
    ensures Spaced(times + [now])
  {
    var extended := times + [now];
    forall i | 0 < i < |extended| ensures extended[i - 1] + WheelThrottle <= extended[i] {
      if i < |times| {
        assert extended[i - 1] == times[i - 1] && extended[i] == times[i];
      }
    }
  }

  /** Any two accepted wheel times are the throttle apart per event between them. */
  lemma {:induction false} SpacedApart(times: seq<int>, i: int, j: int)
    requires Spaced(times) && 0 <= i <= j < |times|
    ensures times[i] + (j - i) * WheelThrottle <= times[j]
  {
    if i < j {
      SpacedApart(times, i, j - 1);
    }
  }

  /** A burst of wheel events all arriving within one throttle window
      (for example five events within 100 ms) has at most one accepted
      event, hence at most one section step. */
  lemma BurstAcceptsAtMostOne(times: seq<int>, windowStart: int)
    requires Spaced(times)
    requires forall i :: 0 <= i < |times| ==> windowStart <= times[i] < windowStart + WheelThrottle
    ensures |times| <= 1
  {
    if |times| >= 2 {
      SpacedApart(times, 0, 1);
    }
  }
}
