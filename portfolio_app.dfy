/**
 * The `PortfolioApp` controller: the fields of `this.state`, the parts of
 * the page it writes (the `active` flags of nav links, project cards and
 * indicator dots, the message group, the success banner, the floating
 * labels and the submit button), and one method per handler.
 *
 * DOM reads are parameters: section boxes, `scrollTop`, `clientHeight`,
 * mouse or touch `clientX`, wheel `deltaY`, `Date.now()`, field values, focus.
 * Timer and animation callbacks are methods that the event loop calls.
 */
module Portfolio {
  import opened Wrappers
  import opened Indices
  import opened Email
  import opened ContactForm
  import opened Carousel
  import opened Sections

  /** The keys the `keydown` handler distinguishes. */
  datatype Key = ArrowLeft | ArrowRight | ArrowUp | ArrowDown | OtherKey

  /** The two form fields whose labels float. */
  datatype FormField = EmailField | MessageField

  /** Number of indicator dots `createProjectIndicators` creates: one per
      card, when the slider exists, has more than one card and has an
      indicator container. */
  function IndicatorCount(projectCount: nat, hasSlider: bool, hasIndicatorContainer: bool): (n: nat)
    ensures n == 0 || n == projectCount
    ensures n > 0 <==> hasSlider && hasIndicatorContainer && projectCount > 1
  {
    if hasSlider && projectCount > 1 && hasIndicatorContainer then projectCount else 0
  }

  class PortfolioApp {
    // The page structure, fixed once the controller exists.
    const sectionCount: nat
    const projectCount: nat
    const hasSlider: bool
    const hasSubmitButton: bool
    /** The `active` class of each nav link. */
    const navActive: array<bool>
    /** The `active` class of each project card. */
    const cardActive: array<bool>
    /** The `active` class (and `aria-selected`) of each indicator dot. */
    const indicatorActive: array<bool>

    // this.state
    var currentProject: int
    var isDragging: bool
    /** The handle of the auto-slide interval, or null. */
    var autoSlideTimer: Option<nat>
    var touchStartX: int
    var touchCurrentX: int
    var currentSection: int
    var isScrolling: bool
    /** The pending 50 ms wheel timeout, holding the `deltaY` it captured. */
    var wheelTimeout: Option<int>
    var lastWheelTime: int

    // Page state the controller writes.
    var submitButton: SubmitButton
    var messageGroupVisible: bool
    var successVisible: bool
    var emailFloating: bool
    var messageFloating: bool

    // The browser: the next handle `setInterval` returns, the intervals
    // still running, the accepted wheel-event times, and the scroll
    // animations whose last frame has not yet run.
    var nextTimerHandle: nat
    ghost var liveIntervals: set<nat>
    ghost var acceptedWheelTimes: seq<int>
    ghost var animationsInFlight: nat

    ghost predicate Valid()
      reads this`currentProject, this`currentSection, this`isDragging, this`touchCurrentX
      reads this`nextTimerHandle, this`autoSlideTimer, this`liveIntervals
      reads this`acceptedWheelTimes, this`lastWheelTime
    {
      && navActive != cardActive && navActive != indicatorActive && cardActive != indicatorActive
      && cardActive.Length == projectCount
      && (indicatorActive.Length == 0 || (hasSlider && projectCount > 1 && indicatorActive.Length == projectCount))
      && InRange(currentProject, projectCount)
      && InRange(currentSection, sectionCount)
      && (!isDragging ==> touchCurrentX == 0)
      // the state names the only running auto-slide interval, and there is
      // none with a single card
      && 0 < nextTimerHandle
      && (autoSlideTimer.Some? ==> 0 < autoSlideTimer.value < nextTimerHandle)
      && liveIntervals == (if autoSlideTimer.Some? then {autoSlideTimer.value} else {})
      && (projectCount <= 1 ==> autoSlideTimer == None)
      // accepted wheel events are a throttle window apart, the last one is lastWheelTime
      && Spaced([0] + acceptedWheelTimes)
      && lastWheelTime == ([0] + acceptedWheelTimes)[|acceptedWheelTimes|]
    }

    /** The slider shows the current card: exactly it and its dot are active. */
    ghost predicate SliderMarksCurrent()
      reads this`currentProject, cardActive, indicatorActive
    {
      hasSlider && projectCount > 0 ==>
        MarksExactly(cardActive[..], currentProject) && MarksExactly(indicatorActive[..], currentProject)
    }

    /** The state before `init()`: `this.state` as the constructor sets it
        and no element yet flagged by the controller. */
    ghost predicate Initial()
      reads this, navActive, cardActive, indicatorActive
    {
      && Valid()
      && currentProject == 0 && !isDragging && touchStartX == 0 && touchCurrentX == 0
      && currentSection == 0 && !isScrolling && wheelTimeout == None && lastWheelTime == 0
      && autoSlideTimer == None && acceptedWheelTimes == [] && animationsInFlight == 0
      && (forall i :: 0 <= i < navActive.Length ==> !navActive[i])
      && (forall i :: 0 <= i < cardActive.Length ==> !cardActive[i])
      && MarksExactly(indicatorActive[..], 0)
      && submitButton == SubmitButton(Send, false, false)
      && !messageGroupVisible && !successVisible && !emailFloating && !messageFloating
    }

    /** The constructor up to `init()`: `this.state` (lines 22-33) and the page
        structure. The indicator dots are created here, the first active. */
    constructor (navLinkCount: nat, sectionCount: nat, projectCount: nat,
                 hasSlider: bool, hasIndicatorContainer: bool, hasSubmitButton: bool)
      ensures Initial()
      ensures fresh(navActive) && fresh(cardActive) && fresh(indicatorActive)
      ensures this.sectionCount == sectionCount && this.projectCount == projectCount
      ensures this.hasSlider == hasSlider && this.hasSubmitButton == hasSubmitButton
      ensures navActive.Length == navLinkCount
      ensures indicatorActive.Length == IndicatorCount(projectCount, hasSlider, hasIndicatorContainer)
    {
      this.sectionCount := sectionCount;
      this.projectCount := projectCount;
      this.hasSlider := hasSlider;
      this.hasSubmitButton := hasSubmitButton;
      navActive := new bool[navLinkCount](_ => false);
      cardActive := new bool[projectCount](_ => false);
      indicatorActive := new bool[IndicatorCount(projectCount, hasSlider, hasIndicatorContainer)](i => i == 0);
      currentProject := 0;
      isDragging := false;
      autoSlideTimer := None;
      touchStartX := 0;
      touchCurrentX := 0;
      currentSection := 0;
      isScrolling := false;
      wheelTimeout := None;
      lastWheelTime := 0;
      submitButton := SubmitButton(Send, false, false);
      messageGroupVisible := false;
      successVisible := false;
      emailFloating := false;
      messageFloating := false;
      nextTimerHandle := 1;
      liveIntervals := {};
      acceptedWheelTimes := [];
      animationsInFlight := 0;
      new;
      assert MarksExactly(indicatorActive[..], 0);
    }

    /** `init()`, run once on the initial state: the slider, the form and
        the section navigator take their starting state from the page. */
    method Init(sections: seq<SectionBox>, scrollTop: int, viewportHeight: int,
                email: string, message: string, emailFocused: bool, messageFocused: bool)
      requires Initial() && |sections| == sectionCount
      modifies cardActive, navActive, this`autoSlideTimer, this`liveIntervals, this`nextTimerHandle
      modifies this`emailFloating, this`messageFloating, this`messageGroupVisible, this`submitButton
      modifies this`currentSection
      ensures Valid()
      ensures currentProject == 0 && !isDragging && touchCurrentX == 0
      ensures !isScrolling && wheelTimeout == None && lastWheelTime == 0
      ensures sectionCount == 0 ==> currentSection == 0
      ensures sectionCount > 0 ==> IsFirstMostVisible(sections, scrollTop, viewportHeight, currentSection)
      ensures MarksExactly(navActive[..], currentSection)
      ensures SliderMarksCurrent()
      ensures !(hasSlider && projectCount > 0) ==> forall i :: 0 <= i < cardActive.Length ==> !cardActive[i]
      ensures autoSlideTimer.Some? <==> hasSlider && projectCount > 1
      ensures emailFloating == LabelFloats(email, emailFocused)
      ensures messageFloating == LabelFloats(message, messageFocused)
      ensures messageGroupVisible == ContactForm.ValidateForm(email, message).messageGroupVisible
      ensures hasSubmitButton ==> submitButton == ApplyGate(SubmitButton(Send, false, false), ContactForm.ValidateForm(email, message))
      ensures !successVisible
    {
      InitProjectSlider();
      InitContactForm(email, message, emailFocused, messageFocused);
      InitMouseWheelNavigation(sections, scrollTop, viewportHeight);
      RecomputeCurrentSection(sections, scrollTop, viewportHeight);
    }

    /** The `updateCurrentSection()` that closes `init()`, right after
        `initMouseWheelNavigation` computed it from the same scroll position:
        the current section, and so the active link, stay the same. */
    method RecomputeCurrentSection(sections: seq<SectionBox>, scrollTop: int, viewportHeight: int)
      requires Valid() && |sections| == sectionCount
      requires sectionCount == 0 ==> currentSection == 0
      requires sectionCount > 0 ==> IsFirstMostVisible(sections, scrollTop, viewportHeight, currentSection)
      modifies this`currentSection
      ensures Valid()
      ensures currentSection == old(currentSection)
    {
      ghost var shown := currentSection;
      UpdateCurrentSection(sections, scrollTop, viewportHeight);
      if sectionCount > 0 {
        FirstMostVisibleUnique(sections, scrollTop, viewportHeight, shown, currentSection);
      }
    }

    /** `initProjectSlider` on the initial state: with a slider and at least
        one card the first card is active (the dots are created with the
        first active), and with more than one card auto-slide starts. */
    method InitProjectSlider()
      requires Valid() && currentProject == 0 && autoSlideTimer == None
      requires forall i :: 0 <= i < cardActive.Length ==> !cardActive[i]
      requires MarksExactly(indicatorActive[..], 0)
      modifies cardActive, this`autoSlideTimer, this`liveIntervals, this`nextTimerHandle
      ensures Valid()
      ensures SliderMarksCurrent()
      ensures !(hasSlider && projectCount > 0) ==> unchanged(cardActive)
      ensures autoSlideTimer.Some? <==> hasSlider && projectCount > 1
    {
      if !hasSlider || projectCount == 0 {
        return;
      }
      cardActive[0] := true;
      if projectCount > 1 {
        StartAutoSlide();
      }
    }

    /** `initContactForm`: both labels and the gate reflect the initial
        field values. */
    method InitContactForm(email: string, message: string, emailFocused: bool, messageFocused: bool)
      requires Valid()
      modifies this`emailFloating, this`messageFloating, this`messageGroupVisible, this`submitButton
      ensures Valid()
      ensures emailFloating == LabelFloats(email, emailFocused)
      ensures messageFloating == LabelFloats(message, messageFocused)
      ensures messageGroupVisible == ContactForm.ValidateForm(email, message).messageGroupVisible
      ensures hasSubmitButton ==> submitButton == ApplyGate(old(submitButton), ContactForm.ValidateForm(email, message))
      ensures !hasSubmitButton ==> submitButton == old(submitButton)
    {
      UpdateLabel(EmailField, email, emailFocused);
      UpdateLabel(MessageField, message, messageFocused);
      ValidateForm(email, message);
    }

    /** `initMouseWheelNavigation`: the current section and the links follow
        the initial scroll position. */
    method InitMouseWheelNavigation(sections: seq<SectionBox>, scrollTop: int, viewportHeight: int)
      requires Valid() && |sections| == sectionCount
      modifies this`currentSection, navActive
      ensures Valid()
      ensures sectionCount == 0 ==> currentSection == old(currentSection)
      ensures sectionCount > 0 ==> IsFirstMostVisible(sections, scrollTop, viewportHeight, currentSection)
      ensures MarksExactly(navActive[..], currentSection)
    {
      UpdateCurrentSection(sections, scrollTop, viewportHeight);
      UpdateActiveNavigation();
    }

    // ---------------------------------------------------------------- sections

    /** `updateCurrentSection`: with at least one section, the first section
        with the largest visible overlap becomes current. */
    method UpdateCurrentSection(sections: seq<SectionBox>, scrollTop: int, viewportHeight: int)
      requires Valid() && |sections| == sectionCount
      modifies this`currentSection
      ensures Valid()
      ensures sectionCount == 0 ==> currentSection == old(currentSection)
      ensures sectionCount > 0 ==> IsFirstMostVisible(sections, scrollTop, viewportHeight, currentSection)
    {
      if sectionCount == 0 {
        return;
      }
      currentSection := MostVisibleSection(sections, scrollTop, viewportHeight);
    }

    /** `updateActiveNavigation`: exactly the link at the current section's
        position is active (none when there is no such link). */
    method UpdateActiveNavigation()
      requires Valid()
      modifies navActive
      ensures Valid()
      ensures MarksExactly(navActive[..], currentSection)
    {
      var i := 0;
      while i < navActive.Length
        invariant 0 <= i <= navActive.Length
        invariant forall j :: 0 <= j < i ==> navActive[j] == (j == currentSection)
      {
        navActive[i] := i == currentSection;
        i := i + 1;
      }
    }

    /** `smoothScrollToSection` (also a nav-link click): an index that names
        no section changes nothing; otherwise it becomes current and the
        viewport jumps (under 5 px away: `isScrolling` is cleared at once and
        the links updated) or starts an animation (`isScrolling` stays set
        until its last frame). */
    method SmoothScrollToSection(index: int, sections: seq<SectionBox>, scrollTop: int) returns (effect: ScrollEffect)
      requires Valid() && |sections| == sectionCount
      modifies this`isScrolling, this`currentSection, this`animationsInFlight, navActive
      ensures Valid()
      ensures !(0 <= index < sectionCount) ==>
        && effect == NoScroll && isScrolling == old(isScrolling) && currentSection == old(currentSection)
        && animationsInFlight == old(animationsInFlight) && unchanged(navActive)
      ensures 0 <= index < sectionCount ==>
        && currentSection == index
        && effect == ScrollTo(sections[index].top, scrollTop)
        && isScrolling == effect.AnimateFrom?
        && (effect.JumpTo? ==> MarksExactly(navActive[..], index) && animationsInFlight == old(animationsInFlight))
        && (effect.AnimateFrom? ==> unchanged(navActive) && animationsInFlight == old(animationsInFlight) + 1)
    {
      if !(0 <= index < sectionCount) {
        return NoScroll;
      }
      isScrolling := true;
      currentSection := index;
      effect := ScrollTo(sections[index].top, scrollTop);
      if effect.JumpTo? {
        isScrolling := false;
        UpdateActiveNavigation();
        return;
      }
      animationsInFlight := animationsInFlight + 1;
    }

    /** The last frame of a scroll animation: scrolling is over and the
        links show the current section. */
    method AnimationFinished()
      requires Valid() && animationsInFlight > 0
      modifies this`isScrolling, this`animationsInFlight, navActive
      ensures Valid()
      ensures !isScrolling && animationsInFlight == old(animationsInFlight) - 1
      ensures MarksExactly(navActive[..], currentSection)
    {
      isScrolling := false;
      animationsInFlight := animationsInFlight - 1;
      UpdateActiveNavigation();
    }

    /** The container's `scroll` listener: outside an animation, the most
        visible section becomes current and the links follow it. */
    method HandleScroll(sections: seq<SectionBox>, scrollTop: int, viewportHeight: int)
      requires Valid() && |sections| == sectionCount
      modifies this`currentSection, navActive
      ensures Valid()
      ensures isScrolling ==> currentSection == old(currentSection) && unchanged(navActive)
      ensures !isScrolling && sectionCount > 0 ==> IsFirstMostVisible(sections, scrollTop, viewportHeight, currentSection)
      ensures !isScrolling && sectionCount == 0 ==> currentSection == old(currentSection)
      ensures !isScrolling ==> MarksExactly(navActive[..], currentSection)
    {
      if !isScrolling {
        UpdateCurrentSection(sections, scrollTop, viewportHeight);
        UpdateActiveNavigation();
      }
    }

    /** `handleWheelScroll` at time `now`: within 150 ms of the last accepted
        event, or during a scroll animation, nothing changes; otherwise the
        time is recorded and the 50 ms timeout is (re)armed with `deltaY`,
        replacing any pending one. */
    method HandleWheelScroll(deltaY: int, now: int)
      requires Valid()
      modifies this`lastWheelTime, this`wheelTimeout, this`acceptedWheelTimes
      ensures Valid()
      ensures !WheelAccepted(now, old(lastWheelTime), isScrolling) ==>
        lastWheelTime == old(lastWheelTime) && wheelTimeout == old(wheelTimeout) && acceptedWheelTimes == old(acceptedWheelTimes)
      ensures WheelAccepted(now, old(lastWheelTime), isScrolling) ==>
        && lastWheelTime == now && wheelTimeout == Some(deltaY)
        && acceptedWheelTimes == old(acceptedWheelTimes) + [now]
        && old(lastWheelTime) + WheelThrottle <= now
    {
      if now - lastWheelTime < WheelThrottle {
        return;
      }
      if isScrolling {
        return;
      }
      SpacedExtend([0] + acceptedWheelTimes, now);
      assert [0] + acceptedWheelTimes + [now] == [0] + (acceptedWheelTimes + [now]);
      lastWheelTime := now;
      acceptedWheelTimes := acceptedWheelTimes + [now];
      wheelTimeout := Some(deltaY);
    }

    /** The wheel timeout fires: a step of one section in the direction of
        the captured delta, unless the delta is under 5 or the current
        section is the last (down) or first (up). */
    method WheelTimeoutFires(sections: seq<SectionBox>, scrollTop: int) returns (effect: ScrollEffect)
      requires Valid() && |sections| == sectionCount && wheelTimeout.Some?
      modifies this`wheelTimeout, this`isScrolling, this`currentSection, this`animationsInFlight, navActive
      ensures Valid()
      ensures wheelTimeout == None
      ensures WheelStep(old(wheelTimeout).value, old(currentSection), sectionCount).None? ==>
        && effect == NoScroll && isScrolling == old(isScrolling) && currentSection == old(currentSection)
        && animationsInFlight == old(animationsInFlight) && unchanged(navActive)
      ensures WheelStep(old(wheelTimeout).value, old(currentSection), sectionCount).Some? ==>
        && currentSection == WheelStep(old(wheelTimeout).value, old(currentSection), sectionCount).value
        && effect == ScrollTo(sections[currentSection].top, scrollTop)
        && isScrolling == effect.AnimateFrom?
        && (effect.JumpTo? ==> MarksExactly(navActive[..], currentSection) && animationsInFlight == old(animationsInFlight))
        && (effect.AnimateFrom? ==> unchanged(navActive) && animationsInFlight == old(animationsInFlight) + 1)
    {
      var deltaY := wheelTimeout.value;
      wheelTimeout := None;
      effect := NoScroll;
      match WheelStep(deltaY, currentSection, sectionCount)
      case None =>
      case Some(target) =>
        effect := SmoothScrollToSection(target, sections, scrollTop);
    }

    // ---------------------------------------------------------------- carousel

    /** `updateSlider`: with a slider and at least one card, exactly the
        current card and its dot are active; otherwise nothing changes. */
    method UpdateSlider()
      requires Valid()
      modifies cardActive, indicatorActive
      ensures Valid()
      ensures SliderMarksCurrent()
      ensures !(hasSlider && projectCount > 0) ==> unchanged(cardActive) && unchanged(indicatorActive)
    {
      if !hasSlider || projectCount == 0 {
        return;
      }
      var i := 0;
      while i < indicatorActive.Length
        invariant 0 <= i <= indicatorActive.Length
        invariant forall j :: 0 <= j < i ==> indicatorActive[j] == (j == currentProject)
      {
        indicatorActive[i] := i == currentProject;
        i := i + 1;
      }
      i := 0;
      while i < cardActive.Length
        invariant 0 <= i <= cardActive.Length
        invariant forall j :: 0 <= j < i ==> cardActive[j] == (j == currentProject)
        invariant MarksExactly(indicatorActive[..], currentProject)
      {
        cardActive[i] := i == currentProject;
        i := i + 1;
      }
    }

    /** `pauseAutoSlide`: afterwards no interval runs, whatever ran before,
        so calling it again changes nothing. */
    method PauseAutoSlide()
      requires Valid()
      modifies this`autoSlideTimer, this`liveIntervals
      ensures Valid()
      ensures autoSlideTimer == None && liveIntervals == {}
    {
      if autoSlideTimer.Some? {
        liveIntervals := liveIntervals - {autoSlideTimer.value};
        autoSlideTimer := None;
      }
    }

    /** `startAutoSlide`: with more than one card, any running interval is
        cleared and exactly one new one runs; otherwise nothing changes. */
    method StartAutoSlide()
      requires Valid()
      modifies this`autoSlideTimer, this`liveIntervals, this`nextTimerHandle
      ensures Valid()
      ensures projectCount <= 1 ==>
        autoSlideTimer == old(autoSlideTimer) == None && liveIntervals == old(liveIntervals) == {}
        && nextTimerHandle == old(nextTimerHandle)
      ensures projectCount > 1 ==>
        && autoSlideTimer == Some(old(nextTimerHandle)) && liveIntervals == {old(nextTimerHandle)}
        && nextTimerHandle == old(nextTimerHandle) + 1
        && (old(autoSlideTimer).Some? ==> old(autoSlideTimer).value !in liveIntervals)
    {
      if projectCount <= 1 {
        return;
      }
      PauseAutoSlide();
      autoSlideTimer := Some(nextTimerHandle);
      liveIntervals := liveIntervals + {nextTimerHandle};
      nextTimerHandle := nextTimerHandle + 1;
    }

    /** `goToProject` (an indicator click): the clicked card becomes current
        and auto-slide pauses. */
    method GoToProject(index: int)
      requires Valid() && 0 <= index < projectCount
      modifies this`currentProject, cardActive, indicatorActive, this`autoSlideTimer, this`liveIntervals
      ensures Valid()
      ensures currentProject == index && SliderMarksCurrent()
      ensures !(hasSlider && projectCount > 0) ==> unchanged(cardActive) && unchanged(indicatorActive)
      ensures autoSlideTimer == None && liveIntervals == {}
    {
      currentProject := index;
      UpdateSlider();
      PauseAutoSlide();
    }

    /** `nextProject`: one card on, wrapping to the first; auto-slide pauses. */
    method NextProject()
      requires Valid()
      modifies this`currentProject, cardActive, indicatorActive, this`autoSlideTimer, this`liveIntervals
      ensures Valid()
      ensures currentProject == NextIndex(old(currentProject), projectCount) && SliderMarksCurrent()
      ensures !(hasSlider && projectCount > 0) ==> unchanged(cardActive) && unchanged(indicatorActive)
      ensures autoSlideTimer == None && liveIntervals == {}
    {
      currentProject := NextIndex(currentProject, projectCount);
      UpdateSlider();
      PauseAutoSlide();
    }

    /** `previousProject`: one card back, wrapping to the last; auto-slide pauses. */
    method PreviousProject()
      requires Valid()
      modifies this`currentProject, cardActive, indicatorActive, this`autoSlideTimer, this`liveIntervals
      ensures Valid()
      ensures currentProject == PreviousIndex(old(currentProject), projectCount) && SliderMarksCurrent()
      ensures !(hasSlider && projectCount > 0) ==> unchanged(cardActive) && unchanged(indicatorActive)
      ensures autoSlideTimer == None && liveIntervals == {}
    {
      currentProject := PreviousIndex(currentProject, projectCount);
      UpdateSlider();
      PauseAutoSlide();
    }

    /** The auto-slide interval fires: `nextProject`, which also clears it. */
    method AutoSlideTick()
      requires Valid() && autoSlideTimer.Some?
      modifies this`currentProject, cardActive, indicatorActive, this`autoSlideTimer, this`liveIntervals
      ensures Valid()
      ensures currentProject == NextIndex(old(currentProject), projectCount) && SliderMarksCurrent()
      ensures !(hasSlider && projectCount > 0) ==> unchanged(cardActive) && unchanged(indicatorActive)
      ensures autoSlideTimer == None && liveIntervals == {}
    {
      NextProject();
    }

    /** `handleInteractionStart` (mousedown or touchstart at `clientX`). */
    method HandleInteractionStart(clientX: int)
      requires Valid()
      modifies this`isDragging, this`touchStartX, this`autoSlideTimer, this`liveIntervals
      ensures Valid()
      ensures isDragging && touchStartX == clientX
      ensures autoSlideTimer == None && liveIntervals == {}
    {
      isDragging := true;
      touchStartX := clientX;
      PauseAutoSlide();
    }

    /** `handleInteractionMove`: while dragging, the displacement from the start. */
    method HandleInteractionMove(clientX: int)
      requires Valid()
      modifies this`touchCurrentX
      ensures Valid()
      ensures isDragging ==> touchCurrentX == clientX - touchStartX
      ensures !isDragging ==> touchCurrentX == old(touchCurrentX)
    {
      if !isDragging {
        return;
      }
      touchCurrentX := clientX - touchStartX;
    }

    /** `handleInteractionEnd` (mouseup, mouseleave or touchend): outside a
        drag nothing changes; otherwise the drag ends, the displacement
        decides a clamped swipe, the slider is redrawn and the
        displacement resets. */
    method HandleInteractionEnd()
      requires Valid()
      modifies this`isDragging, this`currentProject, this`touchCurrentX, cardActive, indicatorActive
      ensures Valid()
      ensures !old(isDragging) ==>
        && !isDragging && currentProject == old(currentProject) && touchCurrentX == old(touchCurrentX)
        && unchanged(cardActive) && unchanged(indicatorActive)
      ensures old(isDragging) ==>
        && !isDragging && touchCurrentX == 0
        && currentProject == SwipeTarget(old(currentProject), old(touchCurrentX), projectCount)
        && SliderMarksCurrent()
    {
      if !isDragging {
        return;
      }
      isDragging := false;
      currentProject := SwipeTarget(currentProject, touchCurrentX, projectCount);
      touchCurrentX := 0;
      UpdateSlider();
    }

    /** The page's `visibilitychange` listener: a hidden page pauses
        auto-slide, a visible one restarts it. */
    method HandleVisibilityChange(hidden: bool)
      requires Valid()
      modifies this`autoSlideTimer, this`liveIntervals, this`nextTimerHandle
      ensures Valid()
      ensures hidden ==> autoSlideTimer == None && liveIntervals == {}
      ensures !hidden ==> (autoSlideTimer.Some? <==> projectCount > 1) && |liveIntervals| <= 1
    {
      if hidden {
        PauseAutoSlide();
      } else {
        StartAutoSlide();
      }
    }

    // ---------------------------------------------------------------- keyboard

    /** The `keydown` listener. Nothing happens while a text field has focus.
        ArrowLeft and ArrowRight step the carousel, wrapping; ArrowUp and
        ArrowDown scroll one section, clamped at the ends. Arrow keys do not
        wait for a running scroll animation. */
    method HandleKeyDown(key: Key, inTextField: bool, sections: seq<SectionBox>, scrollTop: int) returns (effect: ScrollEffect)
      requires Valid() && |sections| == sectionCount
      modifies this`currentProject, cardActive, indicatorActive, this`autoSlideTimer, this`liveIntervals
      modifies this`isScrolling, this`currentSection, this`animationsInFlight, navActive
      ensures Valid()
      ensures inTextField || key == OtherKey ==>
        && effect == NoScroll && currentProject == old(currentProject) && currentSection == old(currentSection)
        && isScrolling == old(isScrolling) && autoSlideTimer == old(autoSlideTimer)
        && animationsInFlight == old(animationsInFlight)
        && unchanged(navActive) && unchanged(cardActive) && unchanged(indicatorActive)
      ensures !inTextField && (key == ArrowLeft || key == ArrowRight) ==>
        && effect == NoScroll && currentSection == old(currentSection) && isScrolling == old(isScrolling)
        && animationsInFlight == old(animationsInFlight) && unchanged(navActive)
        && SliderMarksCurrent() && autoSlideTimer == None && liveIntervals == {}
        && (!(hasSlider && projectCount > 0) ==> unchanged(cardActive) && unchanged(indicatorActive))
      ensures !inTextField && key == ArrowLeft ==> currentProject == PreviousIndex(old(currentProject), projectCount)
      ensures !inTextField && key == ArrowRight ==> currentProject == NextIndex(old(currentProject), projectCount)
      ensures !inTextField && (key == ArrowUp || key == ArrowDown) ==>
        var step := StepTarget(old(currentSection), if key == ArrowUp then Up else Down, sectionCount);
        && currentProject == old(currentProject) && autoSlideTimer == old(autoSlideTimer)
        && unchanged(cardActive) && unchanged(indicatorActive)
        && (step.None? ==>
              && effect == NoScroll && currentSection == old(currentSection) && isScrolling == old(isScrolling)
              && animationsInFlight == old(animationsInFlight) && unchanged(navActive))
        && (step.Some? ==>
              && currentSection == step.value && effect == ScrollTo(sections[step.value].top, scrollTop)
              && isScrolling == effect.AnimateFrom?
              && (effect.JumpTo? ==> MarksExactly(navActive[..], step.value) && animationsInFlight == old(animationsInFlight))
              && (effect.AnimateFrom? ==> unchanged(navActive) && animationsInFlight == old(animationsInFlight) + 1))
    {
      effect := NoScroll;
      if inTextField {
        return;
      }
      match key
      case ArrowLeft =>
        PreviousProject();
      case ArrowRight =>
        NextProject();
      case ArrowUp =>
        if currentSection > 0 {
          effect := SmoothScrollToSection(currentSection - 1, sections, scrollTop);
        }
      case ArrowDown =>
        if currentSection < sectionCount - 1 {
          effect := SmoothScrollToSection(currentSection + 1, sections, scrollTop);
        }
      case OtherKey =>
    }

    // ---------------------------------------------------------------- contact form

    /** `updateLabel` for one field. */
    method UpdateLabel(field: FormField, value: string, focused: bool)
      requires Valid()
      modifies this`emailFloating, this`messageFloating
      ensures Valid()
      ensures field == EmailField ==> emailFloating == LabelFloats(value, focused) && messageFloating == old(messageFloating)
      ensures field == MessageField ==> messageFloating == LabelFloats(value, focused) && emailFloating == old(emailFloating)
    {
      match field
      case EmailField => emailFloating := LabelFloats(value, focused);
      case MessageField => messageFloating := LabelFloats(value, focused);
    }

    /** `validateForm` on the current field values. */
    method ValidateForm(email: string, message: string)
      requires Valid()
      modifies this`messageGroupVisible, this`submitButton
      ensures Valid()
      ensures messageGroupVisible == ContactForm.ValidateForm(email, message).messageGroupVisible
      ensures hasSubmitButton ==> submitButton == ApplyGate(old(submitButton), ContactForm.ValidateForm(email, message))
      ensures !hasSubmitButton ==> submitButton == old(submitButton)
    {
      var gate := ContactForm.ValidateForm(email, message);
      messageGroupVisible := gate.messageGroupVisible;
      if hasSubmitButton {
        submitButton := ApplyGate(submitButton, gate);
      }
    }

    /** `setSubmitButtonState`. */
    method SetSubmitButtonState(request: ButtonRequest)
      requires Valid()
      modifies this`submitButton
      ensures Valid()
      ensures submitButton == if hasSubmitButton then SetButtonState(old(submitButton), request) else old(submitButton)
    {
      if hasSubmitButton {
        submitButton := SetButtonState(submitButton, request);
      }
    }

    /** The part of `handleFormSubmit` before the request: unless the raw
        email is valid and the message has content nothing happens;
        otherwise the button shows SENDING and the request goes out. */
    method HandleFormSubmit(email: string, message: string) returns (sent: bool)
      requires Valid()
      modifies this`submitButton
      ensures Valid()
      ensures sent <==> SubmitAccepted(email, message)
      ensures !sent ==> submitButton == old(submitButton)
      ensures sent && hasSubmitButton ==> submitButton == SetButtonState(old(submitButton), Loading)
    {
      if !SubmitAccepted(email, message) {
        return false;
      }
      SetSubmitButtonState(Loading);
      sent := true;
    }

    /** The request settles, ok or not (a network failure counts as not ok). */
    method SubmissionSettled(ok: bool)
      requires Valid()
      modifies this`successVisible, this`messageGroupVisible, this`submitButton
      modifies this`emailFloating, this`messageFloating
      ensures Valid()
      ensures ok ==> successVisible && !messageGroupVisible && !emailFloating && !messageFloating
      ensures ok ==> submitButton == if hasSubmitButton then old(submitButton).(disabled := true, movedDown := false) else old(submitButton)
      ensures !ok ==> successVisible == old(successVisible) && messageGroupVisible == old(messageGroupVisible)
      ensures !ok ==> emailFloating == old(emailFloating) && messageFloating == old(messageFloating)
      ensures !ok ==> submitButton == if hasSubmitButton then ShowError(old(submitButton)) else old(submitButton)
    {
      if ok {
        HandleFormSuccess();
      } else {
        HandleFormError();
      }
    }

    /** `handleFormSuccess`: the banner shows, the form is reset (both
        fields empty, labels down, message group hidden) and revalidated,
        which disables the button. */
    method HandleFormSuccess()
      requires Valid()
      modifies this`successVisible, this`messageGroupVisible, this`submitButton
      modifies this`emailFloating, this`messageFloating
      ensures Valid()
      ensures successVisible && !messageGroupVisible && !emailFloating && !messageFloating
      ensures hasSubmitButton ==> submitButton == old(submitButton).(disabled := true, movedDown := false)
      ensures !hasSubmitButton ==> submitButton == old(submitButton)
    {
      successVisible := true;
      messageGroupVisible := false;
      if hasSubmitButton {
        submitButton := submitButton.(movedDown := false);
      }
      emailFloating := false;
      messageFloating := false;
      ValidateForm("", "");
      EmptyFormIsGated();
    }

    /** `handleFormError`: the button shows the error text. */
    method HandleFormError()
      requires Valid()
      modifies this`submitButton
      ensures Valid()
      ensures submitButton == if hasSubmitButton then ShowError(old(submitButton)) else old(submitButton)
    {
      if hasSubmitButton {
        submitButton := ShowError(submitButton);
      }
    }

    /** The 1000 ms timer of `handleFormSubmit`'s `finally`: 'normal'. The
        button is enabled even when the form was just emptied. */
    method SubmitCooldownElapsed()
      requires Valid()
      modifies this`submitButton
      ensures Valid()
      ensures hasSubmitButton ==> !submitButton.disabled && submitButton.text != Sending
      ensures hasSubmitButton ==> submitButton == SetButtonState(old(submitButton), Normal)
    {
      SetSubmitButtonState(Normal);
    }

    /** The 3000 ms timer of `handleFormError`: SEND, whatever the text is now. */
    method ErrorDisplayElapsed()
      requires Valid()
      modifies this`submitButton
      ensures Valid()
      ensures submitButton == if hasSubmitButton then ClearError(old(submitButton)) else old(submitButton)
    {
      if hasSubmitButton {
        submitButton := ClearError(submitButton);
      }
    }

    /** The 4000 ms timer of `handleFormSuccess`: the banner hides. */
    method SuccessDisplayElapsed()
      requires Valid()
      modifies this`successVisible
      ensures Valid()
      ensures !successVisible
    {
      successVisible := false;
    }
  }
}
