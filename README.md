# PortfolioApp controller, modelled in Dafny

This project models the `PortfolioApp` controller of a one-page portfolio
site (`assets/js/script.js`). The controller drives four things:

- a full-height section navigator: nav links, the mouse wheel, the arrow
  keys and scroll tracking;
- a project carousel: arrows, indicator dots, swipes and a 5-second
  auto-slide;
- a contact form with floating labels and gating of the submit button;
- the submit button's state machine.

The model turns the DOM into values:

- Section boxes, `scrollTop`, `clientHeight`, mouse or touch `clientX`, wheel
  `deltaY`, `Date.now()`, field values and focus are parameters.
- The elements the controller writes are fields: the `active` flags of nav
  links, cards and indicator dots (arrays), message-group visibility, the
  success banner, the floating labels and the submit button.
- Timer and animation callbacks are methods that the event loop calls:
  - `AutoSlideTick` for the 5000 ms interval;
  - `WheelTimeoutFires` for the 50 ms wheel timeout;
  - `AnimationFinished` for the last animation frame;
  - `SubmitCooldownElapsed`, `ErrorDisplayElapsed` and
    `SuccessDisplayElapsed` for the form timers;
  - `StartAutoSlide` for the deferred 3000 ms restart.

Files and modules:

- `indices.dfy` (`Indices`): index bounds, and "exactly element k is
  active" with its counting lemmas.
- `email.dfy` (`Email`): `isValidEmail` as an explicit predicate, and
  `String.prototype.trim`.
- `contact_form.dfy` (`ContactForm`): `validateForm`, `updateLabel`, the
  submit guard and the submit-button state machine, as functions.
- `carousel.dfy` (`Carousel`): wrap and clamp index arithmetic.
- `sections.dfy` (`Sections`): visible overlap, the most-visible-section
  loop, clamped steps, the wheel decision and the throttle.
- `portfolio_app.dfy` (`Portfolio`): the `PortfolioApp` class. Its fields
  are `this.state` and the page state. Its invariant `Valid()` keeps:
  - both indices in range;
  - no displacement outside a drag;
  - at most one auto-slide interval alive, and it is the one the state
    names (none with fewer than two cards);
  - accepted wheel events at least 150 ms apart.
- `wrappers.dfy` (`Wrappers`): `Option`.

Three behaviours of the code that a reader might not expect, all modelled
as written:

- Arrow keys and nav-link clicks start a new scroll even while an
  animation runs. Only the wheel waits for `isScrolling`.
- `'normal'` re-enables the submit button even after a successful send
  emptied the form.
- `validateForm` trims the email before checking it and the submit
  handler does not. So an address followed by a no-break space (U+00A0)
  enables the button, yet pressing it sends nothing. U+00A0 is used
  because an `<input type="email">` already strips trailing ASCII
  whitespace from its value; `trim` and `\s` both cover U+00A0.

## Model

| member | source | states |
|---|---|---|
| Email.ValidEmailSplits | assets/js/script.js:706-709 | every accepted address is `L@X.Y` with L and X non-empty, Y at least two characters long, only address characters in L, X and Y, and at most 254 characters |
| Email.JoinedEmailIsValid | assets/js/script.js:706-709 | conversely, every such `L@X.Y` of at most 254 characters is accepted |
| Email.ValidEmailHasOneAt | assets/js/script.js:706-709 | an accepted address has exactly one `@` and no whitespace |
| Email.EmailExamples | assets/js/script.js:706-709 | "a@b.co" is accepted; "a@b.c", "a@b", "" and anything over 254 characters are rejected |
| Email.MalformedEmailExamples | assets/js/script.js:706-709 | whitespace in the local part and a second `@` are rejected |
| Email.IsJsWhitespace | assets/js/script.js:707 | the `\s` class of the pattern, which is also the set `trim` strips (no contract: a definition) |
| Email.IsValidEmail | assets/js/script.js:706-709 | the pattern matches and the length is at most 254 (no contract: a definition; its properties are the lemmas above) |
| Email.IndexOf | assets/js/script.js:707 | the local part of the pattern ends at the first `@`: the result is that position, or the length when there is none |
| Email.ContentStart | assets/js/script.js:432-433 | where `trim` starts keeping: every character skipped is whitespace and the one it stops at is not |
| Email.ContentEnd | assets/js/script.js:432-433 | where `trim` stops keeping: every character dropped is whitespace and the last one kept is not |
| Email.Trim | assets/js/script.js:432-433 | the trimmed text is no longer than the input and neither starts nor ends with whitespace |
| Email.TrimIsSlice | assets/js/script.js:432-433 | `trim` keeps one contiguous slice, removes only whitespace, and leaves no whitespace at either end |
| Email.TrimEmptyIffBlank | assets/js/script.js:433 | a text trims to empty exactly when it is all whitespace |
| Email.TrimKeepsUnspaced | assets/js/script.js:432 | `trim` leaves a text without whitespace unchanged |
| Email.ValidEmailTrimmed | assets/js/script.js:432 | trimming never rejects an address that is accepted untrimmed |
| Email.TrailingSpaceExample | assets/js/script.js:432 | `"a@b.co"` followed by U+00A0 trims to a valid address but is itself rejected |
| ContactForm.ValidateForm | assets/js/script.js:427-443 | the message group shows and the button moves down exactly when the trimmed email is valid; the button is enabled exactly when, in addition, the message has a non-whitespace character |
| ContactForm.LabelFloats | assets/js/script.js:417-422 | a label floats when its field has text, and otherwise exactly when the field has focus |
| ContactForm.SubmitAccepted | assets/js/script.js:456 | the submit goes ahead exactly when the untrimmed email is valid and the message has content |
| ContactForm.SubmitAcceptedImpliesEnabled | assets/js/script.js:427-443 | every submission that goes ahead had an enabled button |
| ContactForm.EnabledButNotAccepted | assets/js/script.js:432 | the converse fails: `"a@b.co"` followed by U+00A0, with message "hi" enables the button but the submit is dropped |
| ContactForm.EmptyFormIsGated | assets/js/script.js:492-501 | on the emptied form the message group is hidden and the button disabled |
| ContactForm.SetButtonState | assets/js/script.js:531-548 | 'loading' disables and shows SENDING; 'normal' enables, turns SENDING into SEND and keeps any other text |
| ContactForm.ApplyGate | assets/js/script.js:437-442 | the gate sets only `disabled` and `moved-down`; the text is kept |
| ContactForm.ShowError | assets/js/script.js:512-519 | the error text, with `disabled` and `moved-down` kept |
| ContactForm.ClearError | assets/js/script.js:521-525 | SEND, whatever the text, with the rest kept |
| ContactForm.NormalIdempotent | assets/js/script.js:541-546 | a second 'normal' changes nothing |
| ContactForm.ErrorSurvivesCooldown | assets/js/script.js:472-479 | after 'loading', an error and the 1000 ms 'normal', the error text stays on an enabled button |
| ContactForm.SuccessCooldownEnablesEmptyForm | assets/js/script.js:476-501 | after a success, the 1000 ms 'normal' enables the button with SEND although the emptied form is gated |
| ContactForm.ClearErrorDuringResend | assets/js/script.js:521-525 | the 3000 ms error timer is never cancelled: during a second request it shows SEND on the disabled button |
| Carousel.NextIndex | assets/js/script.js:624-627 | one card on, wrapping from the last to the first; the index stays in range |
| Carousel.PreviousIndex | assets/js/script.js:638-643 | one card back, wrapping from the first to the last; it is undone by NextIndex; the index stays in range |
| Carousel.PreviousAfterNext | assets/js/script.js:624-649 | `previousProject` after `nextProject` returns to the starting card |
| Carousel.NextTimes | assets/js/script.js:624-627 | any number of `nextProject` calls keeps the index in range |
| Carousel.NextTimesShifts | assets/js/script.js:624-627 | k calls, for k up to the card count, move k cards on, wrapping at most once |
| Carousel.NextFullCycle | assets/js/script.js:624-627 | as many `nextProject` calls as there are cards return to the start |
| Carousel.SwipeTarget | assets/js/script.js:362-366 | a swipe beyond 50 px goes back one card exactly when not at the first card, or on one card exactly when not at the last; otherwise the index is kept |
| Carousel.SwipeClampsWhereStepsWrap | assets/js/script.js:362-366 | at either end a swipe stays put where `nextProject` and `previousProject` wrap |
| Carousel.JsRemainder | assets/js/script.js:626 | JavaScript `%`: NaN exactly for a zero divisor; otherwise the dividend is the truncated quotient times the divisor plus the result, which has the sign of the dividend and is smaller than the divisor in size |
| Carousel.NextProjectAsWritten | assets/js/script.js:626 | the stored value is NaN exactly with no cards; with cards and an index in range it is an index in range |
| Carousel.PreviousProjectAsWritten | assets/js/script.js:640-642 | with an index in range the result is in range; from 0 with no cards it is negative |
| Carousel.NoCardsLeaveRange | assets/js/script.js:624-649 | with no cards, `nextProject` as written stores NaN and `previousProject` stores -1 |
| Carousel.AsWrittenAgreesWithCards | assets/js/script.js:624-649 | with at least one card the written index arithmetic equals NextIndex and PreviousIndex |
| Indices.MarkedCount | assets/js/script.js:600-606 | a list toggled with `index === k` has one active element when k is a position in it, and none otherwise |
| Indices.SingleActiveIsMarked | assets/js/script.js:600-606 | a list with a single active element, at k, is the one toggled with k |
| Sections.VisibleOverlap | assets/js/script.js:203-209 | the visible length is never negative, is positive exactly when section and viewport overlap, and is bounded by both heights |
| Sections.MostVisibleSection | assets/js/script.js:191-220 | the loop returns the first section whose overlap is at least every section's, and 0 when none is visible |
| Sections.FirstMostVisibleUnique | assets/js/script.js:213-216 | only one index is the first most visible section |
| Sections.StepTarget | assets/js/script.js:567-577 | a one-section step is clamped, never wrapped: down exactly below the last section, up exactly above the first |
| Sections.StepTimes | assets/js/script.js:567-577 | repeated steps keep the index in range |
| Sections.DownStepsClamp | assets/js/script.js:573-576 | n down steps reach min(current + n, count - 1) |
| Sections.UpStepsClamp | assets/js/script.js:568-571 | n up steps reach max(current - n, 0) |
| Sections.WheelAccepted | assets/js/script.js:99-104 | the two early returns of the wheel handler: accepted only 150 ms or more after the last accepted event and outside an animation (no contract: a definition) |
| Sections.WheelDirection | assets/js/script.js:119-131 | no step for a delta under 5 in size; down for a positive delta and up for a negative one otherwise |
| Sections.WheelStep | assets/js/script.js:114-133 | the wheel timeout steps one section in the delta's direction, unless the delta is under 5 or that end is reached |
| Sections.ScrollTo | assets/js/script.js:148-160 | a target under 5 px away is jumped to; any other is animated towards from the current position |
| Sections.SpacedExtend | assets/js/script.js:98-105 | accepting a wheel event keeps the accepted times 150 ms apart |
| Sections.SpacedApart | assets/js/script.js:98-105 | accepted times i and j are at least (j - i) * 150 ms apart |
| Sections.BurstAcceptsAtMostOne | assets/js/script.js:98-105 | a burst of wheel events inside one 150 ms window has at most one accepted event |
| Portfolio.IndicatorCount | assets/js/script.js:264-266 | dots are created, one per card, exactly when there is a slider with more than one card and an indicator container |
| Portfolio.PortfolioApp.constructor | assets/js/script.js:22-33 | the initial `this.state`: indices 0, no drag, no timers, no pending wheel timeout and no accepted wheel event |
| Portfolio.PortfolioApp.Init | assets/js/script.js:64-71 | after `init()` the first card and dot are active, auto-slide runs exactly when there is a slider with more than one card, labels and gate reflect the field values, and the current section is the first most visible one with its link active |
| Portfolio.PortfolioApp.RecomputeCurrentSection | assets/js/script.js:70 | the `updateCurrentSection` that closes `init()` keeps the section that `initMouseWheelNavigation` found |
| Portfolio.PortfolioApp.InitProjectSlider | assets/js/script.js:248-279 | with a slider and cards the first card is active, and auto-slide runs exactly with more than one card |
| Portfolio.PortfolioApp.InitContactForm | assets/js/script.js:409-411 | both labels and the gate reflect the initial field values |
| Portfolio.PortfolioApp.InitMouseWheelNavigation | assets/js/script.js:76-90 | the current section is the most visible one and exactly its link is active |
| Portfolio.PortfolioApp.UpdateCurrentSection | assets/js/script.js:191-220 | with sections, the current section becomes the first most visible one; with none it is kept |
| Portfolio.PortfolioApp.UpdateActiveNavigation | assets/js/script.js:600-606 | exactly the link at the current section's position is active |
| Portfolio.PortfolioApp.SmoothScrollToSection | assets/js/script.js:138-160 | an index naming no section changes nothing; otherwise it becomes current, and a near target clears `isScrolling` and updates the links while a far one keeps it set until the animation ends |
| Portfolio.PortfolioApp.AnimationFinished | assets/js/script.js:177-182 | the last frame clears `isScrolling` and marks the current section's link |
| Portfolio.PortfolioApp.HandleScroll | assets/js/script.js:237-242 | outside an animation the most visible section becomes current with its link active; during one nothing changes |
| Portfolio.PortfolioApp.HandleWheelScroll | assets/js/script.js:95-116 | an event within 150 ms of the last accepted one, or during an animation, changes nothing; otherwise the time is recorded and one timeout with the delta is pending |
| Portfolio.PortfolioApp.WheelTimeoutFires | assets/js/script.js:114-133 | the pending timeout is consumed; with no WheelStep target nothing else changes; otherwise the section moves to it and, as in SmoothScrollToSection, a jump marks its link while an animation leaves the links until its last frame |
| Portfolio.PortfolioApp.UpdateSlider | assets/js/script.js:654-676 | with a slider and cards exactly the current card and its dot are active; otherwise nothing changes |
| Portfolio.PortfolioApp.PauseAutoSlide | assets/js/script.js:696-701 | afterwards no interval runs, whatever ran before, so a second call changes nothing |
| Portfolio.PortfolioApp.StartAutoSlide | assets/js/script.js:681-691 | with more than one card the old interval is cleared and exactly one new one runs; otherwise nothing changes |
| Portfolio.PortfolioApp.GoToProject | assets/js/script.js:611-619 | the chosen card becomes current and is marked, and auto-slide pauses |
| Portfolio.PortfolioApp.NextProject | assets/js/script.js:624-633 | the index moves by NextIndex, the slider marks it, and auto-slide pauses |
| Portfolio.PortfolioApp.PreviousProject | assets/js/script.js:638-649 | the index moves by PreviousIndex, the slider marks it, and auto-slide pauses |
| Portfolio.PortfolioApp.AutoSlideTick | assets/js/script.js:688-690 | the interval advances one card and, through `nextProject`, clears itself; without a slider cards and dots are untouched |
| Portfolio.PortfolioApp.HandleInteractionStart | assets/js/script.js:334-338 | a drag starts at the mouse or touch position and auto-slide pauses |
| Portfolio.PortfolioApp.HandleInteractionMove | assets/js/script.js:343-348 | during a drag the displacement is the current position minus the start; otherwise nothing changes |
| Portfolio.PortfolioApp.HandleInteractionEnd | assets/js/script.js:353-376 | outside a drag nothing changes; otherwise the drag ends, the index moves by SwipeTarget, the slider marks it and the displacement resets to 0 |
| Portfolio.PortfolioApp.HandleVisibilityChange | assets/js/script.js:580-587 | a hidden page has no interval running; a visible one has exactly one running with more than one card |
| Portfolio.PortfolioApp.HandleKeyDown | assets/js/script.js:553-578 | nothing happens in a text field or for other keys; left and right wrap the carousel and leave sections, scrolling and links alone; up and down step sections by StepTarget, clamped, leave the carousel alone, and jump or animate as SmoothScrollToSection does |
| Portfolio.PortfolioApp.UpdateLabel | assets/js/script.js:417-422 | the field's label floats by LabelFloats and the other label is kept |
| Portfolio.PortfolioApp.ValidateForm | assets/js/script.js:427-443 | the message group and button follow the gate of the two field values |
| Portfolio.PortfolioApp.SetSubmitButtonState | assets/js/script.js:531-548 | the button moves by SetButtonState |
| Portfolio.PortfolioApp.HandleFormSubmit | assets/js/script.js:448-458 | the request goes out exactly when SubmitAccepted holds, with the button in 'loading'; otherwise nothing changes |
| Portfolio.PortfolioApp.SubmissionSettled | assets/js/script.js:467-474 | an ok response shows the banner, drops both labels, hides the message group and leaves the button disabled and not moved down; any other outcome shows the error text and changes nothing else |
| Portfolio.PortfolioApp.HandleFormSuccess | assets/js/script.js:485-507 | the banner shows, both labels drop, the message group hides, and revalidating the emptied form disables the button and moves it up |
| Portfolio.PortfolioApp.HandleFormError | assets/js/script.js:512-519 | the button shows the error text |
| Portfolio.PortfolioApp.SubmitCooldownElapsed | assets/js/script.js:475-478 | the 1000 ms 'normal' enables the button, and its text is no longer SENDING |
| Portfolio.PortfolioApp.ErrorDisplayElapsed | assets/js/script.js:521-525 | the 3000 ms timer sets the text to SEND |
| Portfolio.PortfolioApp.SuccessDisplayElapsed | assets/js/script.js:504-506 | the 4000 ms timer hides the banner |

## Left out

- DOM lookup (`cacheElements`) and listener registration are not modelled. Each handler is a method called with what the event carries.
- Every element the code guards with `?.` or `if (!x)` is assumed present: the contact form, its fields and labels, the message group and the success message. The exceptions are the slider, the indicator container and the submit button, whose absence is modelled.
- `#container` is assumed present. Without it `initNavigation` throws on its `scroll` listener, so no controller exists.
- Styles are not modelled: colours, widths, the `translateX` percentage offset and the `visible` class of the indicator container.
- `aria-selected` is not modelled separately: it always equals the dot's `active` flag.
- The `fetch` request and `console.error` are not modelled. Only the outcome (ok or not) is an input, to `SubmissionSettled`.
- The eased `animateScroll` is not modelled: `Math.pow`, `requestAnimationFrame` and the fractional positions. Only its start and its last frame (`AnimationFinished`) are.
- The scroll duration argument, including the shorter keyboard duration, is not modelled: it affects only the animation.
- Timer delays are not modelled. The deferred callbacks are methods the event loop may call at any time, including the 3000 ms `startAutoSlide` after an interaction and the 5000 ms interval.
- The 16 ms `throttle` on the `scroll` listener is not modelled: any call of `HandleScroll` may be one the throttle lets through.
- The global `visibilitychange` custom events are not modelled: nothing in this file listens to them.
- `scrollTimer` in `this.state` is never read or written after construction, so it is not modelled.
- Positions, heights, deltas and times are integers. Fractional `scrollTop` and `deltaY` are not modelled.
- Strings are sequences of code points, while JavaScript counts UTF-16 units. For characters outside the Basic Multilingual Plane, which JavaScript counts as two units, the model can disagree in the 254 limit and in the `{2,}` count of the top-level part: the code accepts `a@b.` followed by one emoji, the model rejects it. ValidEmailSplits, JoinedEmailIsValid and EmailExamples are stated over code points.
- Portfolio.PortfolioApp.constructor: creates the indicator dots of `createProjectIndicators` (lines 284-306) up front, the first active, instead of during `initProjectSlider`; nothing reads them in between.
- Portfolio.PortfolioApp.WheelTimeoutFires: the pending timeout is `None` once it fired. The code keeps the spent handle, whose `clearTimeout` is harmless.
- Portfolio.PortfolioApp.HandleInteractionStart: callable with any card count. The code registers the drag listeners only with a slider of more than one card.
- Portfolio.PortfolioApp.Init: requires the state the constructor leaves: no markup-provided `active` classes on links or cards.

## Findings

| source | as written | input that shows it | evidently intended | confidence | as-written member | corrected member |
|---|---|---|---|---|---|---|
| assets/js/script.js:624-649 | `nextProject` stores `(currentProject + 1) % totalProjects` and `previousProject` stores `totalProjects - 1` from 0, even with no cards | a page with no project cards, then ArrowRight (stores NaN) or ArrowLeft (stores -1) | the index stays a valid stored index (0 with no cards); nothing visible follows, since `updateSlider` returns without cards and auto-slide needs two | low, not executed | Carousel.NoCardsLeaveRange | Carousel.NextIndex |
