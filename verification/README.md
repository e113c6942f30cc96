# torque-bootstrap controllers, modelled in Dafny

torque-bootstrap is a set of Stimulus controllers that drive Bootstrap components
from HTML attributes. This project models the part of it that holds real state and
logic, and proves properties of that model:

- **the carousel** (`Carousel`): the current slide index and how `_next`/`_prev`
  step, wrap or pause it; `to`; the animation order that `currentValueChanged` computes
  and inverts during a wrap; the classes, `aria-current` state and one-shot
  `transitionend` finalisers that `_update`/`_setState`/`_animate` leave on slides and
  indicators; the per-slide interval; the paused flag and the repeating timer it keeps;
- **tabs**, in both variants: `TabControllers` (tab_controller.ts, toggles resolve
  their pane through `aria-controls`/`href`, classes and ARIA attributes change) and
  `Tabs` (tab.ts, toggles carry `data-bs-tab-id-param`, only classes change);
- **`resolveTarget`** (`Helpers`), the attribute-or-`href`-fragment lookup;
- **collapse** (`Collapses`): the id-list split, target selection and the
  `collapse → collapsing → collapse (+show)` class transition;
- **toast** (`Toasts`): per-toast options, show on connect, scheduled and explicit
  dismissal, hide and removal;
- **button** (`Buttons`): the `active` value mirrored onto the `active` class;
- **registration** (`Registration`): the identifier each exported controller is
  registered under.

Shared pieces: `Js` holds the JavaScript built-ins the code relies on (`trim` and
`\s`, `Number`, `parseInt`, ASCII lower-casing, `split` on one character); `Dom` holds
an `Element` class (id, class set, attributes, `toggleAttribute` flags, `style.display`,
removal, `transitionend` listeners and the class list at each forced reflow) and the
delivery of a `transitionend` event to its listeners; `Css` holds the class names.

Controllers are Dafny classes whose fields are the Stimulus values. A write of a
value is a method (`WritePaused`, `WriteCurrent`, `WriteActive`, ...) that stores the
value and then calls the `*ValueChanged` callback only when the value changed.
The model runs that callback synchronously, straight after the write; Stimulus
runs it later, when its mutation observer reports the attribute change. Target lists are constant sequences of `Element` objects, which
the methods update in place; each method's `modifies` clause names the fields and
elements it may change, and its `ensures` say what becomes of them.

Points of the carousel code that the model keeps as written:

- `_setState` (carousel_controller.ts:179) calls `pause()`. So once the index has
  moved and there are slides, the carousel is paused and holds no timer:
  auto-advance started by `pausedValueChanged` stops after one step.
  `CarouselController.Next`, `Prev` and `Tick` state this.
- `_next`/`_prev` first set the interval to 0. The incoming slide's interval is
  then read with 0 as its fallback, not the carousel-level interval. A slide
  without its own interval therefore leaves 0, and the carousel-level interval is
  not restored.
- `pausedValueChanged(false)` installs a new timer without clearing a handle it
  already holds, and it installs one even when the interval is 0. A timer handle
  is therefore not present exactly when the carousel is playing with a non-zero
  interval. The model's timer invariant (`TimerOk`) is what the code keeps: no handle
  while paused, and the handle held is live and runs at the current interval.

- `_prev` at index 0 with a single slide and wrapping on sets `wrapping`, zeroes
  the interval and does not pause.
- An initial `current` that names no slide makes the first `_update` read a
  missing element and throw (`CarouselController.Settle` reports it as an error).

Other points of the code that the model keeps as written:

- The collapse id split `"a, b"` yields `["a", "", "b"]` (`CommaSpaceYieldsEmpty`), so
  a target without an `id` is selected too.
- controllers.ts re-exports `default` from tab_controller.ts, which only has a named
  export. Registration takes the exports as data and does not model that.

## Model

| member | source | states |
|---|---|---|
| Dom.Toggled | src/bootstrap/carousel_controller.ts:183 | `classList.toggle(c, force)`: afterwards `c` is present exactly when `force`, and no other class changes |
| Dom.Without | src/bootstrap/carousel_controller.ts:89 | `removeEventListener`: the listeners left are exactly those other than the removed one |
| Dom.WithoutAbsent | src/bootstrap/carousel_controller.ts:89 | removing a listener that is not registered leaves the list as it was |
| Dom.ActivationWithoutClear | src/bootstrap/carousel_controller.ts:88-90 | removing `clearAnimationClasses` leaves the same pending finaliser deciding `active` |
| Dom.Element.TransitionEnd | src/bootstrap/carousel_controller.ts:198 | a `transitionend` runs every listener once in registration order; the classes and removal are the listeners' composed effect; one-shot (`once: true`) listeners are dropped and `clearAnimationClasses` stays |
| Dom.ActiveAfterDelivery | src/bootstrap/carousel_controller.ts:198 | after a delivery, `active` is what the last carousel finaliser asked for, or unchanged when none was pending |
| Dom.NoAnimationAfterClear | src/bootstrap/carousel_controller.ts:7-14 | once `clearAnimationClasses` has run in a delivery, none of the four animation classes is left |
| Dom.CollapseAfterDelivery | src/bootstrap/collapse_controller.ts:74-82 | after a delivery that ran a collapse finaliser, the panel has `collapse`, not `collapsing`, and `show` if the last finaliser was for an opening |
| Dom.RemovedAfterDelivery | src/bootstrap/toast_controller.ts:67-73 | a delivery removes the element exactly when a removal was pending or it was already removed |
| Js.TrimSpan | src/bootstrap/helpers.ts:14 | `trim()` drops only whitespace, and only at the two ends |
| Js.Trim | src/bootstrap/helpers.ts:14 | `trim()` leaves no whitespace at either end |
| Js.NumberReads | src/bootstrap/carousel_controller.ts:173 | `Number`: blank text reads as 0, a run of decimal digits as its value, and only an optionally signed run of digits has a value |
| Js.NumberOfDigits | src/bootstrap/carousel_controller.ts:173 | `Number` of a decimal rendering is the number |
| Js.ParseIntOfDigits | src/bootstrap/toast_controller.ts:50 | `parseInt` of a decimal number followed by a non-digit is the number |
| Js.ParseIntReads | src/bootstrap/toast_controller.ts:50 | `parseInt`: a value needs a digit right after leading whitespace and a sign, and such a digit, unless it starts `0x`, always gives one |
| Helpers.AttributeWins | src/bootstrap/helpers.ts:5-17 | an attribute other than `""` and `"#"` is returned verbatim and untrimmed; with no `href`, the result is the attribute (`"#"` included) or `""` when it is absent |
| Helpers.HrefWithoutFragment | src/bootstrap/helpers.ts:7-12 | with no usable attribute, an `href` without `#` (the empty one included) gives `""` |
| Helpers.HrefFragment | src/bootstrap/helpers.ts:7-14 | with no usable attribute, an `href` containing `#` gives the whitespace-trimmed text between the first `#` and the next `#` or the end |
| Helpers.ResolvedShape | src/bootstrap/helpers.ts:4-18 | the result is always a string: `""`, the attribute verbatim, or a `#`-free id without surrounding whitespace |
| Helpers.LinkRoundTrip | src/bootstrap/helpers.ts:7-14 | a link `page#id` resolves back to `id` |
| Carousel.AnimationPairsPartition | src/bootstrap/carousel_controller.ts:201-204 | the two `[direction, order]` pairs are disjoint and together are the four classes `clearAnimationClasses` strips |
| Carousel.AnimationPair | src/bootstrap/carousel_controller.ts:201-204 | left-to-right gives (`carousel-item-start`, `carousel-item-next`) and right-to-left (`carousel-item-end`, `carousel-item-prev`): the first is a direction class, the second an order class, each the left-to-right one exactly when `ltr`, both among the four classes `clearAnimationClasses` strips |
| Carousel.TransitionOrder | src/bootstrap/carousel_controller.ts:70-72 | with an old index, the order is forward exactly when the index grew, inverted during a wrap; on the first settle there is an order only during a wrap |
| Carousel.NextStep | src/bootstrap/carousel_controller.ts:128-140 | `_next` moves one slide forward, wraps to 0 from a later slide when wrapping is on, or halts at or past the last slide |
| Carousel.PrevStep | src/bootstrap/carousel_controller.ts:142-152 | `_prev` moves one slide back from a positive index, wraps to the last slide from 0 when wrapping is on and there are slides, or halts |
| Carousel.StepOf | src/bootstrap/carousel_controller.ts:105-111 | a step that does not wrap moves one slide in its direction; a wrap lands on the first slide going forward and on the last going backward |
| Carousel.StepBounds | src/bootstrap/carousel_controller.ts:128-152 | a `_next`/`_prev` step from an in-range index stays in range; it halts exactly at the end it walks towards with wrap off, or (forward) with a single slide |
| Carousel.StepOrder | src/bootstrap/carousel_controller.ts:70-72 | inverting the order during a wrap makes every index change animate in the step's own direction, forward for `_next` and backward for `_prev` |
| Carousel.WalkInRange | src/bootstrap/carousel_controller.ts:128-152 | any number of steps in one direction never leaves the slides |
| Carousel.WalkForward | src/bootstrap/carousel_controller.ts:132-133 | below the last slide, `k` forward steps add `k` |
| Carousel.WalkBackward | src/bootstrap/carousel_controller.ts:144-145 | above the first slide, `k` backward steps subtract `k` |
| Carousel.WalkLast | src/bootstrap/carousel_controller.ts:134-136 | with wrap on, stepping forward past the last slide lands on slide 0 |
| Carousel.FullCircle | src/bootstrap/carousel_controller.ts:128-152 | with wrap on, as many steps as there are slides, in either direction, return to slide 0 |
| Carousel.WalkStopsAtEnd | src/bootstrap/carousel_controller.ts:132-139 | with wrap off, enough forward steps settle on the last slide and stay there |
| Carousel.RemoveUnderscores | src/bootstrap/carousel_controller.ts:173 | `replace(/_/g, "")` leaves exactly the characters other than `_` |
| Carousel.SlideIntervalReads | src/bootstrap/carousel_controller.ts:171-174 | `_getIntervalOf` is the carousel's interval or the non-zero number the param reads as once its `_` are removed |
| Carousel.RemoveUnderscoresAppend | src/bootstrap/carousel_controller.ts:173 | removing `_` distributes over concatenation |
| Carousel.SlideIntervalOfDigits | src/bootstrap/carousel_controller.ts:171-174 | every param whose text without `_` is the decimal rendering of a positive number reads as that number, whatever the carousel's interval |
| Carousel.SlideIntervalGrouped | src/bootstrap/carousel_controller.ts:173 | `1_000`, `10_00` and `1000_` all read as 1000 |
| Carousel.SlideIntervalFallback | src/bootstrap/carousel_controller.ts:171-174 | a missing param, or one made only of zeros, `_` and whitespace (it reads as 0 or `NaN`), leaves the carousel's interval |
| Carousel.SlideIntervalUnreadable | src/bootstrap/carousel_controller.ts:171-174 | a param holding any character other than a digit, a sign, whitespace or `_` reads as `NaN` and leaves the carousel's interval |
| Carousel.TransitionSettles | src/bootstrap/carousel_controller.ts:187-199 | once an animated slide's transition ends, it is `active` exactly when it was being shown and carries no animation class |
| Carousel.CarouselController.constructor | src/bootstrap/carousel_controller.ts:18-24 | the values as configured, a missing one taking its declared default (`current` 0, `interval` 3000, `wrap` true, `paused` false); no timer, no wrap in progress; any initial index is accepted, and the controller is usable (`Valid`) exactly when that index names a slide or there are no slides |
| Carousel.CarouselController.Settle | src/bootstrap/carousel_controller.ts:70-82 | the first `currentValueChanged(current, undefined)`: an index naming a slide is shown, without animation unless a wrap is pending, and the carousel ends paused and usable; with slides, the old timer's handle is released and no new handle is drawn; with no slides, every index settles and nothing changes but the recorded updates; any other index is an error that changes nothing |
| Carousel.CarouselController.SetInterval | src/bootstrap/carousel_controller.ts:56 | `setInterval` yields a fresh handle that becomes live |
| Carousel.CarouselController.PausedValueChanged | src/bootstrap/carousel_controller.ts:54-61 | unpausing installs a fresh timer at the current interval without clearing a held one; pausing clears the held timer and leaves no handle |
| Carousel.CarouselController.IntervalValueChanged | src/bootstrap/carousel_controller.ts:63-68 | while playing, the held timer is cleared and replaced by one at the new period, or by none for 0; while paused nothing changes |
| Carousel.CarouselController.WritePaused | src/bootstrap/carousel_controller.ts:54-61 | a paused-flag write keeps the timer invariant and, from a leak-free state, leaks no timer; only a real change touches the timer |
| Carousel.CarouselController.WriteInterval | src/bootstrap/carousel_controller.ts:63-68 | an interval write keeps the timer invariant; only a real change while playing replaces the timer |
| Carousel.CarouselController.CurrentValueChanged | src/bootstrap/carousel_controller.ts:70-82 | hides the old slide, then shows the new one, both with the computed order (none on the first settle, inverted during a wrap); clears `wrapping`; with slides, leaves the carousel paused with no timer |
| Carousel.CarouselController.Update | src/bootstrap/carousel_controller.ts:154-169 | the indicator is set without animation, the slide with the order; a shown slide's own interval comes into force; the carousel is paused |
| Carousel.CarouselController.UpdateSlide | src/bootstrap/carousel_controller.ts:159-168 | the slide's interval is read before its state is set; the slide is presented, the carousel paused, and the interval becomes the slide's only when it is shown |
| Carousel.CarouselController.SetState | src/bootstrap/carousel_controller.ts:176-185 | `aria-current` follows visibility, the carousel pauses, and `active` is set at once (no order) or left to the finaliser (with an order) |
| Carousel.CarouselController.Animate | src/bootstrap/carousel_controller.ts:187-199 | an incoming slide gets the order class, then the reflow, then the direction class; an outgoing one gets only the direction class; one finaliser for `active` is queued |
| Carousel.CarouselController.SlidesTargetConnected | src/bootstrap/carousel_controller.ts:84-86 | `clearAnimationClasses` is registered once, however often the slide connects |
| Carousel.CarouselController.SlidesTargetDisconnected | src/bootstrap/carousel_controller.ts:88-90 | exactly the `clearAnimationClasses` entries are removed; the other listeners keep their order and repeats |
| Carousel.CarouselController.Toggle | src/bootstrap/carousel_controller.ts:93-95 | paused becomes the given boolean, or the opposite of the current state; pausing clears the held timer, resuming from paused starts a fresh one, and staying in play keeps the timer |
| Carousel.CarouselController.ToggleTwice | src/bootstrap/carousel_controller.ts:93-95 | two argument-less toggles restore the paused flag and the interval |
| Carousel.CarouselController.Pause | src/bootstrap/carousel_controller.ts:97-99 | paused, no timer held, the held one cleared |
| Carousel.CarouselController.Start | src/bootstrap/carousel_controller.ts:101-103 | playing; a paused carousel gets a fresh timer at its interval, and a playing one keeps its timer |
| Carousel.CarouselController.WriteCurrent | src/bootstrap/carousel_controller.ts:123 | a write of the index to another slide settles from the old slide to the new with the order `currentValueChanged` computes and ends any wrap; a write of the same index changes nothing, on the controller or on its slide and indicator |
| Carousel.CarouselController.StepTo | src/bootstrap/carousel_controller.ts:131-136 | a moving `_next`/`_prev` step: the interval is 0 first, then the index moves with the step's own animation order, or (a single-slide wrap) only `wrapping` is set |
| Carousel.CarouselController.StepHalt | src/bootstrap/carousel_controller.ts:131-139 | a step that cannot move zeroes the interval and leaves the carousel paused with no timer, touching no slide or indicator |
| Carousel.CarouselController.StepNext | src/bootstrap/carousel_controller.ts:128-140 | `_next` does exactly the step `NextStep` names: move and settle forward, wrap to 0, or pause; the interval is 0 first; a halt touches no slide or indicator |
| Carousel.CarouselController.StepPrev | src/bootstrap/carousel_controller.ts:142-152 | `_prev` does exactly the step `PrevStep` names, backward; the single-slide wrap only sets `wrapping` and zeroes the interval (clearing a playing timer), touching no element; a halt touches no slide or indicator |
| Carousel.CarouselController.Next | src/bootstrap/carousel_controller.ts:105-107 | `_next` when the direction is `"left"`, else `_prev`; with two or more slides the carousel ends paused with no timer |
| Carousel.CarouselController.Prev | src/bootstrap/carousel_controller.ts:109-111 | the exact mirror of `next` |
| Carousel.CarouselController.Tick | src/bootstrap/carousel_controller.ts:56 | a firing timer calls `next`, after which (two or more slides) no timer is left |
| Carousel.CarouselController.To | src/bootstrap/carousel_controller.ts:113-125 | a missing slide param, no slides or an out-of-range slide is reported; that, or the current slide, leaves the index, timer, `wrapping` and every slide and indicator unchanged; another slide becomes current and settles |
| TabControllers.SelectionAttrs | src/bootstrap/tab_controller.ts:61-67 | a selected toggle has `aria-selected=""` and no `tabindex`; a deselected one has no `aria-selected` and `tabindex="-1"`; other attributes are kept |
| TabControllers.PaneAttrs | src/bootstrap/tab_controller.ts:75 | `aria-hidden` is `"false"` when shown and `"true"` when hidden; other attributes are kept |
| TabControllers.SelectionLastWins | src/bootstrap/tab_controller.ts:61-67 | the later selection change decides the attributes |
| TabControllers.LastWithClass | src/bootstrap/tab_controller.ts:20 | `findLast`: the last toggle carrying the class, or none when no toggle carries it |
| TabControllers.ResolveSurvivesSelection | src/bootstrap/tab_controller.ts:58-66 | a selection change does not change what a toggle resolves to |
| TabControllers.TabController.OnePaneShown | src/bootstrap/tab_controller.ts:71-77 | on a page that shows the current id, with distinct pane ids, at most one pane has `show` |
| TabControllers.TabController.constructor | src/bootstrap/tab_controller.ts:6-7 | the targets and current id as given |
| TabControllers.TabController.Connect | src/bootstrap/tab_controller.ts:18-23 | with toggles and no current id, the last `active` toggle's resolved id (or `""`) becomes current; otherwise nothing changes |
| TabControllers.TabController.WriteCurrent | src/bootstrap/tab_controller.ts:26-29 | a write of the current id switches the page from the old id to the new, and a page that showed the old id shows the new |
| TabControllers.TabController.Show | src/bootstrap/tab_controller.ts:32-34 | the clicked element's resolved id becomes current |
| TabControllers.TabController.Hide | src/bootstrap/tab_controller.ts:36-40 | the current id is cleared only when the clicked element resolves to it; otherwise nothing changes |
| TabControllers.TabController.Toggle | src/bootstrap/tab_controller.ts:42-45 | the current id becomes `""` when it equals the resolved ref, else the ref |
| TabControllers.TabController.SwitchedToSelf | src/bootstrap/tab_controller.ts:36-40 | keeping the current id changes nothing on the page |
| TabControllers.TabController.CurrentValueChanged | src/bootstrap/tab_controller.ts:26-29 | the old id's toggles and panes are deactivated, then the new id's activated; empty or absent ids are skipped; everything else is untouched |
| TabControllers.TabController.SetState | src/bootstrap/tab_controller.ts:56-78 | exactly the toggles resolving to the id and the panes with that id get the state, in classes and ARIA attributes; all others are untouched |
| TabControllers.TabController.MarkToggles | src/bootstrap/tab_controller.ts:57-69 | exactly the toggles resolving to the id are selected or deselected; the others keep their classes and attributes |
| TabControllers.TabController.MarkPanes | src/bootstrap/tab_controller.ts:71-77 | exactly the panes with the id are shown or hidden; the others keep their classes and attributes |
| TabControllers.SelectionFollows | src/bootstrap/tab_controller.ts:26-29 | a toggle that showed the old id shows the new one once the switch has passed over it |
| Tabs.Tab.constructor | src/bootstrap/tab.ts:7-8 | the targets and current id as given |
| Tabs.Tab.WriteCurrent | src/bootstrap/tab.ts:19-22 | a write of the current id switches the page from the old id to the new, and a page that showed the old id shows the new |
| Tabs.Tab.Show | src/bootstrap/tab.ts:25-27 | the `id` param, or `""` without one, becomes current |
| Tabs.Tab.Hide | src/bootstrap/tab.ts:29-33 | the current id is cleared only when it equals the `id` param |
| Tabs.Tab.Toggle | src/bootstrap/tab.ts:35-37 | `hide` when the current id equals the param, else `show` |
| Tabs.Tab.SwitchedToSelf | src/bootstrap/tab.ts:29-33 | keeping the current id changes nothing on the page |
| Tabs.Tab.CurrentValueChanged | src/bootstrap/tab.ts:19-22 | the old id is hidden, then the new id shown; empty or absent ids do nothing |
| Tabs.Tab.DoToggle | src/bootstrap/tab.ts:48-59 | exactly the toggles whose `data-bs-tab-id-param` is the id get `active`, and exactly the panes with that id get `active` and `show`; others are untouched |
| Collapses.SplitIds | src/bootstrap/collapse_controller.ts:54 | splitting at each comma and each run of whitespace yields at least one piece, and no piece holds a comma or whitespace |
| Collapses.SplitJoinRoundTrip | src/bootstrap/collapse_controller.ts:54 | comma-joined ids split back into the same ids |
| Collapses.SplitSpacedRoundTrip | src/bootstrap/collapse_controller.ts:54 | two ids separated by a run of whitespace split back into the two ids |
| Collapses.CommaSpaceYieldsEmpty | src/bootstrap/collapse_controller.ts:54 | `"a, b"` splits into `a`, an empty id, and `b` |
| Collapses.ResolveTargets | src/bootstrap/collapse_controller.ts:52-55 | for an id string, exactly the split ids and the extra ids are targeted; for an event, exactly the split ids of the element's `resolveTarget(…, "aria-controls")` and the extra ids |
| Collapses.ResolveTargetsOfList | src/bootstrap/collapse_controller.ts:52-55 | a comma list targets exactly its ids and the extra ids, duplicates collapsing |
| Collapses.Opening | src/bootstrap/collapse_controller.ts:70-71 | a started panel has `collapsing` and neither `collapse` nor `show`; other classes are kept |
| Collapses.Direction | src/bootstrap/collapse_controller.ts:65 | the panel moves in the direction asked for, or else opens exactly when it lacks `show` |
| Collapses.TransitionCompletes | src/bootstrap/collapse_controller.ts:74-82 | after its finaliser a panel has `collapse`, not `collapsing`, and `show` exactly when opening; an undirected toggle flips `show` |
| Collapses.CollapseController.constructor | src/bootstrap/collapse_controller.ts:7 | the dimension defaults to `"height"` |
| Collapses.CollapseController.TargetsTargetConnected | src/bootstrap/collapse_controller.ts:25-27 | a panel without the dimension param gets the controller's; an existing one is kept |
| Collapses.CollapseController.Show | src/bootstrap/collapse_controller.ts:33-35 | every targeted panel starts opening |
| Collapses.CollapseController.Hide | src/bootstrap/collapse_controller.ts:40-42 | every targeted panel starts closing |
| Collapses.CollapseController.Toggle | src/bootstrap/collapse_controller.ts:47-49 | every targeted panel starts moving opposite to its current `show` |
| Collapses.CollapseController.ToggleAll | src/bootstrap/collapse_controller.ts:57-61 | exactly the panels whose id is listed and that are not mid-transition start one; the others are untouched |
| Collapses.CollapseController.SetState | src/bootstrap/collapse_controller.ts:63-82 | `collapsing` replaces `collapse` and `show` after a reflow point, `aria-expanded` is the direction, and one finaliser is queued |
| Toasts.DefaultOptions | src/bootstrap/toast_controller.ts:45-58 | without per-toast params the controller's delay and autohide apply |
| Toasts.ResolveOptions | src/bootstrap/toast_controller.ts:45-58 | a missing param leaves the controller's delay or autohide; a present delay param is `parseInt` of it, with `""` read as `"0"` |
| Toasts.DelayParam | src/bootstrap/toast_controller.ts:49-51 | a delay param is read with `parseInt` (`"500ms"` is 500); an empty one is 0 |
| Toasts.AutoHideParam | src/bootstrap/toast_controller.ts:53-56 | an autohide param turns hiding off exactly for `"0"` and any casing of `"false"` |
| Toasts.Closest | src/bootstrap/toast_controller.ts:36 | `closest`: the innermost element of the event path that is a toasts target, or none when none is |
| Toasts.GoneAfterTransition | src/bootstrap/toast_controller.ts:61-77 | a hidden toast is out of the page once its transition has ended, whether or not it fades |
| Toasts.ToastController.constructor | src/bootstrap/toast_controller.ts:6-9 | autohide defaults to true and the delay to 3000 |
| Toasts.ToastController.ToastsTargetConnected | src/bootstrap/toast_controller.ts:23-28 | the toast gets `show` (once), and its hide is scheduled with its delay exactly when it hides by itself |
| Toasts.ToastController.Expire | src/bootstrap/toast_controller.ts:27 | a scheduled hide runs once and hides its toast |
| Toasts.ToastController.Dismiss | src/bootstrap/toast_controller.ts:31-42 | a toast given directly is hidden; from an event, the closest toast is hidden and the rest of the path untouched, or a warning is counted and nothing changes |
| Toasts.ToastController.HideToast | src/bootstrap/toast_controller.ts:61-77 | `show` goes; a fading toast gets `hide`, `display: block` and a pending removal; any other toast is removed at once |
| Buttons.ButtonController.constructor | src/bootstrap/button_controller.ts:5 | the element and value as given |
| Buttons.ButtonController.ActiveValueChanged | src/bootstrap/button_controller.ts:17-21 | the class follows a changed value only when the old value was defined; the first settle leaves it alone |
| Buttons.ButtonController.WriteActive | src/bootstrap/button_controller.ts:17-21 | after a real change the class shows the value; no other class moves |
| Buttons.ButtonController.Connect | src/bootstrap/button_controller.ts:10-14 | a false value is replaced by whether the element has `active`, a true one is kept, and no class changes |
| Buttons.ButtonController.Toggle | src/bootstrap/button_controller.ts:24-26 | the value becomes the given boolean or its opposite; a change toggles `active` to the value, and no change leaves the classes as they were |
| Buttons.ButtonController.ToggleTwice | src/bootstrap/button_controller.ts:24-26 | two argument-less toggles restore the value and leave it mirrored |
| Registration.StripSuffix | src/bootstrap/register.ts:9 | a trailing `Controller` is removed; a key without one is kept |
| Registration.Identifier | src/bootstrap/register.ts:9 | the identifier starts with the prefix and a dash, and is as long as that plus the name without its `Controller` ending |
| Registration.StripSuffixOf | src/bootstrap/register.ts:9 | only one trailing `Controller` goes, and one elsewhere stays |
| Registration.IdentifierOf | src/bootstrap/register.ts:9 | the identifier of `NameController` is `prefix-` and the lower-cased `Name` |
| Registration.Registrations | src/bootstrap/register.ts:8-10 | one registration per export, in order, under its identifier |
| Registration.DefaultRegistrations | src/bootstrap/controllers.ts:3-14 | under prefix `bs` the index's controllers register as `bs-alert` to `bs-tooltip` |
| Registration.DefaultIdentifiersDistinct | src/bootstrap/controllers.ts:3-14 | the twelve default identifiers are pairwise distinct |
| Registration.Application.Register | src/bootstrap/register.ts:9 | one registration is appended |
| Registration.EagerLoad | src/bootstrap/register.ts:7-10 | the application receives exactly the registrations of the exports, in order, under the given prefix or `bs` |

## Left out

- The Stimulus machinery: value parsing, target discovery and event dispatch are
  replaced by explicit calls. The first settle of each value at connect (`old`
  undefined) is modelled as an argument of the callbacks, and for the carousel
  index by `CarouselController.Settle`; the order in which Stimulus runs these
  first callbacks is not modelled.
- Real timer behaviour: a timer is a handle and a period. `Tick` and `Expire` are
  called by whoever drives the model, and nothing says when.
- `element.style[dimension]`, `_getFullSizeOf` and the `console.log` in collapse:
  these are pixel geometry read from layout.
- The reflow `element.offsetHeight`: only recorded as the class list at that point
  (`Element.layouts`).
- The default carousel direction from `document.documentElement.dir`: a
  constructor argument.
- Console output: `console.error` in `to` is a `Diagnostic`, and `console.warn` in
  `dismiss` is a counter.
- `toggleAttribute` is imported from helpers.ts but not defined there. The model
  records the boolean last given per attribute name (`Element.toggled`) rather than
  an attribute value.
- Tooltip, popover, modal, offcanvas, dropdown, alert and scrollspy controllers, and
  the build configuration: these are not part of this model.
- Carousel.SlideInterval: `Number` is modelled for optionally signed decimal
  integers and blank strings only. Fractions, exponents, hex and `Infinity` read as
  not-a-number and fall back.
- Js.NumberReads: it states the reading of `Number` for that decimal subset only;
  `"2e3"`, `"0x10"`, `"1.5"` and `"Infinity"` are numbers in JavaScript but not here.
- Carousel.SlideIntervalUnreadable: a character other than a digit, a sign,
  whitespace or `_` makes the param fall back in the model; in JavaScript `e`, `x`,
  `.` and the letters of `Infinity` can be part of a numeric literal, so for those
  characters the lemma holds of the model only.
- Carousel.CarouselController.To: the slide is an integer. A fractional slide such
  as `1.5` (from a slide param `"1.5"`) or `NaN` passes `to`'s range check, becomes
  `currentValue`, and makes `_update` throw on the missing slide after the old slide
  was already hidden; the model has no such values.
- Carousel.CarouselController.Settle: with indicators, an index that names no
  slide is reported before any change. Whether `toggleAttribute` on the missing
  indicator throws before `pause()` runs depends on `toggleAttribute`, which is not
  part of this model.
- Toasts.ResolveOptions: `toLowerCase` is modelled on ASCII letters only (`Js.Lower`).
- Registration.Identifier: `toLocaleLowerCase` is modelled on ASCII letters only.
  The exports are taken in the order a module namespace lists its keys, by name;
  in controllers.ts that is also the order they are written in.
- Carousel.CarouselController.constructor: it requires either no indicators or one
  per slide, and no element shared or repeated among the targets. With fewer
  indicators than slides the source would index past the indicator list. The
  initial index is an integer; a fractional `current` would throw at the first
  `_update`, as an out-of-range one does.
- Tab, collapse and carousel methods require their target lists to be free of
  repeats and of shared elements, as distinct DOM query results are.
- Toasts.ToastController.Dismiss: `value instanceof Element` is the `Direct` case,
  and an event is given as the path from its target outwards.
