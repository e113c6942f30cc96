/** The carousel controller (carousel_controller.ts): the current slide index, the
    paused flag and its repeating timer, the per-slide interval, and the classes that
    animate the outgoing and incoming slides and their indicators. */
module Carousel {
  import opened Js
  import opened Css
  import opened Dom

  /** A live `setInterval` registration: its handle and its period in milliseconds. */
  datatype Timer = Timer(handle: nat, period: int)

  function Handles(h: Option<Timer>): set<Timer> {
    if h.Some? then {h.value} else {}
  }

  /** What `to` reports with `console.error`. */
  datatype Diagnostic = MissingSlideParam | SlideOutOfRange(last: int)

  /** The argument of `to`: a literal index, or an action event whose `slide` param
      is a number (`Some`) or is missing or not a number (`None`). */
  datatype ToArgument = Index(n: int) | Event(slideParam: Option<int>)

  function SlideOf(arg: ToArgument): Option<int> {
    match arg
    case Index(n) => Some(n)
    case Event(p) => p
  }

  /** One `_update(index, isVisible, order)` call. */
  datatype UpdateCall = UpdateCall(index: int, visible: bool, order: Option<bool>)

  /** `_animationClasses(ltr)`: the direction class and the order class. */
  function AnimationPair(ltr: bool): (r: (string, string))
    ensures r.0 in {DirectionLtr, DirectionRtl} && r.1 in {OrderLtr, OrderRtl}
    ensures (r.0 == DirectionLtr <==> ltr) && (r.1 == OrderLtr <==> ltr)
    ensures r.0 in AnimationClasses && r.1 in AnimationClasses && r.0 != r.1
  {
    if ltr then (DirectionLtr, OrderLtr) else (DirectionRtl, OrderRtl)
  }

  /** The two pairs are disjoint and together are exactly the classes that
      `clearAnimationClasses` strips. */
  lemma AnimationPairsPartition()
    ensures var (d1, o1) := AnimationPair(true);
            var (d2, o2) := AnimationPair(false);
            {d1, o1} !! {d2, o2} && d1 != o1 && d2 != o2
            && {d1, o1, d2, o2} == AnimationClasses
  {
  }

  /** The `order` that `currentValueChanged` computes: none on the first settle,
      otherwise whether the index grew, inverted while a wrap is in progress (and
      `!undefined` is `true`). */
  function TransitionOrder(newValue: int, oldValue: Option<int>, wrapping: bool): (r: Option<bool>)
    ensures oldValue.None? ==> (r.Some? <==> wrapping)
    ensures oldValue.Some? ==> r == Some((newValue > oldValue.value) != wrapping)
  {
    var order := if oldValue.None? then None else Some(newValue > oldValue.value);
    if wrapping then Some(order != Some(true)) else order
  }

  /** What `_next` or `_prev` does to the index: move (possibly by wrapping around)
      or stop, which pauses. */
  datatype Step = Move(target: int, wrapped: bool) | Halt

  /** `_next` on an index over `count` slides. */
  function NextStep(current: int, count: nat, wrap: bool): (r: Step)
    ensures r.Move? && !r.wrapped ==> r.target == current + 1
    ensures r.Move? && r.wrapped ==> r.target == 0 && current > 0 && wrap
    ensures r.Halt? ==> current >= count - 1 && (current <= 0 || !wrap)
  {
    var last := if count > 0 then count - 1 else 0;
    if current < last then Move(current + 1, false)
    else if current > 0 && wrap then Move(0, true)
    else Halt
  }

  /** `_prev` on an index over `count` slides. */
  function PrevStep(current: int, count: nat, wrap: bool): (r: Step)
    ensures r.Move? && !r.wrapped ==> r.target == current - 1 && current > 0
    ensures r.Move? && r.wrapped ==> r.target == count - 1 && current <= 0 && wrap
    ensures r.Halt? ==> current <= 0 && (!wrap || count == 0)
  {
    if current > 0 then Move(current - 1, false)
    else if wrap && count > 0 then Move(count - 1, true)
    else Halt
  }

  /** A step that does not wrap moves one slide in the step's direction. */
  function StepOf(forward: bool, current: int, count: nat, wrap: bool): (r: Step)
    ensures r.Move? && !r.wrapped ==> r.target == current + (if forward then 1 else -1)
    ensures r.Move? && r.wrapped ==> r.target == (if forward then 0 else count - 1)
  {
    if forward then NextStep(current, count, wrap) else PrevStep(current, count, wrap)
  }

  /** A step from an index in range lands in range, halts only at the end it walks
      towards when wrapping is off, and never halts when wrapping is on (with at
      least two slides). */
  lemma StepBounds(forward: bool, current: int, count: nat, wrap: bool)
    requires 0 <= current < count
    ensures var s := StepOf(forward, current, count, wrap);
            && (s.Move? ==> 0 <= s.target < count)
            && (s.Halt? <==> current == (if forward then count - 1 else 0) && (!wrap || (forward && count == 1)))
  {
  }

  /** A step that changes the index animates in the step's own direction: forward
      for `_next`, backward for `_prev`, including the wrap that jumps the other
      way numerically. */
  lemma StepOrder(forward: bool, current: int, count: nat, wrap: bool)
    requires 0 <= current < count
    requires StepOf(forward, current, count, wrap).Move?
    requires StepOf(forward, current, count, wrap).target != current
    ensures var s := StepOf(forward, current, count, wrap);
            TransitionOrder(s.target, Some(current), s.wrapped) == Some(forward)
  {
  }

  /** The index after `steps` repeated steps in one direction (a halt leaves it). */
  function Walk(steps: nat, forward: bool, current: int, count: nat, wrap: bool): int {
    if steps == 0 then current
    else
      var s := StepOf(forward, current, count, wrap);
      Walk(steps - 1, forward, if s.Move? then s.target else current, count, wrap)
  }

  /** Walking never leaves the slides. */
  lemma {:induction false} WalkInRange(steps: nat, forward: bool, current: int, count: nat, wrap: bool)
    requires 0 <= current < count
    ensures 0 <= Walk(steps, forward, current, count, wrap) < count
  {
    if steps > 0 {
      StepBounds(forward, current, count, wrap);
      var s := StepOf(forward, current, count, wrap);
      WalkInRange(steps - 1, forward, if s.Move? then s.target else current, count, wrap);
    }
  }

  lemma {:induction false} WalkForward(steps: nat, current: int, count: nat, wrap: bool)
    requires 0 <= current && current + steps < count
    ensures Walk(steps, true, current, count, wrap) == current + steps
  {
    if steps > 0 {
      WalkForward(steps - 1, current + 1, count, wrap);
    }
  }

  lemma {:induction false} WalkBackward(steps: nat, current: int, count: nat, wrap: bool)
    requires 0 <= steps <= current < count
    ensures Walk(steps, false, current, count, wrap) == current - steps
  {
    if steps > 0 {
      WalkBackward(steps - 1, current - 1, count, wrap);
    }
  }

  /** With wrapping on, as many steps as there are slides, in either direction,
      come back to the first slide. */
  lemma FullCircle(count: nat)
    requires count > 0
    ensures Walk(count, true, 0, count, true) == 0
    ensures Walk(count, false, 0, count, true) == 0
  {
    WalkForward(count - 1, 0, count, true);
    WalkLast(count - 1, 0, count);
    assert Walk(1, false, 0, count, true) == count - 1;
    WalkBackward(count - 1, count - 1, count, true);
    WalkSplit(count - 1, false, 0, count, true);
  }

  lemma {:induction false} WalkLast(steps: nat, current: int, count: nat)
    requires 0 <= current && current + steps == count - 1
    ensures Walk(steps + 1, true, current, count, true) == 0
  {
    if steps == 0 {
      assert StepOf(true, current, count, true) == (if count > 1 then Move(0, true) else Halt);
    } else {
      WalkLast(steps - 1, current + 1, count);
    }
  }

  lemma WalkSplit(steps: nat, forward: bool, current: int, count: nat, wrap: bool)
    ensures var s := StepOf(forward, current, count, wrap);
            Walk(steps + 1, forward, current, count, wrap)
              == Walk(steps, forward, if s.Move? then s.target else current, count, wrap)
  {
  }

  /** With wrapping off, repeated steps stop at the end they walk towards. */
  lemma {:induction false} WalkStopsAtEnd(steps: nat, current: int, count: nat)
    requires 0 <= current < count && steps >= count - 1 - current
    ensures Walk(steps, true, current, count, false) == count - 1
  {
    if steps > 0 {
      if current < count - 1 {
        WalkStopsAtEnd(steps - 1, current + 1, count);
      } else {
        WalkStopsAtEnd(steps - 1, current, count);
      }
    }
  }

  /** `_getIntervalOf`: the slide's interval param with every `_` removed, when that
      reads as a non-zero number; otherwise the carousel's own interval. */
  function SlideInterval(param: Option<string>, fallback: int): int {
    if param.None? then fallback
    else
      var n := ToNumber(RemoveUnderscores(param.value));
      if n.Some? && n.value != 0 then n.value else fallback
  }

  /** The slide's interval is the carousel's, or the non-zero number its param reads
      as once the `_` are gone. */
  lemma SlideIntervalReads(param: Option<string>, fallback: int)
    ensures var r := SlideInterval(param, fallback);
            r == fallback || (param.Some? && ToNumber(RemoveUnderscores(param.value)) == Some(r) && r != 0)
  {
  }

  /** `s.replace(/_/g, "")` */
  function RemoveUnderscores(s: string): (r: string)
    ensures '_' !in r
    ensures forall c :: c in r <==> c in s && c != '_'
  {
    if s == [] then [] else (if s[0] == '_' then [] else [s[0]]) + RemoveUnderscores(s[1..])
  }

  lemma {:induction false} RemoveUnderscoresKeeps(s: string)
    requires '_' !in s
    ensures RemoveUnderscores(s) == s
  {
    if s != [] {
      RemoveUnderscoresKeeps(s[1..]);
    }
  }

  lemma {:induction false} RemoveUnderscoresAppend(a: string, b: string)
    ensures RemoveUnderscores(a + b) == RemoveUnderscores(a) + RemoveUnderscores(b)
  {
    if a != [] {
      var head := if a[0] == '_' then [] else [a[0]];
      assert (a + b)[0] == a[0];
      assert (a + b)[1..] == a[1..] + b;
      RemoveUnderscoresAppend(a[1..], b);
      calc {
        RemoveUnderscores(a + b);
        head + RemoveUnderscores(a[1..] + b);
        head + (RemoveUnderscores(a[1..]) + RemoveUnderscores(b));
        (head + RemoveUnderscores(a[1..])) + RemoveUnderscores(b);
        RemoveUnderscores(a) + RemoveUnderscores(b);
      }
    } else {
      assert a + b == b;
    }
  }

  /** A positive interval written in decimal, with `_` as a digit-group separator
      anywhere, is the slide's interval whatever the carousel's. */
  lemma SlideIntervalOfDigits(s: string, n: nat, fallback: int)
    requires n > 0 && RemoveUnderscores(s) == Digits(n)
    ensures SlideInterval(Some(s), fallback) == n
  {
    NumberOfDigits(n);
  }

  /** `1_000`, `10_00` and `1000_` all read as 1000. */
  lemma SlideIntervalGrouped(fallback: int)
    ensures SlideInterval(Some("1_000"), fallback) == 1000
    ensures SlideInterval(Some("10_00"), fallback) == 1000
    ensures SlideInterval(Some("1000_"), fallback) == 1000
  {
    assert Digits(1000) == "1000";
    assert RemoveUnderscores("1_000") == "1000";
    assert RemoveUnderscores("10_00") == "1000";
    assert RemoveUnderscores("1000_") == "1000";
    SlideIntervalOfDigits("1_000", 1000, fallback);
    SlideIntervalOfDigits("10_00", 1000, fallback);
    SlideIntervalOfDigits("1000_", 1000, fallback);
  }

  /** A missing param, or one made only of zeros, `_` and whitespace (it reads as 0,
      or as `NaN` when whitespace splits the zeros), leaves the carousel's interval. */
  lemma SlideIntervalFallback(param: Option<string>, fallback: int)
    requires param.Some? ==> forall c :: c in param.value ==> c == '0' || c == '_' || IsSpace(c)
    ensures SlideInterval(param, fallback) == fallback
  {
    if param.Some? {
      var u := RemoveUnderscores(param.value);
      forall k | 0 <= k < |u| ensures u[k] == '0' || IsSpace(u[k]) {
        assert u[k] in u;
      }
      ZerosReadAsZero(u);
    }
  }

  lemma ZerosReadAsZero(u: string)
    requires forall k :: 0 <= k < |u| ==> u[k] == '0' || IsSpace(u[k])
    ensures ToNumber(u) == None || ToNumber(u) == Some(0)
  {
    var t := Trim(u);
    TrimmedZeros(u);
    NumberReads(u);
    if IsDecimal(t) {
      DecimalOfZeros(t);
    }
  }

  lemma TrimmedZeros(u: string)
    requires forall k :: 0 <= k < |u| ==> u[k] == '0' || IsSpace(u[k])
    ensures forall k :: 0 <= k < |Trim(u)| ==> Trim(u)[k] == '0' || IsSpace(Trim(u)[k])
  {
    var i, j := TrimSpan(u);
    forall k | 0 <= k < |Trim(u)| ensures Trim(u)[k] == '0' || IsSpace(Trim(u)[k]) {
      assert Trim(u)[k] == u[i + k];
    }
  }

  lemma {:induction false} DecimalOfZeros(s: string)
    requires forall i :: 0 <= i < |s| ==> IsDigit(s[i]) && (s[i] == '0' || IsSpace(s[i]))
    ensures DecimalValue(s) == 0
  {
    if s != [] {
      DecimalOfZeros(s[..|s| - 1]);
    }
  }

  /** A param holding a character other than a digit, a sign, whitespace or `_`
      reads as `NaN` and leaves the carousel's interval. */
  lemma SlideIntervalUnreadable(v: string, c: char, fallback: int)
    requires c in v && c != '_' && !IsDigit(c) && !IsSpace(c) && c != '-' && c != '+'
    ensures SlideInterval(Some(v), fallback) == fallback
  {
    var u := RemoveUnderscores(v);
    assert c in u;
    var i :| 0 <= i < |u| && u[i] == c;
    NumberRejects(u, i);
  }

  /** What `_setState(e, visible, order)` leaves on one slide or indicator:
      `aria-current` follows `visible`; with no order, `active` is set at once;
      with an order, an incoming slide gets the order class, a forced reflow, then
      the direction class, an outgoing one gets only the direction class, and a
      one-shot finaliser will set `active` when the transition ends. */
  twostate predicate Presented(e: Element, visible: bool, order: Option<bool>)
    reads e
  {
    && e.toggled == old(e.toggled)["aria-current" := visible]
    && e.attrs == old(e.attrs) && e.display == old(e.display) && e.removed == old(e.removed)
    && match order
       case None =>
         && e.classes == Toggled(old(e.classes), Active, visible)
         && e.listeners == old(e.listeners) && e.layouts == old(e.layouts)
       case Some(ltr) =>
         var (direction, orderClass) := AnimationPair(ltr);
         && e.listeners == old(e.listeners) + [SetActive(visible)]
         && if visible then
              && e.layouts == old(e.layouts) + [old(e.classes) + {orderClass}]
              && e.classes == old(e.classes) + {orderClass, direction}
            else
              && e.layouts == old(e.layouts)
              && e.classes == old(e.classes) + {direction}
  }

  /** Once a connected slide's animated transition ends, it is `active` exactly when
      it was being shown and carries none of the four animation classes. */
  lemma TransitionSettles(ls: seq<Listener>, classes: set<string>, visible: bool)
    requires ClearAnimation in ls
    ensures var look := FireAll(ls + [SetActive(visible)], Look(classes, false));
            (Active in look.classes) == visible && look.classes !! AnimationClasses
  {
    var all := ls + [SetActive(visible)];
    assert all[..|all| - 1] == ls;
    ActiveAfterDelivery(all, Look(classes, false));
    assert ClearAnimation in all by { assert all[..|ls|] == ls; }
    NoAnimationAfterClear(all, Look(classes, false));
  }

  /** Slides, indicators as the page lists them: each list without repeats, no
      element in both, and either no indicators or one per slide. */
  ghost predicate WellformedTargets(slides: seq<Element>, indicators: seq<Element>) {
    && (forall i, j :: 0 <= i < j < |slides| ==> slides[i] != slides[j])
    && (forall i, j :: 0 <= i < j < |indicators| ==> indicators[i] != indicators[j])
    && (forall i, j :: 0 <= i < |slides| && 0 <= j < |indicators| ==> slides[i] != indicators[j])
    && (|indicators| == 0 || |indicators| == |slides|)
  }

  class CarouselController {
    const identifier: string
    const slides: seq<Element>
    const indicators: seq<Element>
    const wrapValue: bool
    /** `"left"` or `"right"`; its default comes from the page's text direction. */
    const directionValue: string

    var currentValue: int
    var intervalValue: int
    var pausedValue: bool
    /** `wrapping`: `true` between the start of a wrap and the settle it causes. */
    var wrapping: bool
    /** `interval`: the handle of the auto-advance timer, if one is installed. */
    var interval: Option<Timer>
    /** The timers that are scheduled and not cleared, and the next handle. */
    var live: set<Timer>
    var nextHandle: nat
    var diagnostics: seq<Diagnostic>
    /** The `_update` calls, in order. */
    ghost var updates: seq<UpdateCall>

    ghost predicate Wellformed() {
      WellformedTargets(slides, indicators)
    }

    predicate InRange(i: int) {
      |slides| == 0 || 0 <= i < |slides|
    }

    /** Timer bookkeeping: no timer while paused, and an installed one is live and
        runs at the current interval. */
    ghost predicate TimerOk()
      reads this
    {
      && (pausedValue ==> interval.None?)
      && (interval.Some? ==> interval.value in live && interval.value.period == intervalValue)
      && (forall t :: t in live ==> t.handle < nextHandle)
    }

    /** Every live timer is the installed one. */
    ghost predicate NoLeak()
      reads this
    {
      live == Handles(interval)
    }

    ghost predicate Valid()
      reads this
    {
      Wellformed() && TimerOk() && InRange(currentValue) && (wrapping ==> |slides| == 1)
    }

    /** The elements `_update(index, ...)` touches. */
    function Targets(index: int): set<object> {
      (if 0 <= index < |slides| then {slides[index] as object} else {})
      + (if 0 <= index < |indicators| then {indicators[index] as object} else {})
    }

    function IntervalParam(): string {
      "data-" + identifier + "-interval-param"
    }

    /** The step `next()` takes, and the one `prev()` takes. */
    function Forward(): Step
      reads this
    {
      StepOf(directionValue == "left", currentValue, |slides|, wrapValue)
    }

    function Backward(): Step
      reads this
    {
      StepOf(directionValue != "left", currentValue, |slides|, wrapValue)
    }

    /** The values as the page gives them; a missing one takes its declared default
        (`current` 0, `interval` 3000, `wrap` true, `paused` false). */
    constructor (identifier: string, slides: seq<Element>, indicators: seq<Element>,
                 wrap: Option<bool>, direction: string, current: Option<int>, intervalMs: Option<int>,
                 paused: Option<bool>)
      requires WellformedTargets(slides, indicators)
      ensures Wellformed() && TimerOk() && NoLeak()
      ensures Valid() <==> |slides| == 0 || 0 <= currentValue < |slides|
      ensures this.identifier == identifier && this.slides == slides && this.indicators == indicators
      ensures wrapValue == (wrap.None? || wrap.value) && directionValue == direction
      ensures currentValue == (if current.Some? then current.value else 0)
      ensures intervalValue == (if intervalMs.Some? then intervalMs.value else 3000)
      ensures pausedValue == (paused.Some? && paused.value)
      ensures !wrapping && interval == None && diagnostics == [] && updates == []
    {
      this.identifier := identifier;
      this.slides := slides;
      this.indicators := indicators;
      wrapValue := if wrap.Some? then wrap.value else true;
      directionValue := direction;
      currentValue := if current.Some? then current.value else 0;
      intervalValue := if intervalMs.Some? then intervalMs.value else 3000;
      pausedValue := if paused.Some? then paused.value else false;
      wrapping := false;
      interval := None;
      live := {};
      nextHandle := 1;
      diagnostics := [];
      updates := [];
    }

    /** The first `currentValueChanged(current, undefined)` Stimulus makes when the
        controller connects. An index with no slide makes `_update` read a missing
        element and throw (`ok` is false): nothing changes, and the controller stays
        unusable (`Valid` does not hold). */
    method Settle() returns (ok: bool)
      requires Wellformed() && TimerOk() && (wrapping ==> |slides| == 1)
      modifies this`pausedValue, this`interval, this`live, this`nextHandle, this`intervalValue,
               this`updates, this`wrapping
      modifies Targets(currentValue)
      ensures ok <==> InRange(currentValue)
      ensures ok ==> && Valid() && (old(NoLeak()) ==> NoLeak()) && !wrapping
                     && Switched(None, currentValue, TransitionOrder(currentValue, None, old(wrapping)), old(intervalValue))
      ensures ok && |slides| > 0 ==> live == old(live) - Handles(old(interval)) && nextHandle == old(nextHandle)
      ensures ok && |slides| == 0 ==>
                && pausedValue == old(pausedValue) && interval == old(interval) && live == old(live)
                && nextHandle == old(nextHandle) && intervalValue == old(intervalValue)
      ensures !ok ==> && pausedValue == old(pausedValue) && interval == old(interval) && live == old(live)
                      && nextHandle == old(nextHandle) && intervalValue == old(intervalValue)
                      && updates == old(updates) && wrapping == old(wrapping)
    {
      ok := InRange(currentValue);
      if ok {
        CurrentValueChanged(currentValue, None);
      }
    }

    // Timers

    /** `setInterval(this.next, period)`. */
    method SetInterval(period: int) returns (t: Timer)
      requires forall u :: u in live ==> u.handle < nextHandle
      modifies this`live, this`nextHandle
      ensures t == Timer(old(nextHandle), period) && t !in old(live)
      ensures live == old(live) + {t} && nextHandle == old(nextHandle) + 1
      ensures forall u :: u in live ==> u.handle < nextHandle
    {
      t := Timer(nextHandle, period);
      live := live + {t};
      nextHandle := nextHandle + 1;
    }

    // Callbacks

    /** `pausedValueChanged`: unpausing installs a timer at the current interval
        (without clearing any handle already held); pausing clears the handle. */
    method PausedValueChanged(newValue: bool)
      requires forall u :: u in live ==> u.handle < nextHandle
      modifies this`interval, this`live, this`nextHandle
      ensures forall u :: u in live ==> u.handle < nextHandle
      ensures !newValue ==> && interval == Some(Timer(old(nextHandle), intervalValue))
                            && live == old(live) + {interval.value} && nextHandle == old(nextHandle) + 1
      ensures newValue ==> && interval == None
                           && live == old(live) - Handles(old(interval)) && nextHandle == old(nextHandle)
    {
      if !newValue {
        var t := SetInterval(intervalValue);
        interval := Some(t);
      } else if interval.Some? {
        live := live - {interval.value};
        interval := None;
      }
    }

    /** `intervalValueChanged`: while playing, the timer is replaced by one at the new
        period, or removed when the period is 0. */
    method IntervalValueChanged(newValue: int)
      requires forall u :: u in live ==> u.handle < nextHandle
      modifies this`interval, this`live, this`nextHandle
      ensures forall u :: u in live ==> u.handle < nextHandle
      ensures pausedValue ==> interval == old(interval) && live == old(live) && nextHandle == old(nextHandle)
      ensures !pausedValue ==>
                && interval == (if newValue != 0 then Some(Timer(old(nextHandle), newValue)) else None)
                && live == old(live) - Handles(old(interval)) + Handles(interval)
                && nextHandle == old(nextHandle) + (if newValue != 0 then 1 else 0)
    {
      if !pausedValue {
        if interval.Some? {
          live := live - {interval.value};
        }
        if newValue != 0 {
          var t := SetInterval(newValue);
          interval := Some(t);
        } else {
          interval := None;
        }
      }
    }

    /** A write of `pausedValue`, followed by its change callback when it changed. */
    method WritePaused(v: bool)
      requires TimerOk()
      modifies this`pausedValue, this`interval, this`live, this`nextHandle
      ensures TimerOk() && pausedValue == v
      ensures old(NoLeak()) ==> NoLeak()
      ensures v ==> interval == None && live == old(live) - Handles(old(interval)) && nextHandle == old(nextHandle)
      ensures !v && !old(pausedValue) ==> interval == old(interval) && live == old(live) && nextHandle == old(nextHandle)
      ensures !v && old(pausedValue) ==>
                && interval == Some(Timer(old(nextHandle), intervalValue))
                && live == old(live) + {interval.value} && nextHandle == old(nextHandle) + 1
    {
      var was := pausedValue;
      pausedValue := v;
      if v != was {
        PausedValueChanged(v);
      }
    }

    /** A write of `intervalValue`, followed by its change callback when it changed. */
    method WriteInterval(v: int)
      requires TimerOk()
      modifies this`intervalValue, this`interval, this`live, this`nextHandle
      ensures TimerOk() && intervalValue == v
      ensures old(NoLeak()) ==> NoLeak()
      ensures pausedValue || v == old(intervalValue) ==>
                interval == old(interval) && live == old(live) && nextHandle == old(nextHandle)
      ensures !pausedValue && v != old(intervalValue) ==>
                && interval == (if v != 0 then Some(Timer(old(nextHandle), v)) else None)
                && live == old(live) - Handles(old(interval)) + Handles(interval)
                && nextHandle == old(nextHandle) + (if v != 0 then 1 else 0)
    {
      var was := intervalValue;
      intervalValue := v;
      if v != was {
        IntervalValueChanged(v);
      }
    }

    /** `currentValueChanged`: the outgoing slide (if any) is updated as hidden, then
        the incoming one as shown, both with the computed order; the wrap flag is
        cleared. */
    method CurrentValueChanged(newValue: int, oldValue: Option<int>)
      requires Wellformed() && TimerOk() && InRange(newValue)
      requires oldValue.Some? ==> InRange(oldValue.value) && oldValue.value != newValue
      modifies this`pausedValue, this`interval, this`live, this`nextHandle, this`intervalValue,
               this`updates, this`wrapping
      modifies Targets(newValue), if oldValue.Some? then Targets(oldValue.value) else {}
      ensures TimerOk() && !wrapping
      ensures old(NoLeak()) ==> NoLeak()
      ensures Switched(oldValue, newValue, TransitionOrder(newValue, oldValue, old(wrapping)), old(intervalValue))
      ensures |slides| > 0 ==> live == old(live) - Handles(old(interval)) && nextHandle == old(nextHandle)
      ensures |slides| == 0 ==>
                && pausedValue == old(pausedValue) && interval == old(interval)
                && live == old(live) && nextHandle == old(nextHandle) && intervalValue == old(intervalValue)
    {
      var order := TransitionOrder(newValue, oldValue, wrapping);
      if oldValue.Some? {
        TargetsDisjoint(oldValue.value, newValue);
        Update(oldValue.value, false, order);
      }
      Update(newValue, true, order);
      wrapping := false;
    }

    /** Two different slides' elements are different objects. */
    lemma TargetsDisjoint(i: int, j: int)
      requires Wellformed() && InRange(i) && InRange(j) && i != j
      ensures Targets(i) !! Targets(j)
    {
    }

    /** What a settle from `from` to `to` with `order` leaves: the `_update` calls in
        order; the slides and indicators presented; the carousel paused with no timer
        and the incoming slide's interval (read against `base`) in force. */
    twostate predicate Switched(from: Option<int>, to: int, order: Option<bool>, base: int)
      reads this, slides, indicators
    {
      && updates == old(updates) + (if from.Some? then [UpdateCall(from.value, false, order)] else [])
                                 + [UpdateCall(to, true, order)]
      && (0 <= to < |slides| ==>
            && Presented(slides[to], true, order)
            && (from.Some? && 0 <= from.value < |slides| ==> Presented(slides[from.value], false, order))
            && pausedValue && interval.None?
            && intervalValue == SlideInterval(slides[to].Attr(IntervalParam()), base))
      && (0 <= to < |indicators| ==>
            && Presented(indicators[to], true, None)
            && (from.Some? && 0 <= from.value < |indicators| ==> Presented(indicators[from.value], false, None)))
    }

    /** `_update(index, isVisible, order)`. */
    method Update(index: int, isVisible: bool, order: Option<bool>)
      requires Wellformed() && TimerOk() && InRange(index)
      modifies this`pausedValue, this`interval, this`live, this`nextHandle, this`intervalValue, this`updates
      modifies Targets(index)
      ensures TimerOk()
      ensures old(NoLeak()) ==> NoLeak()
      ensures updates == old(updates) + [UpdateCall(index, isVisible, order)]
      ensures |indicators| > 0 ==> Presented(indicators[index], isVisible, None)
      ensures |slides| > 0 ==>
                && Presented(slides[index], isVisible, order)
                && pausedValue && interval == None
                && live == old(live) - Handles(old(interval)) && nextHandle == old(nextHandle)
                && intervalValue == (if isVisible then SlideInterval(slides[index].Attr(IntervalParam()), old(intervalValue))
                                     else old(intervalValue))
      ensures |slides| == 0 ==>
                && pausedValue == old(pausedValue) && interval == old(interval)
                && live == old(live) && nextHandle == old(nextHandle) && intervalValue == old(intervalValue)
    {
      updates := updates + [UpdateCall(index, isVisible, order)];
      if |indicators| > 0 {
        SetState(indicators[index], isVisible, None);
      }
      if |slides| > 0 {
        assert |indicators| > 0 ==> indicators[index] != slides[index];
        UpdateSlide(slides[index], isVisible, order);
      }
    }

    /** The slide half of `_update`: the slide's interval is read before its state
        is set, and it is written when the slide is shown and it differs. */
    method UpdateSlide(element: Element, isVisible: bool, order: Option<bool>)
      requires TimerOk()
      modifies this`pausedValue, this`interval, this`live, this`nextHandle, this`intervalValue, element
      ensures TimerOk() && (old(NoLeak()) ==> NoLeak())
      ensures Presented(element, isVisible, order)
      ensures pausedValue && interval == None
      ensures live == old(live) - Handles(old(interval)) && nextHandle == old(nextHandle)
      ensures intervalValue == if isVisible then SlideInterval(old(element.Attr(IntervalParam())), old(intervalValue))
                               else old(intervalValue)
    {
      var slideInterval := SlideInterval(element.Attr(IntervalParam()), intervalValue);
      SetState(element, isVisible, order);
      if isVisible && slideInterval != intervalValue {
        WriteInterval(slideInterval);
      }
    }

    /** `_setState(element, isVisible, order)`: mirrors `aria-current`, pauses, then
        animates or sets `active` at once. */
    method SetState(element: Element, isVisible: bool, order: Option<bool>)
      requires TimerOk()
      modifies this`pausedValue, this`interval, this`live, this`nextHandle, element
      ensures TimerOk() && pausedValue && interval == None
      ensures live == old(live) - Handles(old(interval)) && nextHandle == old(nextHandle)
      ensures old(NoLeak()) ==> NoLeak()
      ensures Presented(element, isVisible, order)
    {
      element.toggled := element.toggled["aria-current" := isVisible];
      Pause();
      if order.Some? {
        Animate(element, isVisible, order.value);
      } else {
        element.classes := Toggled(element.classes, Active, isVisible);
      }
    }

    /** `_animate(element, isVisible, ltr)`. */
    method Animate(element: Element, isVisible: bool, ltr: bool)
      modifies element`classes, element`layouts, element`listeners
      ensures var (direction, orderClass) := AnimationPair(ltr);
              && element.listeners == old(element.listeners) + [SetActive(isVisible)]
              && (isVisible ==> element.layouts == old(element.layouts) + [old(element.classes) + {orderClass}]
                                && element.classes == old(element.classes) + {orderClass, direction})
              && (!isVisible ==> element.layouts == old(element.layouts)
                                 && element.classes == old(element.classes) + {direction})
    {
      var (direction, orderClass) := AnimationPair(ltr);
      if isVisible {
        element.classes := element.classes + {orderClass};
        element.layouts := element.layouts + [element.classes];
        element.classes := element.classes + {direction};
      } else {
        element.classes := element.classes + {direction};
      }
      element.listeners := element.listeners + [SetActive(isVisible)];
    }

    /** `slidesTargetConnected`: the same listener function is added at most once. */
    method SlidesTargetConnected(element: Element)
      requires element in slides
      modifies element`listeners
      ensures element.listeners == if ClearAnimation in old(element.listeners) then old(element.listeners)
                                   else old(element.listeners) + [ClearAnimation]
    {
      if ClearAnimation !in element.listeners {
        element.listeners := element.listeners + [ClearAnimation];
      }
    }

    /** `slidesTargetDisconnected` */
    method SlidesTargetDisconnected(element: Element)
      requires element in slides
      modifies element`listeners
      ensures element.listeners == Without(old(element.listeners), ClearAnimation)
    {
      var ls := element.listeners;
      var kept: seq<Listener> := [];
      var i := 0;
      while i < |ls|
        invariant 0 <= i <= |ls|
        invariant kept == Without(ls[..i], ClearAnimation)
      {
        assert ls[..i + 1][..i] == ls[..i];
        if ls[i] != ClearAnimation {
          kept := kept + [ls[i]];
        }
        i := i + 1;
      }
      assert ls[..i] == ls;
      element.listeners := kept;
    }

    // Actions

    /** `toggle(value?)`: the given boolean, or the opposite of the current state. */
    method Toggle(value: Option<bool>)
      requires Valid()
      modifies this`pausedValue, this`interval, this`live, this`nextHandle
      ensures Valid() && (old(NoLeak()) ==> NoLeak())
      ensures pausedValue == if value.Some? then value.value else !old(pausedValue)
      ensures pausedValue ==> interval == None && live == old(live) - Handles(old(interval)) && nextHandle == old(nextHandle)
      ensures !pausedValue && old(pausedValue) ==>
                && interval == Some(Timer(old(nextHandle), intervalValue))
                && live == old(live) + {interval.value} && nextHandle == old(nextHandle) + 1
      ensures !pausedValue && !old(pausedValue) ==>
                interval == old(interval) && live == old(live) && nextHandle == old(nextHandle)
    {
      WritePaused(if value.Some? then value.value else !pausedValue);
    }

    /** Two argument-less toggles restore the paused flag; a carousel that was
        playing plays again, on a fresh timer at the same interval. */
    method ToggleTwice()
      requires Valid()
      modifies this`pausedValue, this`interval, this`live, this`nextHandle
      ensures Valid() && (old(NoLeak()) ==> NoLeak())
      ensures pausedValue == old(pausedValue) && intervalValue == old(intervalValue)
      ensures !pausedValue ==> interval == Some(Timer(old(nextHandle), intervalValue))
    {
      Toggle(None);
      Toggle(None);
    }

    /** `pause()` */
    method Pause()
      requires TimerOk()
      modifies this`pausedValue, this`interval, this`live, this`nextHandle
      ensures TimerOk() && pausedValue && interval == None
      ensures live == old(live) - Handles(old(interval)) && nextHandle == old(nextHandle)
      ensures old(NoLeak()) ==> NoLeak()
    {
      WritePaused(true);
    }

    /** `start()`: resumes with a timer at the current interval. */
    method Start()
      requires Valid()
      modifies this`pausedValue, this`interval, this`live, this`nextHandle
      ensures Valid() && (old(NoLeak()) ==> NoLeak())
      ensures !pausedValue && intervalValue == old(intervalValue)
      ensures old(pausedValue) ==>
                && interval == Some(Timer(old(nextHandle), intervalValue))
                && live == old(live) + {interval.value} && nextHandle == old(nextHandle) + 1
      ensures !old(pausedValue) ==> interval == old(interval) && live == old(live) && nextHandle == old(nextHandle)
    {
      WritePaused(false);
    }

    /** `intervalValue = 0` and its callback, as `_next`/`_prev` begin: a playing
        carousel loses its timer unless the interval was 0 already. */
    twostate predicate IntervalZeroed()
      reads this
    {
      && intervalValue == 0 && pausedValue == old(pausedValue) && nextHandle == old(nextHandle)
      && if !old(pausedValue) && old(intervalValue) != 0 then
           interval == None && live == old(live) - Handles(old(interval))
         else
           interval == old(interval) && live == old(live)
    }

    /** The effect of one `_next` (`forward`) or `_prev` step `s` taken from `from`. */
    twostate predicate Stepped(s: Step, from: int, forward: bool)
      reads this, slides, indicators
    {
      && nextHandle == old(nextHandle)
      && match s
         case Halt =>
           && currentValue == from && wrapping == old(wrapping) && updates == old(updates)
           && pausedValue && interval == None && live == old(live) - Handles(old(interval))
           && intervalValue == 0
           && (forall e :: e in Targets(from) ==> unchanged(e))
         case Move(to, wrapped) =>
           && currentValue == to
           && if to == from then
                && wrapping == wrapped && updates == old(updates) && IntervalZeroed()
                && (forall e :: e in Targets(from) ==> unchanged(e))
              else
                && !wrapping
                && Switched(Some(from), to, Some(forward), 0)
                && (|slides| > 0 ==> live == old(live) - Handles(old(interval)))
                && (|slides| == 0 ==> IntervalZeroed())
    }

    /** A write of `currentValue`, followed by its change callback when it changed. */
    method WriteCurrent(v: int)
      requires Wellformed() && TimerOk() && InRange(currentValue) && InRange(v)
      modifies this`currentValue, this`pausedValue, this`interval, this`live, this`nextHandle,
               this`intervalValue, this`updates, this`wrapping
      modifies Targets(currentValue), Targets(v)
      ensures TimerOk() && (old(NoLeak()) ==> NoLeak()) && currentValue == v
      ensures v != old(currentValue) ==>
                && !wrapping
                && Switched(Some(old(currentValue)), v, TransitionOrder(v, Some(old(currentValue)), old(wrapping)),
                            old(intervalValue))
                && nextHandle == old(nextHandle)
                && (|slides| > 0 ==> live == old(live) - Handles(old(interval)))
                && (|slides| == 0 ==> && intervalValue == old(intervalValue) && pausedValue == old(pausedValue)
                                      && interval == old(interval) && live == old(live))
      ensures v == old(currentValue) ==>
                && wrapping == old(wrapping) && pausedValue == old(pausedValue) && interval == old(interval)
                && live == old(live) && nextHandle == old(nextHandle) && intervalValue == old(intervalValue)
                && updates == old(updates) && (forall e :: e in Targets(v) ==> unchanged(e))
    {
      var was := currentValue;
      currentValue := v;
      if v != was {
        CurrentValueChanged(v, Some(was));
      }
    }

    /** A `_next`/`_prev` step that moves: `intervalValue = 0`, then (the wrap flag
        set first when the step wraps) a write of `to`. Only a wrap on a single
        slide writes the index it already has. */
    method StepTo(to: int, wrapped: bool, forward: bool)
      requires Valid() && InRange(to)
      requires to == currentValue ==> wrapped && |slides| == 1
      requires to != currentValue ==> TransitionOrder(to, Some(currentValue), wrapped) == Some(forward)
      modifies this`currentValue, this`pausedValue, this`interval, this`live, this`nextHandle,
               this`intervalValue, this`updates, this`wrapping
      modifies Targets(currentValue), Targets(to)
      ensures Valid() && (old(NoLeak()) ==> NoLeak())
      ensures Stepped(Move(to, wrapped), old(currentValue), forward)
    {
      WriteInterval(0);
      if wrapped {
        wrapping := true;
      }
      WriteCurrent(to);
    }

    /** A `_next`/`_prev` step that cannot move: `intervalValue = 0`, then a pause
        unless already paused. */
    method StepHalt(forward: bool)
      requires Valid()
      modifies this`pausedValue, this`interval, this`live, this`nextHandle, this`intervalValue
      ensures Valid() && (old(NoLeak()) ==> NoLeak())
      ensures Stepped(Halt, old(currentValue), forward)
    {
      WriteInterval(0);
      if !pausedValue {
        Pause();
      }
    }

    /** `_next` */
    method StepNext()
      requires Valid()
      modifies this`currentValue, this`pausedValue, this`interval, this`live, this`nextHandle,
               this`intervalValue, this`updates, this`wrapping
      modifies Targets(currentValue), Targets(StepTarget(NextStep(currentValue, |slides|, wrapValue)))
      ensures Valid() && (old(NoLeak()) ==> NoLeak())
      ensures Stepped(old(NextStep(currentValue, |slides|, wrapValue)), old(currentValue), true)
    {
      var last := if |slides| > 0 then |slides| - 1 else 0;
      if currentValue < last {
        StepTo(currentValue + 1, false, true);
      } else if currentValue > 0 && wrapValue {
        StepTo(0, true, true);
      } else {
        StepHalt(true);
      }
    }

    /** `_prev` */
    method StepPrev()
      requires Valid()
      modifies this`currentValue, this`pausedValue, this`interval, this`live, this`nextHandle,
               this`intervalValue, this`updates, this`wrapping
      modifies Targets(currentValue), Targets(StepTarget(PrevStep(currentValue, |slides|, wrapValue)))
      ensures Valid() && (old(NoLeak()) ==> NoLeak())
      ensures Stepped(old(PrevStep(currentValue, |slides|, wrapValue)), old(currentValue), false)
    {
      if currentValue > 0 {
        StepTo(currentValue - 1, false, false);
      } else if wrapValue && |slides| > 0 {
        StepTo(|slides| - 1, true, false);
      } else {
        StepHalt(false);
      }
    }

    function StepTarget(s: Step): int {
      if s.Move? then s.target else -1
    }

    /** `next()`: `_next` when the direction is `"left"`, otherwise `_prev`. */
    method Next()
      requires Valid()
      modifies this`currentValue, this`pausedValue, this`interval, this`live, this`nextHandle,
               this`intervalValue, this`updates, this`wrapping
      modifies Targets(currentValue), Targets(StepTarget(Forward()))
      ensures Valid() && (old(NoLeak()) ==> NoLeak())
      ensures Stepped(old(Forward()), old(currentValue), directionValue == "left")
      ensures |slides| >= 2 ==> pausedValue && interval == None && live == old(live) - Handles(old(interval))
    {
      if directionValue == "left" {
        StepNext();
      } else {
        StepPrev();
      }
    }

    /** `prev()`: the mirror of `next()`. */
    method Prev()
      requires Valid()
      modifies this`currentValue, this`pausedValue, this`interval, this`live, this`nextHandle,
               this`intervalValue, this`updates, this`wrapping
      modifies Targets(currentValue), Targets(StepTarget(Backward()))
      ensures Valid() && (old(NoLeak()) ==> NoLeak())
      ensures Stepped(old(Backward()), old(currentValue), directionValue != "left")
      ensures |slides| >= 2 ==> pausedValue && interval == None && live == old(live) - Handles(old(interval))
    {
      if directionValue == "left" {
        StepPrev();
      } else {
        StepNext();
      }
    }

    /** The installed timer fires: it calls `next()`. */
    method Tick(t: Timer)
      requires Valid() && t in live
      modifies this`currentValue, this`pausedValue, this`interval, this`live, this`nextHandle,
               this`intervalValue, this`updates, this`wrapping
      modifies Targets(currentValue), Targets(StepTarget(Forward()))
      ensures Valid() && (old(NoLeak()) ==> NoLeak())
      ensures Stepped(old(Forward()), old(currentValue), directionValue == "left")
      ensures |slides| >= 2 ==> pausedValue && interval == None && live == old(live) - Handles(old(interval))
    {
      Next();
    }

    /** Whether `to(arg)` moves to another slide: the slide is given, exists, and is
        not the current one. */
    predicate Jumps(arg: ToArgument)
      reads this
    {
      SlideOf(arg).Some? && 0 <= SlideOf(arg).value < |slides| && SlideOf(arg).value != currentValue
    }

    /** `to(value)`: jumps to a slide, or reports why it cannot. */
    method To(arg: ToArgument)
      requires Valid()
      modifies this`currentValue, this`pausedValue, this`interval, this`live, this`nextHandle,
               this`intervalValue, this`updates, this`wrapping, this`diagnostics
      modifies Targets(currentValue), if SlideOf(arg).Some? then Targets(SlideOf(arg).value) else {}
      ensures Valid() && (old(NoLeak()) ==> NoLeak())
      ensures var slide := SlideOf(arg);
              if slide.None? then
                diagnostics == old(diagnostics) + [MissingSlideParam]
              else if |slides| == 0 || slide.value < 0 || slide.value >= |slides| then
                diagnostics == old(diagnostics) + [SlideOutOfRange(|slides| - 1)]
              else
                diagnostics == old(diagnostics)
      ensures old(Jumps(arg)) ==>
                && currentValue == SlideOf(arg).value && !wrapping
                && Switched(Some(old(currentValue)), currentValue,
                            TransitionOrder(currentValue, Some(old(currentValue)), old(wrapping)), old(intervalValue))
                && live == old(live) - Handles(old(interval)) && nextHandle == old(nextHandle)
      ensures !old(Jumps(arg)) ==>
                && currentValue == old(currentValue) && wrapping == old(wrapping)
                && pausedValue == old(pausedValue) && interval == old(interval) && live == old(live)
                && nextHandle == old(nextHandle) && intervalValue == old(intervalValue) && updates == old(updates)
                && forall e :: e in Targets(old(currentValue)) ==> unchanged(e)
    {
      var slide := SlideOf(arg);
      if slide.None? {
        diagnostics := diagnostics + [MissingSlideParam];
      } else if |slides| == 0 || slide.value < 0 || slide.value >= |slides| {
        diagnostics := diagnostics + [SlideOutOfRange(|slides| - 1)];
      } else {
        WriteCurrent(slide.value);
      }
    }
  }
}
