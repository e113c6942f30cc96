/** Class names the controllers write (Bootstrap's CSS vocabulary). */
module Css {
  const Active := "active"
  const Show := "show"
  const Hide := "hide"
  const Fade := "fade"
  const Collapse := "collapse"
  const Collapsing := "collapsing"

  /** The carousel's `cssClasses` (carousel_controller.ts). */
  const DirectionLtr := "carousel-item-start"
  const DirectionRtl := "carousel-item-end"
  const OrderLtr := "carousel-item-next"
  const OrderRtl := "carousel-item-prev"

  /** What `clearAnimationClasses` strips. */
  const AnimationClasses: set<string> := {DirectionLtr, DirectionRtl, OrderLtr, OrderRtl}
}

/** The part of an HTML element the controllers read and write, and the delivery
    of a `transitionend` event to the listeners registered on it. */
module Dom {
  import opened Js
  import opened Css

  /** A `transitionend` listener, by what it does. */
  datatype Listener =
    | /** `clearAnimationClasses`, added once per connected carousel slide and kept. */
      ClearAnimation
    | /** The carousel's one-shot `classList.toggle("active", visible)`. */
      SetActive(visible: bool)
    | /** The collapse's one-shot finaliser for an opening (`true`) or closing panel. */
      EndCollapse(open: bool)
    | /** The toast's one-shot `element.remove()`. */
      RemoveSelf

  /** Registered with `{ once: true }`: dropped after one delivery. */
  predicate IsOnce(l: Listener) {
    !l.ClearAnimation?
  }

  /** `classList.toggle(c, force)`. */
  function Toggled(classes: set<string>, c: string, force: bool): (r: set<string>)
    ensures (c in r) == force
    ensures r - {c} == classes - {c}
  {
    if force then classes + {c} else classes - {c}
  }

  /** A later `toggle` of the same class overrides an earlier one. */
  lemma ToggledTwice(classes: set<string>, c: string, a: bool, b: bool)
    ensures Toggled(Toggled(classes, c, a), c, b) == Toggled(classes, c, b)
  {
  }

  /** `getAttribute(name)`: `None` when the attribute is absent. */
  function Get(attrs: map<string, string>, name: string): (r: Option<string>)
    ensures r.Some? <==> name in attrs
  {
    if name in attrs then Some(attrs[name]) else None
  }

  /** What a listener can change: the class list and whether the element is still in
      the document. */
  datatype Look = Look(classes: set<string>, removed: bool)

  function Fire(l: Listener, look: Look): Look {
    match l
    case ClearAnimation => look.(classes := look.classes - AnimationClasses)
    case SetActive(v) => look.(classes := Toggled(look.classes, Active, v))
    case EndCollapse(open) =>
      look.(classes := look.classes + {Collapse} - {Collapsing} + (if open then {Show} else {}))
    case RemoveSelf => look.(removed := true)
  }

  /** The listeners fired one after the other, in registration order. */
  function FireAll(ls: seq<Listener>, look: Look): Look {
    if ls == [] then look else Fire(ls[|ls| - 1], FireAll(ls[..|ls| - 1], look))
  }

  /** What stays registered after a delivery. */
  function Persistent(ls: seq<Listener>): (r: seq<Listener>)
    ensures forall l :: l in r <==> l in ls && !IsOnce(l)
  {
    if ls == [] then [] else Persistent(ls[..|ls| - 1]) + (if IsOnce(ls[|ls| - 1]) then [] else [ls[|ls| - 1]])
  }

  /** `removeEventListener` of `x`: the other listeners, in their order. */
  function Without(ls: seq<Listener>, x: Listener): (r: seq<Listener>)
    ensures forall l :: l in r <==> l in ls && l != x
  {
    if ls == [] then [] else Without(ls[..|ls| - 1], x) + (if ls[|ls| - 1] == x then [] else [ls[|ls| - 1]])
  }

  /** Removing a listener that is not registered changes nothing. */
  lemma {:induction false} WithoutAbsent(ls: seq<Listener>, x: Listener)
    requires x !in ls
    ensures Without(ls, x) == ls
  {
    if ls != [] {
      WithoutAbsent(ls[..|ls| - 1], x);
      assert ls == ls[..|ls| - 1] + [ls[|ls| - 1]];
    }
  }

  /** The last `SetActive` among the listeners, if any. */
  function LastActivation(ls: seq<Listener>): Option<bool> {
    if ls == [] then None
    else if ls[|ls| - 1].SetActive? then Some(ls[|ls| - 1].visible)
    else LastActivation(ls[..|ls| - 1])
  }

  /** After a delivery, `active` is what the last one-shot carousel finaliser asked
      for, or untouched when there was none. */
  lemma {:induction false} ActiveAfterDelivery(ls: seq<Listener>, look: Look)
    ensures Active in FireAll(ls, look).classes <==>
              match LastActivation(ls)
              case Some(v) => v
              case None => Active in look.classes
  {
    if ls != [] {
      ActiveAfterDelivery(ls[..|ls| - 1], look);
    }
  }

  /** Removing `clearAnimationClasses` leaves the pending `active` finalisers, in
      order, so the same one decides `active`. */
  lemma {:induction false} ActivationWithoutClear(ls: seq<Listener>)
    ensures LastActivation(Without(ls, ClearAnimation)) == LastActivation(ls)
  {
    if ls != [] {
      var init, last := ls[..|ls| - 1], ls[|ls| - 1];
      var w := Without(init, ClearAnimation);
      ActivationWithoutClear(init);
      assert LastActivation(ls) == if last.SetActive? then Some(last.visible) else LastActivation(init);
      if last != ClearAnimation {
        var v := w + [last];
        assert Without(ls, ClearAnimation) == v;
        assert v[..|v| - 1] == w && v[|v| - 1] == last;
        assert LastActivation(v) == if last.SetActive? then Some(last.visible) else LastActivation(w);
      } else {
        assert w + [] == w;
        assert Without(ls, ClearAnimation) == w;
      }
    }
  }

  /** No listener adds an animation class, so once `clearAnimationClasses` has run
      in a delivery none is left at its end. */
  lemma {:induction false} NoAnimationAfterClear(ls: seq<Listener>, look: Look)
    requires ClearAnimation in ls
    ensures FireAll(ls, look).classes !! AnimationClasses
  {
    var n := |ls|;
    if ls[n - 1] != ClearAnimation {
      assert ClearAnimation in ls[..n - 1] by {
        var k :| 0 <= k < n && ls[k] == ClearAnimation;
        assert ls[..n - 1][k] == ClearAnimation;
      }
      NoAnimationAfterClear(ls[..n - 1], look);
    }
  }

  /** The last collapse finaliser among the listeners, if any. */
  function LastCollapse(ls: seq<Listener>): Option<bool> {
    if ls == [] then None
    else if ls[|ls| - 1].EndCollapse? then Some(ls[|ls| - 1].open)
    else LastCollapse(ls[..|ls| - 1])
  }

  /** After a delivery that ran a collapse finaliser, the panel has `collapse`, not
      `collapsing`, and `show` when the last finaliser was for an opening. */
  lemma {:induction false} CollapseAfterDelivery(ls: seq<Listener>, look: Look)
    requires LastCollapse(ls).Some?
    requires forall l :: l in ls ==> !l.SetActive? && !l.ClearAnimation?
    ensures Collapse in FireAll(ls, look).classes
    ensures Collapsing !in FireAll(ls, look).classes
    ensures LastCollapse(ls).value ==> Show in FireAll(ls, look).classes
  {
    var n := |ls|;
    assert forall l :: l in ls[..n - 1] ==> l in ls;
    if !ls[n - 1].EndCollapse? {
      CollapseAfterDelivery(ls[..n - 1], look);
    }
  }

  /** A delivery removes the element exactly when a toast's removal was pending. */
  lemma {:induction false} RemovedAfterDelivery(ls: seq<Listener>, look: Look)
    ensures FireAll(ls, look).removed <==> look.removed || RemoveSelf in ls
  {
    if ls != [] {
      RemovedAfterDelivery(ls[..|ls| - 1], look);
      assert ls == ls[..|ls| - 1] + [ls[|ls| - 1]];
    }
  }

  /** An element of the page. `id` is fixed; everything the controllers touch is a
      field they update in place. */
  class Element {
    const id: string
    var classes: set<string>
    var attrs: map<string, string>
    /** The boolean last given to `toggleAttribute(element, name, b)` per name. */
    var toggled: map<string, bool>
    /** `style.display`, when set. */
    var display: Option<string>
    /** Set by `element.remove()`. */
    var removed: bool
    /** The `transitionend` listeners, in registration order. */
    var listeners: seq<Listener>
    /** The class list as laid out at each forced reflow (`element.offsetHeight`). */
    var layouts: seq<set<string>>

    constructor (id: string, classes: set<string>, attrs: map<string, string>)
      ensures this.id == id && this.classes == classes && this.attrs == attrs
      ensures toggled == map[] && display == None && !removed && listeners == [] && layouts == []
    {
      this.id := id;
      this.classes := classes;
      this.attrs := attrs;
      toggled := map[];
      display := None;
      removed := false;
      listeners := [];
      layouts := [];
    }

    function Attr(name: string): Option<string>
      reads this
    {
      Get(attrs, name)
    }

    /** The host reports that a CSS transition on this element finished: every
        listener runs once, in order, and the one-shot ones are dropped. */
    method TransitionEnd()
      modifies this`classes, this`removed, this`listeners
      ensures Look(classes, removed) == FireAll(old(listeners), Look(old(classes), old(removed)))
      ensures listeners == Persistent(old(listeners))
    {
      var ls := listeners;
      var i := 0;
      while i < |ls|
        invariant 0 <= i <= |ls|
        invariant Look(classes, removed) == FireAll(ls[..i], Look(old(classes), old(removed)))
      {
        assert ls[..i + 1][..i] == ls[..i];
        var look := Fire(ls[i], Look(classes, removed));
        classes, removed := look.classes, look.removed;
        i := i + 1;
      }
      assert ls[..i] == ls;
      listeners := Persistent(ls);
    }
  }
}
