/** The tab controller (tab_controller.ts): one current id selects the toggles that
    refer to it through `aria-controls` (or an `href` fragment) and the pane that
    carries it as its id. */
module TabControllers {
  import opened Js
  import opened Css
  import opened Dom
  import opened Helpers

  const AriaControls := "aria-controls"
  const AriaSelected := "aria-selected"
  const TabIndex := "tabindex"
  const AriaHidden := "aria-hidden"

  /** A toggle's attributes once it is selected (`aria-selected=""`, no `tabindex`)
      or deselected (no `aria-selected`, `tabindex="-1"`). */
  function SelectionAttrs(attrs: map<string, string>, selected: bool): (r: map<string, string>)
    ensures Get(r, AriaSelected) == (if selected then Some("") else None)
    ensures Get(r, TabIndex) == (if selected then None else Some("-1"))
    ensures forall k :: k != AriaSelected && k != TabIndex ==> Get(r, k) == Get(attrs, k)
  {
    if selected then attrs[AriaSelected := ""] - {TabIndex}
    else (attrs - {AriaSelected})[TabIndex := "-1"]
  }

  /** A pane's attributes once shown or hidden: `aria-hidden` is `(!state).toString()`. */
  function PaneAttrs(attrs: map<string, string>, shown: bool): (r: map<string, string>)
    ensures Get(r, AriaHidden) == Some(if shown then "false" else "true")
    ensures forall k :: k != AriaHidden ==> Get(r, k) == Get(attrs, k)
  {
    attrs[AriaHidden := if shown then "false" else "true"]
  }

  /** Selecting then deselecting (or the other way round) leaves what the second
      call asks for: the later `_setState` wins. */
  lemma SelectionLastWins(attrs: map<string, string>, a: bool, b: bool)
    ensures SelectionAttrs(SelectionAttrs(attrs, a), b) == SelectionAttrs(attrs, b)
  {
    var r1 := SelectionAttrs(SelectionAttrs(attrs, a), b);
    var r2 := SelectionAttrs(attrs, b);
    assert forall k :: Get(r1, k) == Get(r2, k);
    assert forall k :: k in r1 <==> k in r2 by {
      forall k ensures k in r1 <==> k in r2 {
        assert Get(r1, k) == Get(r2, k);
      }
    }
    forall k | k in r1 ensures r1[k] == r2[k] {
      assert Get(r1, k) == Get(r2, k);
    }
  }

  /** The classes and attributes of a toggle that is fully selected or fully deselected. */
  predicate SelectionLook(classes: set<string>, attrs: map<string, string>, selected: bool) {
    && (Active in classes) == selected
    && Get(attrs, AriaSelected) == (if selected then Some("") else None)
    && Get(attrs, TabIndex) == (if selected then None else Some("-1"))
  }

  predicate ToggleIs(t: Element, selected: bool)
    reads t
  {
    SelectionLook(t.classes, t.attrs, selected)
  }

  /** The state of a pane that is fully shown or fully hidden. */
  predicate PaneIs(p: Element, shown: bool)
    reads p
  {
    && (Active in p.classes) == shown
    && (Show in p.classes) == shown
    && p.Attr(AriaHidden) == Some(if shown then "false" else "true")
  }

  /** `findLast` of the elements carrying class `c`. */
  function LastWithClass(es: seq<Element>, c: string): (r: Option<nat>)
    reads set e | e in es
    ensures r.Some? ==> r.value < |es| && c in es[r.value].classes
    ensures r.Some? ==> forall k :: r.value < k < |es| ==> c !in es[k].classes
    ensures r.None? ==> forall k :: 0 <= k < |es| ==> c !in es[k].classes
  {
    if es == [] then None
    else if c in es[|es| - 1].classes then Some(|es| - 1)
    else LastWithClass(es[..|es| - 1], c)
  }

  /** Everything of an element besides its classes and attributes is unchanged. */
  twostate predicate OnlyClassesAndAttrs(e: Element)
    reads e
  {
    && e.toggled == old(e.toggled) && e.display == old(e.display) && e.removed == old(e.removed)
    && e.listeners == old(e.listeners) && e.layouts == old(e.layouts)
  }

  /** What `_setState(id, state)` leaves on one toggle. */
  twostate predicate ToggleMarked(t: Element, id: string, state: bool)
    reads t
  {
    && OnlyClassesAndAttrs(t)
    && if old(Resolve(t, AriaControls)) == id then
         t.classes == Toggled(old(t.classes), Active, state) && t.attrs == SelectionAttrs(old(t.attrs), state)
       else
         t.classes == old(t.classes) && t.attrs == old(t.attrs)
  }

  /** What `_setState(id, state)` leaves on one pane. */
  twostate predicate PaneMarked(p: Element, id: string, state: bool)
    reads p
  {
    && OnlyClassesAndAttrs(p)
    && if p.id == id then
         p.classes == Toggled(Toggled(old(p.classes), Active, state), Show, state)
         && p.attrs == PaneAttrs(old(p.attrs), state)
       else
         p.classes == old(p.classes) && p.attrs == old(p.attrs)
  }

  /** A toggle's `aria-controls` and `href`, hence its resolved id, survive a
      selection change. */
  lemma ResolveSurvivesSelection(attrs: map<string, string>, state: bool)
    ensures ResolveTarget(Get(SelectionAttrs(attrs, state), AriaControls), Get(SelectionAttrs(attrs, state), "href"))
            == ResolveTarget(Get(attrs, AriaControls), Get(attrs, "href"))
  {
  }

  /** What a change of the current id from `from` to `to` leaves on one toggle:
      the one that resolves to `to` is selected, the one that resolves to `from` is
      deselected, any other is untouched. */
  twostate predicate ToggleSwitched(t: Element, from: string, to: string)
    reads t
  {
    && OnlyClassesAndAttrs(t)
    && SwitchedSelection(old(t.classes), old(t.attrs), t.classes, t.attrs, from, to)
  }

  /** The same on the classes and attributes themselves, before and after. */
  predicate SwitchedSelection(classes: set<string>, attrs: map<string, string>,
                              classes': set<string>, attrs': map<string, string>, from: string, to: string)
  {
    var r := ResolveTarget(Get(attrs, AriaControls), Get(attrs, "href"));
    if from != to && to != "" && r == to then
      classes' == Toggled(classes, Active, true) && attrs' == SelectionAttrs(attrs, true)
    else if from != to && from != "" && r == from then
      classes' == Toggled(classes, Active, false) && attrs' == SelectionAttrs(attrs, false)
    else
      classes' == classes && attrs' == attrs
  }

  /** A toggle that showed `from` shows `to` once the switch has passed over it. */
  lemma SelectionFollows(classes: set<string>, attrs: map<string, string>,
                         classes': set<string>, attrs': map<string, string>, from: string, to: string)
    requires SwitchedSelection(classes, attrs, classes', attrs', from, to)
    requires SelectionLook(classes, attrs, from != "" && ResolveTarget(Get(attrs, AriaControls), Get(attrs, "href")) == from)
    ensures SelectionLook(classes', attrs', to != "" && ResolveTarget(Get(attrs', AriaControls), Get(attrs', "href")) == to)
  {
    ResolveSurvivesSelection(attrs, Active in classes');
  }

  /** The same for one pane, matched on its own id. */
  twostate predicate PaneSwitched(p: Element, from: string, to: string)
    reads p
  {
    && OnlyClassesAndAttrs(p)
    && if from != to && to != "" && p.id == to then
         p.classes == Toggled(Toggled(old(p.classes), Active, true), Show, true) && p.attrs == PaneAttrs(old(p.attrs), true)
       else if from != to && from != "" && p.id == from then
         p.classes == Toggled(Toggled(old(p.classes), Active, false), Show, false) && p.attrs == PaneAttrs(old(p.attrs), false)
       else
         p.classes == old(p.classes) && p.attrs == old(p.attrs)
  }

  class TabController {
    const toggles: seq<Element>
    const panes: seq<Element>
    var currentValue: string

    /** The toggles and the panes are two lists without repeats and share no element. */
    ghost predicate Wellformed() {
      && (forall i, j :: 0 <= i < j < |toggles| ==> toggles[i] != toggles[j])
      && (forall i, j :: 0 <= i < j < |panes| ==> panes[i] != panes[j])
      && (forall i, j :: 0 <= i < |toggles| && 0 <= j < |panes| ==> toggles[i] != panes[j])
    }

    /** The page shows the current id: exactly the toggles resolving to it are
        selected and exactly the panes carrying it are shown; no id shows nothing. */
    ghost predicate Consistent()
      reads this, set t | t in toggles, set p | p in panes
    {
      && (forall i :: 0 <= i < |toggles| ==>
            ToggleIs(toggles[i], currentValue != "" && Resolve(toggles[i], AriaControls) == currentValue))
      && (forall i :: 0 <= i < |panes| ==>
            PaneIs(panes[i], currentValue != "" && panes[i].id == currentValue))
    }

    /** At most one pane is shown when the panes' ids are distinct. */
    lemma OnePaneShown()
      requires Consistent()
      requires forall i, j :: 0 <= i < j < |panes| ==> panes[i].id != panes[j].id
      ensures forall i, j ::
                0 <= i < |panes| && 0 <= j < |panes| && Css.Show in panes[i].classes && Css.Show in panes[j].classes ==> i == j
    {
      forall i, j | 0 <= i < |panes| && 0 <= j < |panes| && Css.Show in panes[i].classes && Css.Show in panes[j].classes
        ensures i == j
      {
        assert PaneIs(panes[i], currentValue != "" && panes[i].id == currentValue);
        assert PaneIs(panes[j], currentValue != "" && panes[j].id == currentValue);
      }
    }

    constructor (toggles: seq<Element>, panes: seq<Element>, current: string)
      ensures this.toggles == toggles && this.panes == panes && currentValue == current
    {
      this.toggles := toggles;
      this.panes := panes;
      currentValue := current;
    }

    /** `connect`: with toggles and no current id, the id of the last `active`
        toggle (or `""`) becomes current. */
    method Connect()
      requires Wellformed()
      modifies this`currentValue, toggles, panes
      ensures currentValue == if |toggles| > 0 && old(currentValue) == "" then old(InitialId()) else old(currentValue)
      ensures Switched(old(currentValue), currentValue)
    {
      if |toggles| > 0 && currentValue == "" {
        var current := LastWithClass(toggles, Active);
        WriteCurrent(if current.Some? then Resolve(toggles[current.value], AriaControls) else "");
      }
    }

    /** The id `connect` picks. */
    function InitialId(): string
      reads this, set t | t in toggles
    {
      var current := LastWithClass(toggles, Active);
      if current.Some? then Resolve(toggles[current.value], AriaControls) else ""
    }

    /** What a change of the current id from `from` to `to` leaves on the page (and a
        write of the same id leaves nothing changed). */
    twostate predicate Switched(from: string, to: string)
      reads this, set t | t in toggles, set p | p in panes
    {
      && (forall i :: 0 <= i < |toggles| ==> ToggleSwitched(toggles[i], from, to))
      && (forall i :: 0 <= i < |panes| ==> PaneSwitched(panes[i], from, to))
    }

    /** A write of `currentValue`, followed by `currentValueChanged` when it changed.
        A page that showed the old id shows the new one. */
    method WriteCurrent(v: string)
      requires Wellformed()
      modifies this`currentValue, toggles, panes
      ensures currentValue == v
      ensures Switched(old(currentValue), v)
      ensures old(Consistent()) ==> Consistent()
    {
      var was := currentValue;
      currentValue := v;
      if v != was {
        CurrentValueChanged(Some(v), Some(was));
      }
      if old(Consistent()) {
        forall i | 0 <= i < |toggles|
          ensures ToggleIs(toggles[i], v != "" && Resolve(toggles[i], AriaControls) == v)
        {
          var t := toggles[i];
          SelectionFollows(old(t.classes), old(t.attrs), t.classes, t.attrs, was, v);
        }
        forall i | 0 <= i < |panes|
          ensures PaneIs(panes[i], v != "" && panes[i].id == v)
        {
        }
      }
    }

    /** `show`: the id the clicked element resolves to becomes current. */
    method Show(target: Element)
      requires Wellformed()
      modifies this`currentValue, toggles, panes
      ensures currentValue == old(Resolve(target, AriaControls))
      ensures Switched(old(currentValue), currentValue)
      ensures old(Consistent()) ==> Consistent()
    {
      WriteCurrent(Resolve(target, AriaControls));
    }

    /** `hide`: clears the current id only when the clicked element resolves to it. */
    method Hide(target: Element)
      requires Wellformed()
      modifies this`currentValue, toggles, panes
      ensures currentValue == if old(currentValue) == old(Resolve(target, AriaControls)) then "" else old(currentValue)
      ensures Switched(old(currentValue), currentValue)
      ensures old(Consistent()) ==> Consistent()
    {
      if currentValue == Resolve(target, AriaControls) {
        WriteCurrent("");
      } else {
        SwitchedToSelf();
      }
    }

    /** `toggle`: clears the current id when the clicked element resolves to it,
        otherwise makes that element's id current. */
    method Toggle(target: Element)
      requires Wellformed()
      modifies this`currentValue, toggles, panes
      ensures currentValue == if old(currentValue) == old(Resolve(target, AriaControls)) then ""
                              else old(Resolve(target, AriaControls))
      ensures Switched(old(currentValue), currentValue)
      ensures old(Consistent()) ==> Consistent()
    {
      var ref := Resolve(target, AriaControls);
      WriteCurrent(if currentValue == ref then "" else ref);
    }

    /** Keeping the current id changes nothing on the page. */
    twostate lemma SwitchedToSelf()
      requires unchanged(this) && forall e :: e in toggles || e in panes ==> unchanged(e)
      ensures Switched(currentValue, currentValue)
    {
    }

    /** `currentValueChanged(new, old)`: `_deactivate(old)` then `_activate(new)`;
        an absent or empty id is skipped. */
    method CurrentValueChanged(newValue: Option<string>, oldValue: Option<string>)
      requires Wellformed()
      requires newValue.Some? && oldValue.Some? ==> newValue != oldValue
      modifies toggles, panes
      ensures Switched(if oldValue.Some? then oldValue.value else "", if newValue.Some? then newValue.value else "")
    {
      var from := if oldValue.Some? then oldValue.value else "";
      var to := if newValue.Some? then newValue.value else "";
      if from != "" {
        SetState(from, false);
      }
      label deactivated:
      if to != "" {
        SetState(to, true);
        assert forall i :: 0 <= i < |toggles| ==> ToggleMarked@deactivated(toggles[i], to, true);
        assert forall i :: 0 <= i < |panes| ==> PaneMarked@deactivated(panes[i], to, true);
      }
      forall i | 0 <= i < |toggles|
        ensures ToggleSwitched(toggles[i], from, to)
      {
        ResolveSurvivesSelection(old(toggles[i].attrs), false);
      }
    }

    /** `_setState(id, state)`: every toggle resolving to `id` and every pane with
        that id is marked; all others are left alone. */
    method SetState(id: string, state: bool)
      requires Wellformed()
      modifies toggles, panes
      ensures forall i :: 0 <= i < |toggles| ==> ToggleMarked(toggles[i], id, state)
      ensures forall i :: 0 <= i < |panes| ==> PaneMarked(panes[i], id, state)
    {
      MarkToggles(id, state);
      MarkPanes(id, state);
    }

    /** The toggles' `forEach` of `_setState`. */
    method MarkToggles(id: string, state: bool)
      requires Wellformed()
      modifies toggles
      ensures forall i :: 0 <= i < |toggles| ==> ToggleMarked(toggles[i], id, state)
    {
      var i := 0;
      while i < |toggles|
        invariant 0 <= i <= |toggles|
        invariant forall k :: 0 <= k < i ==> ToggleMarked(toggles[k], id, state)
        invariant forall k :: i <= k < |toggles| ==> unchanged(toggles[k])
      {
        var toggle := toggles[i];
        if Resolve(toggle, AriaControls) == id {
          toggle.classes := Toggled(toggle.classes, Active, state);
          toggle.attrs := SelectionAttrs(toggle.attrs, state);
        }
        i := i + 1;
      }
    }

    /** The panes' `forEach` of `_setState`. */
    method MarkPanes(id: string, state: bool)
      requires Wellformed()
      modifies panes
      ensures forall i :: 0 <= i < |panes| ==> PaneMarked(panes[i], id, state)
    {
      var j := 0;
      while j < |panes|
        invariant 0 <= j <= |panes|
        invariant forall k :: 0 <= k < j ==> PaneMarked(panes[k], id, state)
        invariant forall k :: j <= k < |panes| ==> unchanged(panes[k])
      {
        var pane := panes[j];
        if pane.id == id {
          pane.classes := Toggled(Toggled(pane.classes, Active, state), Css.Show, state);
          pane.attrs := PaneAttrs(pane.attrs, state);
        }
        j := j + 1;
      }
    }
  }
}
