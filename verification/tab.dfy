/** The simpler tab controller (tab.ts): toggles name their pane through a
    `data-bs-tab-id-param` attribute and only classes are changed. */
module Tabs {
  import opened Js
  import opened Css
  import opened Dom

  const IdParam := "data-bs-tab-id-param"

  /** Everything of an element besides its classes is unchanged. */
  twostate predicate OnlyClasses(e: Element)
    reads e
  {
    && e.attrs == old(e.attrs) && e.toggled == old(e.toggled) && e.display == old(e.display)
    && e.removed == old(e.removed) && e.listeners == old(e.listeners) && e.layouts == old(e.layouts)
  }

  /** What `doToggle(id, state)` leaves on one toggle. */
  twostate predicate ToggleMarked(t: Element, id: string, state: bool)
    reads t
  {
    && OnlyClasses(t)
    && t.classes == if t.Attr(IdParam) == Some(id) then Toggled(old(t.classes), Active, state) else old(t.classes)
  }

  /** What `doToggle(id, state)` leaves on one pane. */
  twostate predicate PaneMarked(p: Element, id: string, state: bool)
    reads p
  {
    && OnlyClasses(p)
    && p.classes == if p.id == id then Toggled(Toggled(old(p.classes), Active, state), Show, state) else old(p.classes)
  }

  /** What a change of the current id from `from` to `to` leaves on one toggle. */
  twostate predicate ToggleSwitched(t: Element, from: string, to: string)
    reads t
  {
    && OnlyClasses(t)
    && t.classes == if from != to && to != "" && t.Attr(IdParam) == Some(to) then Toggled(old(t.classes), Active, true)
                    else if from != to && from != "" && t.Attr(IdParam) == Some(from) then Toggled(old(t.classes), Active, false)
                    else old(t.classes)
  }

  /** What a change of the current id from `from` to `to` leaves on one pane. */
  twostate predicate PaneSwitched(p: Element, from: string, to: string)
    reads p
  {
    && OnlyClasses(p)
    && p.classes == if from != to && to != "" && p.id == to then Toggled(Toggled(old(p.classes), Active, true), Show, true)
                    else if from != to && from != "" && p.id == from then Toggled(Toggled(old(p.classes), Active, false), Show, false)
                    else old(p.classes)
  }

  class Tab {
    const toggles: seq<Element>
    const panes: seq<Element>
    var currentValue: string

    /** The toggles and the panes are two lists without repeats and share no element. */
    ghost predicate Wellformed() {
      && (forall i, j :: 0 <= i < j < |toggles| ==> toggles[i] != toggles[j])
      && (forall i, j :: 0 <= i < j < |panes| ==> panes[i] != panes[j])
      && (forall i, j :: 0 <= i < |toggles| && 0 <= j < |panes| ==> toggles[i] != panes[j])
    }

    /** Exactly the toggles naming the current id are `active`, and exactly the panes
        carrying it are `active` and `show`; no id shows nothing. */
    ghost predicate Consistent()
      reads this, set t | t in toggles, set p | p in panes
    {
      && (forall i :: 0 <= i < |toggles| ==>
            (Active in toggles[i].classes) == (currentValue != "" && toggles[i].Attr(IdParam) == Some(currentValue)))
      && (forall i :: 0 <= i < |panes| ==>
            && (Active in panes[i].classes) == (currentValue != "" && panes[i].id == currentValue)
            && (Css.Show in panes[i].classes) == (currentValue != "" && panes[i].id == currentValue))
    }

    twostate predicate Switched(from: string, to: string)
      reads this, set t | t in toggles, set p | p in panes
    {
      && (forall i :: 0 <= i < |toggles| ==> ToggleSwitched(toggles[i], from, to))
      && (forall i :: 0 <= i < |panes| ==> PaneSwitched(panes[i], from, to))
    }

    constructor (toggles: seq<Element>, panes: seq<Element>, current: string)
      ensures this.toggles == toggles && this.panes == panes && currentValue == current
    {
      this.toggles := toggles;
      this.panes := panes;
      currentValue := current;
    }

    /** A write of `currentValue`, followed by `currentValueChanged` when it changed. */
    method WriteCurrent(v: string)
      requires Wellformed()
      modifies this`currentValue, toggles, panes
      ensures currentValue == v
      ensures Switched(old(currentValue), v)
      ensures old(Consistent()) ==> Consistent()
    {
      var was := currentValue;
      currentValue := v;
      if v != was {
        CurrentValueChanged(Some(v), Some(was));
      }
    }

    /** `show`: the event's `id` param, or `""` without one, becomes current. */
    method Show(id: Option<string>)
      requires Wellformed()
      modifies this`currentValue, toggles, panes
      ensures currentValue == if id.Some? then id.value else ""
      ensures Switched(old(currentValue), currentValue)
      ensures old(Consistent()) ==> Consistent()
    {
      WriteCurrent(if id.Some? then id.value else "");
    }

    /** `hide`: clears the current id only when it is the event's `id` param. */
    method Hide(id: Option<string>)
      requires Wellformed()
      modifies this`currentValue, toggles, panes
      ensures currentValue == if id == Some(old(currentValue)) then "" else old(currentValue)
      ensures Switched(old(currentValue), currentValue)
      ensures old(Consistent()) ==> Consistent()
    {
      if id == Some(currentValue) {
        WriteCurrent("");
      } else {
        SwitchedToSelf();
      }
    }

    /** `toggle`: `hide` when the param is the current id, else `show`. */
    method Toggle(id: Option<string>)
      requires Wellformed()
      modifies this`currentValue, toggles, panes
      ensures currentValue == if id == Some(old(currentValue)) then "" else if id.Some? then id.value else ""
      ensures Switched(old(currentValue), currentValue)
      ensures old(Consistent()) ==> Consistent()
    {
      if id == Some(currentValue) {
        Hide(id);
      } else {
        Show(id);
      }
    }

    /** Keeping the current id changes nothing on the page. */
    twostate lemma SwitchedToSelf()
      requires unchanged(this) && forall e :: e in toggles || e in panes ==> unchanged(e)
      ensures Switched(currentValue, currentValue)
    {
    }

    /** `currentValueChanged(new, old)`: `doHide(old)` then `doShow(new)`; an absent
        or empty id is skipped. */
    method CurrentValueChanged(newValue: Option<string>, oldValue: Option<string>)
      requires Wellformed()
      requires newValue.Some? && oldValue.Some? ==> newValue != oldValue
      modifies toggles, panes
      ensures Switched(if oldValue.Some? then oldValue.value else "", if newValue.Some? then newValue.value else "")
    {
      var from := if oldValue.Some? then oldValue.value else "";
      var to := if newValue.Some? then newValue.value else "";
      if from != "" {
        DoToggle(from, false);
      }
      label hidden:
      if to != "" {
        DoToggle(to, true);
        assert forall i :: 0 <= i < |toggles| ==> ToggleMarked@hidden(toggles[i], to, true);
        assert forall i :: 0 <= i < |panes| ==> PaneMarked@hidden(panes[i], to, true);
      }
    }

    /** `doToggle(id, state)`: every toggle whose id param is `id` and every pane
        with that id is marked; all others are left alone. */
    method DoToggle(id: string, state: bool)
      requires Wellformed()
      modifies toggles, panes
      ensures forall i :: 0 <= i < |toggles| ==> ToggleMarked(toggles[i], id, state)
      ensures forall i :: 0 <= i < |panes| ==> PaneMarked(panes[i], id, state)
    {
      var i := 0;
      while i < |toggles|
        invariant 0 <= i <= |toggles|
        invariant forall k :: 0 <= k < i ==> ToggleMarked(toggles[k], id, state)
        invariant forall k :: i <= k < |toggles| ==> unchanged(toggles[k])
        invariant forall k :: 0 <= k < |panes| ==> unchanged(panes[k])
      {
        var toggle := toggles[i];
        if toggle.Attr(IdParam) == Some(id) {
          toggle.classes := Toggled(toggle.classes, Active, state);
        }
        i := i + 1;
      }
      var j := 0;
      while j < |panes|
        invariant 0 <= j <= |panes|
        invariant forall k :: 0 <= k < |toggles| ==> ToggleMarked(toggles[k], id, state)
        invariant forall k :: 0 <= k < j ==> PaneMarked(panes[k], id, state)
        invariant forall k :: j <= k < |panes| ==> unchanged(panes[k])
      {
        var pane := panes[j];
        if pane.id == id {
          pane.classes := Toggled(Toggled(pane.classes, Active, state), Css.Show, state);
        }
        j := j + 1;
      }
    }
  }
}
