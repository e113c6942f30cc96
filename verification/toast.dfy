/** The toast controller (toast_controller.ts): each toast is shown when it connects,
    may schedule its own hiding, and is hidden (and then removed) on dismissal. */
module Toasts {
  import opened Js
  import opened Css
  import opened Dom

  /** `delay` in milliseconds (`None` when `parseInt` gives `NaN`) and `autoHide`. */
  datatype Options = Options(delay: Option<int>, autoHide: bool)

  /** A pending `setTimeout(() => this._hide(element), delay)`. */
  datatype Timeout = Timeout(element: Element, delay: Option<int>)

  /** What `dismiss` is given: the toast itself, or an event whose target and its
      ancestors, innermost first, are `path`. */
  datatype Dismissal = Direct(toast: Element) | FromEvent(path: seq<Element>)

  /** `_resolveOptions`, given the toast's delay and autohide params: a present delay
      param is read with `parseInt` (an empty one as `"0"`); a present autohide param
      is false exactly when it is `"0"` or reads `"false"` in any case. */
  function ResolveOptions(delayParam: Option<string>, autoHideParam: Option<string>,
                          delayValue: int, autoHideValue: bool): (r: Options)
    ensures delayParam.None? ==> r.delay == Some(delayValue)
    ensures delayParam.Some? ==> r.delay == ParseInt(if delayParam.value == "" then "0" else delayParam.value)
    ensures autoHideParam.None? ==> r.autoHide == autoHideValue
  {
    var delay := if delayParam.Some? then ParseInt(if delayParam.value == "" then "0" else delayParam.value)
                 else Some(delayValue);
    var autoHide := if autoHideParam.Some? then !(autoHideParam.value == "0" || Lower(autoHideParam.value) == "false")
                    else autoHideValue;
    Options(delay, autoHide)
  }

  /** Without per-toast params the controller's values apply. */
  lemma DefaultOptions(delayValue: int, autoHideValue: bool)
    ensures ResolveOptions(None, None, delayValue, autoHideValue) == Options(Some(delayValue), autoHideValue)
  {
  }

  /** A delay param written in decimal is that many milliseconds, whatever follows
      the digits (`"500ms"` is 500); an empty one is 0. */
  lemma DelayParam(n: nat, rest: string, a: Option<string>, delayValue: int, autoHideValue: bool)
    requires rest == [] || !IsDigit(rest[0])
    requires n > 0 || rest == [] || (rest[0] != 'x' && rest[0] != 'X')
    ensures ResolveOptions(Some(Digits(n) + rest), a, delayValue, autoHideValue).delay == Some(n)
    ensures ResolveOptions(Some(""), a, delayValue, autoHideValue).delay == Some(0)
  {
    DigitsRoundTrip(n);
    ParseIntOfDigits(n, rest);
    assert Digits(0) == "0";
    ParseIntOfDigits(0, "");
    assert Digits(0) + "" == "0";
  }

  /** `"false"` in any mix of cases. */
  predicate SpellsFalse(v: string) {
    |v| == 5 && forall i :: 0 <= i < 5 ==> LowerChar(v[i]) == "false"[i]
  }

  /** The autohide param turns hiding off exactly for `"0"` and any casing of
      `"false"`; every other value, the empty one included, leaves it on. */
  lemma AutoHideParam(v: string, d: Option<string>, delayValue: int, autoHideValue: bool)
    ensures !ResolveOptions(d, Some(v), delayValue, autoHideValue).autoHide <==> v == "0" || SpellsFalse(v)
  {
    if SpellsFalse(v) {
      assert Lower(v) == "false";
    }
  }

  /** `closest(selector)` over an event path: the innermost element that matches. */
  function Closest(path: seq<Element>, name: string, value: string): (r: Option<nat>)
    reads set e | e in path
    ensures r.Some? ==> r.value < |path| && path[r.value].Attr(name) == Some(value)
    ensures r.Some? ==> forall k :: 0 <= k < r.value ==> path[k].Attr(name) != Some(value)
    ensures r.None? ==> forall k :: 0 <= k < |path| ==> path[k].Attr(name) != Some(value)
  {
    if path == [] then None
    else if path[0].Attr(name) == Some(value) then Some(0)
    else
      var r := Closest(path[1..], name, value);
      if r.Some? then Some(r.value + 1) else None
  }

  /** What `_hide(element)` leaves: `show` gone; a fading toast gets `hide`, is
      displayed as a block and will be removed when its transition ends; any other
      toast is removed at once. */
  twostate predicate Hidden(e: Element)
    reads e
  {
    && e.toggled == old(e.toggled) && e.attrs == old(e.attrs) && e.layouts == old(e.layouts)
    && if Fade in old(e.classes) then
         && e.classes == old(e.classes) - {Show} + {Hide}
         && e.display == Some("block")
         && e.listeners == old(e.listeners) + [RemoveSelf]
         && e.removed == old(e.removed)
       else
         && e.classes == old(e.classes) - {Show}
         && e.display == old(e.display) && e.listeners == old(e.listeners)
         && e.removed
  }

  /** A hidden toast is out of the page once its transition has ended, whether or
      not it fades. */
  twostate lemma GoneAfterTransition(e: Element)
    requires Hidden(e)
    ensures FireAll(e.listeners, Look(e.classes, e.removed)).removed
  {
    RemovedAfterDelivery(e.listeners, Look(e.classes, e.removed));
    if Fade in old(e.classes) {
      assert e.listeners[|e.listeners| - 1] == RemoveSelf;
    }
  }

  class ToastController {
    const identifier: string
    const autoHideValue: bool
    const delayValue: int
    /** The hides scheduled with `setTimeout` and not yet run, in order. */
    var scheduled: seq<Timeout>
    /** How many times `dismiss` warned that it found no toast. */
    var warnings: nat

    constructor (identifier: string, autoHide: Option<bool>, delay: Option<int>)
      ensures this.identifier == identifier
      ensures autoHideValue == (autoHide.None? || autoHide.value)
      ensures delayValue == if delay.Some? then delay.value else 3000
      ensures scheduled == [] && warnings == 0
    {
      this.identifier := identifier;
      autoHideValue := autoHide.None? || autoHide.value;
      delayValue := if delay.Some? then delay.value else 3000;
      scheduled := [];
      warnings := 0;
    }

    function Param(name: string): string {
      "data-" + identifier + "-" + name + "-param"
    }

    /** `_resolveOptions(element)` */
    function OptionsOf(e: Element): Options
      reads this, e
    {
      ResolveOptions(e.Attr(Param("delay")), e.Attr(Param("autohide")), delayValue, autoHideValue)
    }

    /** `toastsTargetConnected`: the toast shows (once) and, when it hides by itself,
        its hide is scheduled with its delay. */
    method ToastsTargetConnected(element: Element)
      modifies this`scheduled, element`classes
      ensures element.classes == old(element.classes) + {Show}
      ensures var options := old(OptionsOf(element));
              scheduled == old(scheduled) + (if options.autoHide then [Timeout(element, options.delay)] else [])
    {
      if Show !in element.classes {
        element.classes := element.classes + {Show};
      }
      var options := OptionsOf(element);
      if options.autoHide {
        scheduled := scheduled + [Timeout(element, options.delay)];
      }
    }

    /** The `i`-th pending timeout runs: its toast is hidden. */
    method Expire(i: nat)
      requires i < |scheduled|
      modifies this`scheduled, scheduled[i].element
      ensures scheduled == old(scheduled[..i] + scheduled[i + 1..])
      ensures Hidden(old(scheduled[i].element))
    {
      var t := scheduled[i];
      scheduled := scheduled[..i] + scheduled[i + 1..];
      HideToast(t.element);
    }

    /** `dismiss(value)`: hides the given toast, or the closest toast around the
        event's target; with none, warns and changes nothing. */
    method Dismiss(value: Dismissal)
      modifies this`warnings
      modifies if value.Direct? then {value.toast} else set e | e in value.path
      ensures value.Direct? ==> Hidden(value.toast) && warnings == old(warnings)
      ensures value.FromEvent? ==>
                var found := old(Closest(value.path, "data-" + identifier + "-target", "toasts"));
                if found.Some? then
                  && Hidden(value.path[found.value]) && warnings == old(warnings)
                  && forall e :: e in value.path && e != value.path[found.value] ==> unchanged(e)
                else warnings == old(warnings) + 1 && forall e :: e in value.path ==> unchanged(e)
    {
      if value.Direct? {
        HideToast(value.toast);
      } else {
        var found := Closest(value.path, "data-" + identifier + "-target", "toasts");
        if found.None? {
          warnings := warnings + 1;
        } else {
          HideToast(value.path[found.value]);
        }
      }
    }

    /** `_hide(element)` */
    method HideToast(element: Element)
      modifies element
      ensures Hidden(element)
    {
      element.classes := element.classes - {Show};
      if Fade in element.classes {
        element.classes := element.classes + {Hide};
        element.display := Some("block");
        element.listeners := element.listeners + [RemoveSelf];
      } else {
        element.removed := true;
      }
    }
  }
}
