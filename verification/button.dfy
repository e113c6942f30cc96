/** The button controller (button_controller.ts): a boolean `active` value mirrored
    onto the element's `active` class, but only on a real change. */
module Buttons {
  import opened Js
  import opened Css
  import opened Dom

  class ButtonController {
    const element: Element
    var activeValue: bool

    /** The class shows the value. */
    predicate Mirrored()
      reads this, element
    {
      (Active in element.classes) == activeValue
    }

    constructor (element: Element, active: bool)
      ensures this.element == element && activeValue == active
    {
      this.element := element;
      activeValue := active;
    }

    /** `activeValueChanged(new, old)`: the class follows a value that changed from a
        defined one; the first settle (`old` undefined) leaves it alone. */
    method ActiveValueChanged(newValue: bool, oldValue: Option<bool>)
      modifies element`classes
      ensures element.classes == if oldValue.Some? && oldValue.value != newValue
                                 then Toggled(old(element.classes), Active, newValue)
                                 else old(element.classes)
    {
      if oldValue.Some? && newValue != oldValue.value {
        element.classes := Toggled(element.classes, Active, newValue);
      }
    }

    /** A write of `activeValue`, followed by its change callback when it changed:
        after a change the class shows the value; otherwise nothing moves. */
    method WriteActive(v: bool)
      modifies this`activeValue, element`classes
      ensures activeValue == v
      ensures v != old(activeValue) ==> element.classes == Toggled(old(element.classes), Active, v)
      ensures v != old(activeValue) ==> Mirrored()
      ensures element.classes - {Active} == old(element.classes) - {Active}
      ensures v == old(activeValue) ==> element.classes == old(element.classes)
      ensures old(Mirrored()) ==> Mirrored()
    {
      var was := activeValue;
      activeValue := v;
      if v != was {
        ActiveValueChanged(v, Some(was));
      }
    }

    /** `connect`: a false value is replaced by whether the element has class
        `active`; a true value is never overwritten. Either way a false value ends
        up mirrored. */
    method Connect()
      modifies this`activeValue, element`classes
      ensures activeValue == (old(activeValue) || Active in old(element.classes))
      ensures element.classes == old(element.classes)
      ensures !old(activeValue) ==> Mirrored()
    {
      if !activeValue {
        var has := Active in element.classes;
        WriteActive(has);
        assert has ==> old(element.classes) + {Active} == old(element.classes);
      }
    }

    /** `toggle(value?)`: the given boolean, or the opposite of the current value;
        the class follows whenever the value changes. */
    method Toggle(value: Option<bool>)
      modifies this`activeValue, element`classes
      ensures activeValue == if value.Some? then value.value else !old(activeValue)
      ensures activeValue != old(activeValue) ==> element.classes == Toggled(old(element.classes), Active, activeValue)
      ensures activeValue == old(activeValue) ==> element.classes == old(element.classes)
      ensures activeValue != old(activeValue) ==> Mirrored()
      ensures old(Mirrored()) ==> Mirrored()
    {
      WriteActive(if value.Some? then value.value else !activeValue);
    }

    /** Two argument-less toggles restore the value, and the class with it. */
    method ToggleTwice()
      modifies this`activeValue, element`classes
      ensures activeValue == old(activeValue)
      ensures Mirrored()
      ensures element.classes - {Active} == old(element.classes) - {Active}
    {
      Toggle(None);
      Toggle(None);
    }
  }
}
