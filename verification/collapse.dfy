/** The collapse controller (collapse_controller.ts): a list of ids selects target
    panels, which start a transition to open or closed and finish it when their
    `transitionend` arrives. */
module Collapses {
  import opened Js
  import opened Css
  import opened Dom
  import opened Helpers

  const AriaExpanded := "aria-expanded"

  /** `s.split(/,|\s+/)`: a comma, or a run of whitespace, ends a piece. */
  function SplitIds(s: string): (r: seq<string>)
    ensures |r| > 0
    ensures forall p :: p in r ==> ',' !in p && forall c :: c in p ==> !IsSpace(c)
  {
    Pieces(s, "")
  }

  /** The pieces of `s`, the first of them starting with `acc`. */
  function Pieces(s: string, acc: string): (r: seq<string>)
    requires ',' !in acc && forall c :: c in acc ==> !IsSpace(c)
    ensures |r| > 0
    ensures forall p :: p in r ==> ',' !in p && forall c :: c in p ==> !IsSpace(c)
    decreases |s|
  {
    if s == [] then [acc]
    else if s[0] == ',' then [acc] + Pieces(s[1..], "")
    else if IsSpace(s[0]) then [acc] + Pieces(TrimStart(s[1..]), "")
    else Pieces(s[1..], acc + [s[0]])
  }

  /** A word with no comma and no whitespace. */
  predicate IsWord(w: string) {
    ',' !in w && forall c :: c in w ==> !IsSpace(c)
  }

  /** `ids.join(sep)` */
  function Join(ids: seq<string>, sep: string): string {
    if |ids| <= 1 then (if ids == [] then "" else ids[0])
    else ids[0] + sep + Join(ids[1..], sep)
  }

  lemma {:induction false} PiecesOfWord(w: string, rest: string, acc: string)
    requires IsWord(w) && IsWord(acc)
    ensures Pieces(w + rest, acc) == Pieces(rest, acc + w)
    decreases |w|
  {
    if w != [] {
      assert (w + rest)[0] == w[0];
      assert (w + rest)[1..] == w[1..] + rest;
      assert w[0] in w;
      assert IsWord(w[1..]) by {
        forall c | c in w[1..] ensures c in w { }
      }
      assert IsWord(acc + [w[0]]) by {
        forall c | c in acc + [w[0]] ensures c in acc || c == w[0] { }
      }
      PiecesOfWord(w[1..], rest, acc + [w[0]]);
      assert acc + [w[0]] + w[1..] == acc + w;
    } else {
      assert w + rest == rest;
      assert acc + w == acc;
    }
  }

  /** Ids joined by commas split back into the same ids. */
  lemma {:induction false} SplitJoinRoundTrip(ids: seq<string>)
    requires |ids| > 0
    requires forall i :: 0 <= i < |ids| ==> IsWord(ids[i])
    ensures SplitIds(Join(ids, ",")) == ids
  {
    JoinedPieces(ids);
  }

  lemma {:induction false} JoinedPieces(ids: seq<string>)
    requires |ids| > 0
    requires forall i :: 0 <= i < |ids| ==> IsWord(ids[i])
    ensures Pieces(Join(ids, ","), "") == ids
    decreases |ids|
  {
    if |ids| == 1 {
      PiecesOfWord(ids[0], "", "");
      assert ids[0] + "" == ids[0];
      assert "" + ids[0] == ids[0];
    } else {
      var tail := Join(ids[1..], ",");
      assert Join(ids, ",") == ids[0] + ("," + tail);
      PiecesOfWord(ids[0], "," + tail, "");
      assert "" + ids[0] == ids[0];
      assert ("," + tail)[1..] == tail;
      JoinedPieces(ids[1..]);
      assert ids == [ids[0]] + ids[1..];
    }
  }

  lemma PiecesAtComma(rest: string, acc: string)
    requires IsWord(acc)
    ensures Pieces([','] + rest, acc) == [acc] + Pieces(rest, "")
  {
    assert ([','] + rest)[1..] == rest;
  }

  lemma PiecesAtSpace(c: char, rest: string, acc: string)
    requires IsWord(acc) && IsSpace(c)
    ensures Pieces([c] + rest, acc) == [acc] + Pieces(TrimStart(rest), "")
  {
    assert ([c] + rest)[1..] == rest;
  }

  lemma {:induction false} TrimStartSkips(spaces: string, w: string)
    requires forall c :: c in spaces ==> IsSpace(c)
    requires w == [] || !IsSpace(w[0])
    ensures TrimStart(spaces + w) == w
    decreases |spaces|
  {
    if spaces != [] {
      assert spaces[0] in spaces;
      assert (spaces + w)[1..] == spaces[1..] + w;
      TrimStartSkips(spaces[1..], w);
    } else {
      assert spaces + w == w;
    }
  }

  /** Two ids separated by a run of whitespace split back into the two ids. */
  lemma SplitSpacedRoundTrip(a: string, spaces: string, b: string)
    requires IsWord(a) && IsWord(b) && b != []
    requires spaces != [] && forall c :: c in spaces ==> IsSpace(c)
    ensures SplitIds(a + spaces + b) == [a, b]
  {
    var rest := spaces[1..] + b;
    calc {
      SplitIds(a + spaces + b);
      { assert a + spaces + b == a + ([spaces[0]] + rest); }
      Pieces(a + ([spaces[0]] + rest), "");
      { PiecesOfWord(a, [spaces[0]] + rest, ""); assert "" + a == a; }
      Pieces([spaces[0]] + rest, a);
      { assert spaces[0] in spaces; PiecesAtSpace(spaces[0], rest, a); }
      [a] + Pieces(TrimStart(rest), "");
      { assert !IsSpace(b[0]) by { assert b[0] in b; }
        assert forall c :: c in spaces[1..] ==> c in spaces;
        TrimStartSkips(spaces[1..], b); }
      [a] + Pieces(b, "");
      { PiecesOfWord(b, "", ""); assert b + "" == b; assert "" + b == b; }
      [a] + Pieces("", b);
      [a, b];
    }
  }

  /** A comma followed by a space leaves an empty id between them, so a target with
      no `id` is selected too. */
  lemma CommaSpaceYieldsEmpty(a: string, b: string)
    requires IsWord(a) && IsWord(b) && b != []
    ensures SplitIds(a + ", " + b) == [a, "", b]
  {
    var rest := [' '] + b;
    calc {
      SplitIds(a + ", " + b);
      { assert a + ", " + b == a + ([','] + rest); }
      Pieces(a + ([','] + rest), "");
      { PiecesOfWord(a, [','] + rest, ""); assert "" + a == a; }
      Pieces([','] + rest, a);
      { PiecesAtComma(rest, a); }
      [a] + Pieces(rest, "");
      { PiecesAtSpace(' ', b, ""); }
      [a] + ([""] + Pieces(TrimStart(b), ""));
      { assert !IsSpace(b[0]) by { assert b[0] in b; } }
      [a] + ([""] + Pieces(b, ""));
      { PiecesOfWord(b, "", ""); assert b + "" == b; assert "" + b == b; }
      [a] + ([""] + Pieces("", b));
      [a, "", b];
    }
  }

  /** What `_resolveTargets` is given: a string of ids or an event on an element. */
  datatype Trigger = Ids(value: string) | Event(target: Element)

  /** `_resolveTargets(value, others)`: the split ids together with the extra ids. */
  function ResolveTargets(value: Trigger, others: seq<string>): (r: set<string>)
    reads if value.Event? then {value.target} else {}
    ensures forall o :: o in others ==> o in r
    ensures value.Ids? ==> forall x :: x in r <==> x in SplitIds(value.value) || x in others
    ensures value.Event? ==>
              forall x :: x in r <==> x in SplitIds(Resolve(value.target, "aria-controls")) || x in others
  {
    var s := if value.Ids? then value.value else Resolve(value.target, "aria-controls");
    (set p | p in SplitIds(s)) + (set o | o in others)
  }

  /** Every id of a comma list, and every extra id, is targeted, and nothing else. */
  lemma ResolveTargetsOfList(ids: seq<string>, others: seq<string>)
    requires |ids| > 0
    requires forall i :: 0 <= i < |ids| ==> IsWord(ids[i])
    ensures forall x :: x in ResolveTargets(Ids(Join(ids, ",")), others) <==> x in ids || x in others
  {
    SplitJoinRoundTrip(ids);
  }

  /** The class list `_setState` leaves at once: `collapsing`, without `collapse` and
      `show`. */
  function Opening(classes: set<string>): (r: set<string>)
    ensures Collapsing in r && Collapse !in r && Css.Show !in r
    ensures forall c :: c != Collapsing && c != Collapse && c != Css.Show ==> (c in r <==> c in classes)
  {
    classes + {Collapsing} - {Collapse, Css.Show}
  }

  /** The direction a panel moves in: the one asked for, or else the opposite of its
      current `show`. */
  function Direction(isOpen: Option<bool>, classes: set<string>): (r: bool)
    ensures isOpen.Some? ==> r == isOpen.value
    ensures isOpen.None? ==> r == (Css.Show !in classes)
  {
    if isOpen.Some? then isOpen.value else Css.Show !in classes
  }

  /** Once the finaliser has run, the panel has `collapse`, not `collapsing`, and
      `show` exactly when it was opening; so an undirected `toggle` flips `show`. */
  lemma {:induction false} TransitionCompletes(classes: set<string>, isOpen: Option<bool>, pending: seq<Listener>)
    requires forall i :: 0 <= i < |pending| ==> pending[i] == RemoveSelf
    ensures var open := Direction(isOpen, classes);
            var after := FireAll(pending + [EndCollapse(open)], Look(Opening(classes), false)).classes;
            && Collapse in after && Collapsing !in after
            && (Css.Show in after <==> open)
            && (isOpen.None? ==> (Css.Show in after <==> Css.Show !in classes))
  {
    var open := Direction(isOpen, classes);
    var all := pending + [EndCollapse(open)];
    assert all[..|all| - 1] == pending;
    PendingRemovalsKeepClasses(pending, Look(Opening(classes), false));
  }

  lemma {:induction false} PendingRemovalsKeepClasses(pending: seq<Listener>, look: Look)
    requires forall i :: 0 <= i < |pending| ==> pending[i] == RemoveSelf
    ensures FireAll(pending, look).classes == look.classes
  {
    if pending != [] {
      PendingRemovalsKeepClasses(pending[..|pending| - 1], look);
    }
  }

  /** What `_setState(element, isOpen)` leaves on one panel. */
  twostate predicate Started(e: Element, isOpen: Option<bool>)
    reads e
  {
    var open := Direction(isOpen, old(e.classes));
    && e.classes == Opening(old(e.classes))
    && e.toggled == old(e.toggled)[AriaExpanded := open]
    && e.listeners == old(e.listeners) + [EndCollapse(open)]
    && e.layouts == old(e.layouts) + [old(e.classes)]
    && e.attrs == old(e.attrs) && e.display == old(e.display) && e.removed == old(e.removed)
  }

  class CollapseController {
    const identifier: string
    const dimensionValue: string
    const targets: seq<Element>

    ghost predicate Wellformed() {
      forall i, j :: 0 <= i < j < |targets| ==> targets[i] != targets[j]
    }

    constructor (identifier: string, targets: seq<Element>, dimension: Option<string>)
      ensures this.identifier == identifier && this.targets == targets
      ensures dimensionValue == if dimension.Some? then dimension.value else "height"
    {
      this.identifier := identifier;
      this.targets := targets;
      dimensionValue := if dimension.Some? then dimension.value else "height";
    }

    function DimensionParam(): string {
      "data-" + identifier + "-dimension-param"
    }

    /** `targetsTargetConnected`: a panel without a dimension param gets the
        controller's; one that has it keeps its own. */
    method TargetsTargetConnected(e: Element)
      modifies e`attrs
      ensures e.attrs == if DimensionParam() in old(e.attrs) then old(e.attrs)
                         else old(e.attrs)[DimensionParam() := dimensionValue]
      ensures e.Attr(DimensionParam()) == if DimensionParam() in old(e.attrs) then old(e.Attr(DimensionParam()))
                                          else Some(dimensionValue)
    {
      if DimensionParam() !in e.attrs {
        e.attrs := e.attrs[DimensionParam() := dimensionValue];
      }
    }

    /** `show`: opens every targeted panel. */
    method Show(value: Trigger, others: seq<string>)
      requires Wellformed()
      modifies targets
      ensures forall i :: 0 <= i < |targets| ==> Affected(targets[i], old(ResolveTargets(value, others)), Some(true))
    {
      var ids := ResolveTargets(value, others);
      ToggleAll(ids, Some(true));
    }

    /** `hide`: closes every targeted panel. */
    method Hide(value: Trigger, others: seq<string>)
      requires Wellformed()
      modifies targets
      ensures forall i :: 0 <= i < |targets| ==> Affected(targets[i], old(ResolveTargets(value, others)), Some(false))
    {
      var ids := ResolveTargets(value, others);
      ToggleAll(ids, Some(false));
    }

    /** `toggle`: flips every targeted panel. */
    method Toggle(value: Trigger, others: seq<string>)
      requires Wellformed()
      modifies targets
      ensures forall i :: 0 <= i < |targets| ==> Affected(targets[i], old(ResolveTargets(value, others)), None)
    {
      var ids := ResolveTargets(value, others);
      ToggleAll(ids, None);
    }

    /** What `_toggle(ids, isOpen)` leaves on one panel: a panel whose id is listed
        and that is not mid-transition starts one; any other is untouched. */
    twostate predicate Affected(e: Element, ids: set<string>, isOpen: Option<bool>)
      reads e
    {
      if e.id in ids && Collapsing !in old(e.classes) then Started(e, isOpen) else unchanged(e)
    }

    /** `_toggle(ids, isOpen)` */
    method ToggleAll(ids: set<string>, isOpen: Option<bool>)
      requires Wellformed()
      modifies targets
      ensures forall i :: 0 <= i < |targets| ==> Affected(targets[i], ids, isOpen)
    {
      var i := 0;
      while i < |targets|
        invariant 0 <= i <= |targets|
        invariant forall k :: 0 <= k < i ==> Affected(targets[k], ids, isOpen)
        invariant forall k :: i <= k < |targets| ==> unchanged(targets[k])
      {
        var element := targets[i];
        if element.id in ids && Collapsing !in element.classes {
          SetState(element, isOpen);
        }
        i := i + 1;
      }
    }

    /** `_setState(element, isOpen)`: the class and `aria-expanded` part, the reflow
        point, and the one-shot finaliser. */
    method SetState(element: Element, isOpen: Option<bool>)
      modifies element
      ensures Started(element, isOpen)
    {
      var open := Direction(isOpen, element.classes);
      element.layouts := element.layouts + [element.classes];
      element.classes := Opening(element.classes);
      element.toggled := element.toggled[AriaExpanded := open];
      element.listeners := element.listeners + [EndCollapse(open)];
    }
  }
}
