/** Registration (register.ts): every controller exported by the controllers index is
    registered with the Stimulus application under an identifier derived from its
    exported name. */
module Registration {
  import opened Js

  const Suffix := "Controller"
  const DefaultPrefix := "bs"

  /** The exported names of the controllers index (controllers.ts), in the order a
      module namespace lists them (by name). */
  const ControllerExports: seq<string> := [
    "AlertController", "ButtonController", "CarouselController", "CollapseController",
    "DropdownController", "ModalController", "OffcanvasController", "PopoverController",
    "ScrollspyController", "TabController", "ToastController", "TooltipController"
  ]

  predicate EndsWithSuffix(key: string) {
    |key| >= |Suffix| && key[|key| - |Suffix|..] == Suffix
  }

  /** `key.replace(/Controller$/, "")`: only a trailing `Controller` goes. */
  function StripSuffix(key: string): (r: string)
    ensures EndsWithSuffix(key) ==> r + Suffix == key
    ensures !EndsWithSuffix(key) ==> r == key
  {
    if EndsWithSuffix(key) then key[..|key| - |Suffix|] else key
  }

  /** The identifier a key is registered under. */
  function Identifier(prefix: string, key: string): (r: string)
    ensures |r| == |prefix| + 1 + |StripSuffix(key)|
    ensures r[..|prefix| + 1] == prefix + "-"
  {
    prefix + "-" + Lower(StripSuffix(key))
  }

  /** A name ending in `Controller` loses exactly that ending, once; a name with
      `Controller` anywhere else keeps it. */
  lemma StripSuffixOf(w: string, rest: string)
    ensures StripSuffix(w + Suffix) == w
    ensures StripSuffix(w + Suffix + Suffix) == w + Suffix
    ensures StripSuffix(Suffix + rest + "X") == Suffix + rest + "X"
  {
    assert (w + Suffix)[|w + Suffix| - |Suffix|..] == Suffix;
    assert (w + Suffix + Suffix)[|w + Suffix + Suffix| - |Suffix|..] == Suffix;
    var s := Suffix + rest + "X";
    assert s[|s| - 1] == 'X';
  }

  /** The identifier is the prefix, a dash, and the lower-cased name without its
      `Controller` ending. */
  lemma IdentifierOf(prefix: string, w: string)
    ensures Identifier(prefix, w + Suffix) == prefix + "-" + Lower(w)
  {
    StripSuffixOf(w, "");
  }

  /** One exported controller: its name and the module it comes from. */
  datatype Export = Export(key: string, source: string)

  /** What `application.register` was called with, in order. */
  datatype Registration = Registration(identifier: string, source: string)

  /** The registrations `eagerLoadBootstrapControllers` makes, in export order. */
  function Registrations(exports: seq<Export>, prefix: string): (r: seq<Registration>)
    ensures |r| == |exports|
    ensures forall i :: 0 <= i < |exports| ==>
              r[i] == Registration(Identifier(prefix, exports[i].key), exports[i].source)
  {
    if exports == [] then []
    else Registrations(exports[..|exports| - 1], prefix)
         + [Registration(Identifier(prefix, exports[|exports| - 1].key), exports[|exports| - 1].source)]
  }

  /** The identifiers the index's controllers get under the default prefix. */
  const DefaultIdentifiers: seq<string> := [
    "bs-alert", "bs-button", "bs-carousel", "bs-collapse", "bs-dropdown", "bs-modal",
    "bs-offcanvas", "bs-popover", "bs-scrollspy", "bs-tab", "bs-toast", "bs-tooltip"
  ]

  /** One entry of the two tables agrees. */
  lemma ExportNamed(i: nat, name: string, lower: string)
    requires i < |ControllerExports| && i < |DefaultIdentifiers|
    requires ControllerExports[i] == name + Suffix
    requires Lower(name) == lower
    requires DefaultIdentifiers[i] == DefaultPrefix + "-" + lower
    ensures Identifier(DefaultPrefix, ControllerExports[i]) == DefaultIdentifiers[i]
  {
    IdentifierOf(DefaultPrefix, name);
  }

  /** The table entries checked in groups of three, each group in a proof of its own. */
  lemma ExportsFrom0(i: nat)
    requires 0 <= i < 3
    ensures Identifier(DefaultPrefix, ControllerExports[i]) == DefaultIdentifiers[i]
  {
    if i == 0 { ExportNamed(0, "Alert", "alert"); }
    else if i == 1 { ExportNamed(1, "Button", "button"); }
    else { ExportNamed(2, "Carousel", "carousel"); }
  }

  lemma ExportsFrom3(i: nat)
    requires 3 <= i < 6
    ensures Identifier(DefaultPrefix, ControllerExports[i]) == DefaultIdentifiers[i]
  {
    if i == 3 { ExportNamed(3, "Collapse", "collapse"); }
    else if i == 4 { ExportNamed(4, "Dropdown", "dropdown"); }
    else { ExportNamed(5, "Modal", "modal"); }
  }

  lemma ExportsFrom6(i: nat)
    requires 6 <= i < 9
    ensures Identifier(DefaultPrefix, ControllerExports[i]) == DefaultIdentifiers[i]
  {
    if i == 6 { ExportNamed(6, "Offcanvas", "offcanvas"); }
    else if i == 7 { ExportNamed(7, "Popover", "popover"); }
    else { ExportNamed(8, "Scrollspy", "scrollspy"); }
  }

  lemma ExportsFrom9(i: nat)
    requires 9 <= i < 12
    ensures Identifier(DefaultPrefix, ControllerExports[i]) == DefaultIdentifiers[i]
  {
    if i == 9 { ExportNamed(9, "Tab", "tab"); }
    else if i == 10 { ExportNamed(10, "Toast", "toast"); }
    else { ExportNamed(11, "Tooltip", "tooltip"); }
  }

  /** Under the default prefix the index's controllers are registered as `bs-alert`
      to `bs-tooltip`, in that order. */
  lemma DefaultRegistrations()
    ensures |DefaultIdentifiers| == |ControllerExports|
    ensures forall i :: 0 <= i < |ControllerExports| ==>
              Identifier(DefaultPrefix, ControllerExports[i]) == DefaultIdentifiers[i]
  {
    forall i | 0 <= i < |ControllerExports|
      ensures Identifier(DefaultPrefix, ControllerExports[i]) == DefaultIdentifiers[i]
    {
      if i < 3 {
        ExportsFrom0(i);
      } else if i < 6 {
        ExportsFrom3(i);
      } else if i < 9 {
        ExportsFrom6(i);
      } else {
        ExportsFrom9(i);
      }
    }
  }

  /** Length and the two letters after the dash tell an identifier apart. */
  function Key(s: string): (int, char, char)
    requires |s| >= 5
  {
    (|s|, s[3], s[4])
  }

  /** The twelve default identifiers are pairwise distinct, so no registration
      replaces another. */
  lemma DefaultIdentifiersDistinct()
    ensures forall i, j :: 0 <= i < j < |ControllerExports| ==>
              Identifier(DefaultPrefix, ControllerExports[i]) != Identifier(DefaultPrefix, ControllerExports[j])
  {
    DefaultRegistrations();
    IdentifiersDistinct();
  }

  /** The twelve identifier literals differ pairwise. */
  lemma IdentifiersDistinct()
    ensures forall i, j :: 0 <= i < j < |DefaultIdentifiers| ==> DefaultIdentifiers[i] != DefaultIdentifiers[j]
  {
    var keys := [(8, 'a', 'l'), (9, 'b', 'u'), (11, 'c', 'a'), (11, 'c', 'o'), (11, 'd', 'r'), (8, 'm', 'o'),
                 (12, 'o', 'f'), (10, 'p', 'o'), (12, 's', 'c'), (6, 't', 'a'), (8, 't', 'o'), (10, 't', 'o')];
    assert forall i :: 0 <= i < |DefaultIdentifiers| ==> |DefaultIdentifiers[i]| >= 5 && Key(DefaultIdentifiers[i]) == keys[i];
    assert forall i, j :: 0 <= i < j < |keys| ==> keys[i] != keys[j];
  }

  /** The Stimulus application, as far as registration goes. */
  class Application {
    var registered: seq<Registration>

    constructor ()
      ensures registered == []
    {
      registered := [];
    }

    /** `application.register(identifier, controller)` */
    method Register(identifier: string, source: string)
      modifies this
      ensures registered == old(registered) + [Registration(identifier, source)]
    {
      registered := registered + [Registration(identifier, source)];
    }
  }

  /** One more export adds its own registration at the end. */
  lemma RegistrationsExtend(exports: seq<Export>, i: nat, prefix: string)
    requires i < |exports|
    ensures Registrations(exports[..i + 1], prefix)
            == Registrations(exports[..i], prefix) + [Registration(Identifier(prefix, exports[i].key), exports[i].source)]
  {
    assert exports[..i + 1][..i] == exports[..i];
  }

  /** `eagerLoadBootstrapControllers(application, prefix = "bs")`: one registration
      per export, in order. */
  method EagerLoad(application: Application, exports: seq<Export>, prefix: Option<string>)
    modifies application
    ensures application.registered
            == old(application.registered) + Registrations(exports, if prefix.Some? then prefix.value else DefaultPrefix)
  {
    var p := if prefix.Some? then prefix.value else DefaultPrefix;
    var i := 0;
    while i < |exports|
      invariant 0 <= i <= |exports|
      invariant application.registered == old(application.registered) + Registrations(exports[..i], p)
    {
      var id := Identifier(p, exports[i].key);
      RegistrationsExtend(exports, i, p);
      application.Register(id, exports[i].source);
      i := i + 1;
    }
    assert exports[..i] == exports;
  }
}
