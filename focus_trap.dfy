/**
 * The mobile navigation menu of scripts/script.js and script.js: opening and closing it, the click,
 * resize and keydown handlers, and the focus trap that keeps Tab inside the open menu.
 *
 * The document is reduced to what these handlers read and write: the menu's `aria-hidden` attribute and
 * its `open`/`closing` classes, the toggle button's `aria-expanded` attribute and `open` class, the
 * document's focused element, and the two module-level variables of the trap. The spec functions describe
 * each handler on a `Menu` value; the class MobileMenu holds the same state and its methods are proved
 * against them.
 */
module FocusTrap {
  import opened Wrappers

  /** An element of the page, by identity (the scripts compare elements with `===`). */
  datatype Elem = Elem(id: nat)

  /** One element matched by the trap's selector (links, buttons, elements with a non-negative
      tabindex), in document order, with its `disabled` flag. */
  datatype Candidate = Candidate(el: Elem, disabled: bool)

  /** What the page provides: whether the menu and the toggle button exist, and whether the handlers
      also set the toggle's `open` class (scripts/script.js does, script.js does not). */
  datatype Page = Page(hasMenu: bool, hasToggle: bool, marksToggle: bool)

  /** The state the handlers read and write. */
  datatype Menu = Menu(
    ariaHidden: string,
    openClass: bool,
    closingClass: bool,
    ariaExpanded: string,
    toggleOpenClass: bool,
    trap: seq<Elem>,
    lastFocused: Option<Elem>,
    active: Option<Elem>)

  /** Above this viewport width the menu is closed on resize. */
  const Breakpoint := 720

  /** The handlers' test for an open menu: `aria-hidden` is exactly "false". */
  predicate IsOpen(m: Menu)
  {
    m.ariaHidden == "false"
  }

  /** The candidates that are not disabled, in their order. */
  function Enabled(cands: seq<Candidate>): (r: seq<Elem>)
    ensures |r| <= |cands|
    ensures forall e :: e in r <==> exists c :: c in cands && !c.disabled && c.el == e
  {
    if cands == [] then []
    else if cands[0].disabled then Enabled(cands[1..])
    else [cands[0].el] + Enabled(cands[1..])
  }

  /** The first element of the trap is the first candidate that is not disabled. */
  lemma {:induction false} EnabledFirst(cands: seq<Candidate>, k: nat)
    requires k < |cands| && !cands[k].disabled
    requires forall j :: 0 <= j < k ==> cands[j].disabled
    ensures |Enabled(cands)| > 0 && Enabled(cands)[0] == cands[k].el
    decreases k
  {
    if k > 0 {
      EnabledFirst(cands[1..], k - 1);
    }
  }

  /** Filtering a concatenation filters each part: the trap keeps the candidates' order. */
  lemma {:induction false} EnabledAppend(x: seq<Candidate>, y: seq<Candidate>)
    ensures Enabled(x + y) == Enabled(x) + Enabled(y)
  {
    if x != [] {
      assert (x + y)[1..] == x[1..] + y;
      EnabledAppend(x[1..], y);
    } else {
      assert x + y == y;
    }
  }

  /** The last element of the trap is the last candidate that is not disabled. */
  lemma EnabledLast(cands: seq<Candidate>, k: nat)
    requires k < |cands| && !cands[k].disabled
    requires forall j :: k < j < |cands| ==> cands[j].disabled
    ensures |Enabled(cands)| > 0 && Enabled(cands)[|Enabled(cands)| - 1] == cands[k].el
  {
    assert cands == cands[..k] + [cands[k]] + cands[k + 1..];
    EnabledAppend(cands[..k] + [cands[k]], cands[k + 1..]);
    EnabledAppend(cands[..k], [cands[k]]);
    assert Enabled([cands[k]]) == [cands[k].el];
    EnabledEmpty(cands[k + 1..]);
  }

  /** The trap is empty exactly when every candidate is disabled. */
  lemma {:induction false} EnabledEmpty(cands: seq<Candidate>)
    ensures Enabled(cands) == [] <==> forall j :: 0 <= j < |cands| ==> cands[j].disabled
  {
    if cands != [] {
      EnabledEmpty(cands[1..]);
      assert forall j :: 1 <= j < |cands| ==> cands[1..][j - 1] == cands[j];
    }
  }

  /** `activateFocusTrap`: remember the focused element, collect the trap, focus its first element. */
  function ActivateTrap(m: Menu, cands: seq<Candidate>): Menu
  {
    var trap := Enabled(cands);
    var m' := m.(lastFocused := m.active, trap := trap);
    if |trap| > 0 then m'.(active := Some(trap[0])) else m'
  }

  /** `releaseFocusTrap`: empty the trap, give focus back to the remembered element, forget it. */
  function ReleaseTrap(m: Menu): Menu
  {
    var m' := m.(trap := []);
    var m'' := if m'.lastFocused.Some? then m'.(active := m'.lastFocused) else m';
    m''.(lastFocused := None)
  }

  /** `closeMobileMenu`. */
  function CloseMenu(p: Page, m: Menu): Menu
  {
    if !p.hasMenu then m
    else
      var m1 := m.(openClass := false, closingClass := true, ariaHidden := "true");
      var m2 :=
        if !p.hasToggle then m1
        else if p.marksToggle then m1.(ariaExpanded := "false", toggleOpenClass := false)
        else m1.(ariaExpanded := "false");
      ReleaseTrap(m2)
  }

  /** `openMobileMenu`. */
  function OpenMenu(p: Page, m: Menu, cands: seq<Candidate>): Menu
  {
    if !p.hasMenu then m
    else
      var m1 := m.(openClass := true, ariaHidden := "false");
      var m2 :=
        if !p.hasToggle then m1
        else if p.marksToggle then m1.(ariaExpanded := "true", toggleOpenClass := true)
        else m1.(ariaExpanded := "true");
      ActivateTrap(m2, cands)
  }

  /** A click on the toggle button (its listener exists only when the button does). */
  function ToggleClick(p: Page, m: Menu, cands: seq<Candidate>): Menu
  {
    if !p.hasMenu || !p.hasToggle then m
    else if IsOpen(m) then CloseMenu(p, m)
    else OpenMenu(p, m, cands)
  }

  /** A click on a link inside the menu. */
  function LinkClick(p: Page, m: Menu): Menu
  {
    CloseMenu(p, m)
  }

  /** The window's resize listener. */
  function Resize(p: Page, m: Menu, innerWidth: int): Menu
  {
    if innerWidth > Breakpoint then CloseMenu(p, m) else m
  }

  /** A keydown's effect: the new state and whether the default action was prevented. */
  datatype KeyResult = KeyResult(menu: Menu, prevented: bool)

  /** `maintainFocus` on a Tab keydown. */
  function FocusOnTab(p: Page, m: Menu, shiftKey: bool): KeyResult
  {
    if !p.hasMenu || !IsOpen(m) || |m.trap| == 0 then KeyResult(m, false)
    else
      var first := m.trap[0];
      var last := m.trap[|m.trap| - 1];
      if shiftKey && m.active == Some(first) then KeyResult(m.(active := Some(last)), true)
      else if !shiftKey && m.active == Some(last) then KeyResult(m.(active := Some(first)), true)
      else KeyResult(m, false)
  }

  /** The window's keydown listener: Escape closes, Tab goes through the trap. */
  function Keydown(p: Page, m: Menu, key: string, shiftKey: bool): KeyResult
  {
    var m' := if key == "Escape" then CloseMenu(p, m) else m;
    if key == "Tab" then FocusOnTab(p, m', shiftKey) else KeyResult(m', false)
  }

  /** What a close leaves behind. */
  predicate Closed(p: Page, m: Menu)
  {
    m.ariaHidden == "true" && !m.openClass && m.closingClass && m.trap == [] && m.lastFocused == None &&
    (p.hasToggle ==> m.ariaExpanded == "false") &&
    (p.hasToggle && p.marksToggle ==> !m.toggleOpenClass)
  }

  /** Every path that closes the menu (Escape, a resize past the breakpoint, a link click, a toggle click
      on an open menu) leaves the same state, `closeMobileMenu`'s, and that state is closed with an empty
      trap and nothing remembered, whatever the state it started from. */
  lemma EveryClosePathCloses(p: Page, m: Menu, innerWidth: int, shiftKey: bool, cands: seq<Candidate>)
    requires p.hasMenu
    ensures Closed(p, CloseMenu(p, m))
    ensures Keydown(p, m, "Escape", shiftKey).menu == CloseMenu(p, m)
    ensures innerWidth > Breakpoint ==> Resize(p, m, innerWidth) == CloseMenu(p, m)
    ensures LinkClick(p, m) == CloseMenu(p, m)
    ensures p.hasToggle && IsOpen(m) ==> ToggleClick(p, m, cands) == CloseMenu(p, m)
    ensures Closed(p, Keydown(p, m, "Escape", shiftKey).menu) && !Keydown(p, m, "Escape", shiftKey).prevented
    ensures innerWidth > Breakpoint ==> Closed(p, Resize(p, m, innerWidth))
    ensures Closed(p, LinkClick(p, m))
    ensures p.hasToggle && IsOpen(m) ==> Closed(p, ToggleClick(p, m, cands))
  {
  }

  /** Without the menu element every handler is a no-op. */
  lemma NoMenuNoOp(p: Page, m: Menu, innerWidth: int, key: string, shiftKey: bool, cands: seq<Candidate>)
    requires !p.hasMenu
    ensures CloseMenu(p, m) == m && OpenMenu(p, m, cands) == m && ToggleClick(p, m, cands) == m
    ensures Resize(p, m, innerWidth) == m && LinkClick(p, m) == m
    ensures Keydown(p, m, key, shiftKey) == KeyResult(m, false)
  {
  }

  /** Closing twice is closing once. */
  lemma CloseIdempotent(p: Page, m: Menu)
    ensures CloseMenu(p, CloseMenu(p, m)) == CloseMenu(p, m)
  {
  }

  /** Opening remembers the focused element, puts the enabled candidates in the trap, and focuses the
      first enabled candidate when there is one (otherwise focus stays where it was). */
  lemma OpenActivatesTrap(p: Page, m: Menu, cands: seq<Candidate>, k: nat)
    requires p.hasMenu
    requires k < |cands| && !cands[k].disabled && forall j :: 0 <= j < k ==> cands[j].disabled
    ensures var m' := OpenMenu(p, m, cands);
      IsOpen(m') && m'.openClass && m'.trap == Enabled(cands) && m'.lastFocused == m.active &&
      m'.active == Some(cands[k].el) && (p.hasToggle ==> m'.ariaExpanded == "true")
  {
    EnabledFirst(cands, k);
  }

  /** With every candidate disabled, opening leaves the trap empty and focus unmoved. */
  lemma OpenWithoutCandidates(p: Page, m: Menu, cands: seq<Candidate>)
    requires p.hasMenu
    requires forall j :: 0 <= j < |cands| ==> cands[j].disabled
    ensures var m' := OpenMenu(p, m, cands);
      IsOpen(m') && m'.trap == [] && m'.lastFocused == m.active && m'.active == m.active
  {
    EnabledEmpty(cands);
  }

  /** Opening and then closing gives focus back to the element focused before opening; when nothing was
      focused, focus stays on the first trap element (or unmoved when the trap was empty). */
  lemma OpenThenCloseRestoresFocus(p: Page, m: Menu, cands: seq<Candidate>)
    requires p.hasMenu
    ensures var m' := CloseMenu(p, OpenMenu(p, m, cands));
      Closed(p, m') &&
      (m.active.Some? ==> m'.active == m.active) &&
      (m.active.None? ==> m'.active == OpenMenu(p, m, cands).active)
  {
  }

  /** `maintainFocus` moves focus exactly in the two wrap-around cases, and prevents the default
      action exactly then; otherwise nothing changes. */
  lemma FocusOnTabWraps(p: Page, m: Menu, shiftKey: bool)
    ensures var r := FocusOnTab(p, m, shiftKey);
      var armed := p.hasMenu && IsOpen(m) && |m.trap| > 0;
      (r.prevented <==>
        armed && ((shiftKey && m.active == Some(m.trap[0])) || (!shiftKey && m.active == Some(m.trap[|m.trap| - 1])))) &&
      (r.prevented && shiftKey ==> r.menu == m.(active := Some(m.trap[|m.trap| - 1]))) &&
      (r.prevented && !shiftKey ==> r.menu == m.(active := Some(m.trap[0]))) &&
      (!r.prevented ==> r.menu == m)
  {
  }

  /** Right after opening, the trap's ends are the first and the last enabled candidates: Shift+Tab on
      the first enabled candidate wraps to the last one and Tab on the last one wraps to the first. */
  lemma OpenedTrapWraps(p: Page, m: Menu, cands: seq<Candidate>, k: nat, l: nat)
    requires p.hasMenu
    requires k <= l < |cands| && !cands[k].disabled && !cands[l].disabled
    requires forall j :: 0 <= j < k ==> cands[j].disabled
    requires forall j :: l < j < |cands| ==> cands[j].disabled
    ensures var m' := OpenMenu(p, m, cands);
      FocusOnTab(p, m', true) == KeyResult(m'.(active := Some(cands[l].el)), true) &&
      FocusOnTab(p, m'.(active := Some(cands[l].el)), false) == KeyResult(m'.(active := Some(cands[k].el)), true)
  {
    EnabledFirst(cands, k);
    EnabledLast(cands, l);
  }

  /** The example of a trap [a, b, c]: Tab on c goes to a, Shift+Tab on a goes to c, Tab on a passes. */
  lemma ThreeElementTrap(p: Page, m: Menu, a: Elem, b: Elem, c: Elem)
    requires p.hasMenu && IsOpen(m) && m.trap == [a, b, c] && a != c
    ensures FocusOnTab(p, m.(active := Some(c)), false) == KeyResult(m.(active := Some(a)), true)
    ensures FocusOnTab(p, m.(active := Some(a)), true) == KeyResult(m.(active := Some(c)), true)
    ensures FocusOnTab(p, m.(active := Some(a)), false) == KeyResult(m.(active := Some(a)), false)
  {
  }

  /** The agreement the handlers keep between the menu's attributes and the trap: the `open` class
      follows `aria-hidden`, the toggle's attribute (and class, where it is set) follow it too, and a
      menu that is not open has no trap and remembers nothing. */
  predicate Consistent(p: Page, m: Menu)
  {
    (IsOpen(m) <==> m.openClass) &&
    (!IsOpen(m) ==> m.trap == [] && m.lastFocused == None) &&
    (p.hasToggle ==> m.ariaExpanded == if IsOpen(m) then "true" else "false") &&
    (p.hasToggle && p.marksToggle ==> m.toggleOpenClass == IsOpen(m))
  }

  /** Every event handler keeps the agreement. */
  lemma HandlersKeepConsistent(p: Page, m: Menu, innerWidth: int, key: string, shiftKey: bool, cands: seq<Candidate>)
    requires p.hasMenu && Consistent(p, m)
    ensures Consistent(p, ToggleClick(p, m, cands))
    ensures Consistent(p, LinkClick(p, m))
    ensures Consistent(p, Resize(p, m, innerWidth))
    ensures Consistent(p, Keydown(p, m, key, shiftKey).menu)
  {
    CloseIsConsistent(p, m);
    if key == "Escape" {
      TabKeepsConsistent(p, CloseMenu(p, m), shiftKey);
    } else {
      TabKeepsConsistent(p, m, shiftKey);
    }
    if !IsOpen(m) {
      OpenIsConsistent(p, m, cands);
    }
  }

  /** Closing leaves the agreement in place, whatever the state before. */
  lemma CloseIsConsistent(p: Page, m: Menu)
    requires p.hasMenu
    ensures Consistent(p, CloseMenu(p, m))
  {
  }

  /** Opening leaves the agreement in place, whatever the state before. */
  lemma OpenIsConsistent(p: Page, m: Menu, cands: seq<Candidate>)
    requires p.hasMenu
    ensures Consistent(p, OpenMenu(p, m, cands))
  {
  }

  /** `maintainFocus` moves only the focus, so it keeps the agreement. */
  lemma TabKeepsConsistent(p: Page, m: Menu, shiftKey: bool)
    requires Consistent(p, m)
    ensures Consistent(p, FocusOnTab(p, m, shiftKey).menu)
  {
  }

  /** On a closed menu, Escape and a resize keep it closed and leave the trap, the remembered element
      and the focus as they were; a resize at or below the breakpoint changes nothing at all. */
  lemma ClosedStaysClosed(p: Page, m: Menu, innerWidth: int, shiftKey: bool)
    requires p.hasMenu && Consistent(p, m) && !IsOpen(m)
    ensures var e := Keydown(p, m, "Escape", shiftKey).menu;
      !IsOpen(e) && e.trap == m.trap && e.lastFocused == m.lastFocused && e.active == m.active
    ensures var r := Resize(p, m, innerWidth);
      !IsOpen(r) && r.trap == m.trap && r.lastFocused == m.lastFocused && r.active == m.active
    ensures innerWidth <= Breakpoint ==> Resize(p, m, innerWidth) == m
  {
  }

  /** The menu, the toggle button and the trap as the page holds them. */
  class MobileMenu {
    const page: Page
    var ariaHidden: string
    var openClass: bool
    var closingClass: bool
    var ariaExpanded: string
    var toggleOpenClass: bool
    var trapElements: seq<Elem>
    var lastFocusedElement: Option<Elem>
    var activeElement: Option<Elem>

    function Model(): Menu
      reads this
    {
      Menu(ariaHidden, openClass, closingClass, ariaExpanded, toggleOpenClass,
           trapElements, lastFocusedElement, activeElement)
    }

    /** The page as loaded: the attributes and classes are whatever the markup gives, the trap is empty
        and nothing is remembered. */
    constructor (page: Page, ariaHidden: string, openClass: bool, closingClass: bool, ariaExpanded: string,
                 toggleOpenClass: bool, activeElement: Option<Elem>)
      ensures this.page == page
      ensures Model() == Menu(ariaHidden, openClass, closingClass, ariaExpanded, toggleOpenClass, [], None, activeElement)
      ensures (ariaHidden != "false" && !openClass && (page.hasToggle ==> ariaExpanded == "false") &&
               (page.hasToggle && page.marksToggle ==> !toggleOpenClass)) ==> Consistent(page, Model())
    {
      this.page := page;
      this.ariaHidden, this.ariaExpanded, this.activeElement := ariaHidden, ariaExpanded, activeElement;
      this.openClass, this.closingClass, this.toggleOpenClass := openClass, closingClass, toggleOpenClass;
      trapElements, lastFocusedElement := [], None;
    }

    method ActivateFocusTrap(candidates: seq<Candidate>)
      modifies this
      ensures Model() == ActivateTrap(old(Model()), candidates)
    {
      lastFocusedElement := activeElement;
      trapElements := Enabled(candidates);
      if |trapElements| > 0 {
        activeElement := Some(trapElements[0]);
      }
    }

    method ReleaseFocusTrap()
      modifies this
      ensures Model() == ReleaseTrap(old(Model()))
    {
      trapElements := [];
      if lastFocusedElement.Some? {
        activeElement := lastFocusedElement;
      }
      lastFocusedElement := None;
    }

    method CloseMobileMenu()
      modifies this
      ensures Model() == CloseMenu(page, old(Model()))
      ensures page.hasMenu ==> Closed(page, Model())
    {
      if !page.hasMenu {
        return;
      }
      openClass, closingClass := false, true;
      ariaHidden := "true";
      if page.hasToggle {
        ariaExpanded := "false";
        if page.marksToggle {
          toggleOpenClass := false;
        }
      }
      ReleaseFocusTrap();
    }

    method OpenMobileMenu(candidates: seq<Candidate>)
      modifies this
      ensures Model() == OpenMenu(page, old(Model()), candidates)
      ensures page.hasMenu ==> IsOpen(Model()) && openClass && trapElements == Enabled(candidates) &&
                               lastFocusedElement == old(activeElement)
    {
      if !page.hasMenu {
        return;
      }
      openClass := true;
      ariaHidden := "false";
      if page.hasToggle {
        ariaExpanded := "true";
        if page.marksToggle {
          toggleOpenClass := true;
        }
      }
      ActivateFocusTrap(candidates);
    }

    /** The toggle button's click listener, a no-op on a page without the button (the listener is never
        attached there); `candidates` is what the trap's query finds in the menu. */
    method OnToggleClick(candidates: seq<Candidate>)
      modifies this
      ensures Model() == ToggleClick(page, old(Model()), candidates)
    {
      if !page.hasToggle || !page.hasMenu {
        return;
      }
      var isOpen := ariaHidden == "false";
      if isOpen {
        CloseMobileMenu();
      } else {
        OpenMobileMenu(candidates);
      }
    }

    method OnLinkClick()
      modifies this
      ensures Model() == LinkClick(page, old(Model()))
    {
      CloseMobileMenu();
    }

    method OnResize(innerWidth: int)
      modifies this
      ensures Model() == Resize(page, old(Model()), innerWidth)
    {
      if innerWidth > Breakpoint {
        CloseMobileMenu();
      }
    }

    method MaintainFocus(shiftKey: bool) returns (prevented: bool)
      modifies this
      ensures KeyResult(Model(), prevented) == FocusOnTab(page, old(Model()), shiftKey)
    {
      prevented := false;
      if !page.hasMenu {
        return;
      }
      var isOpen := ariaHidden == "false";
      if !isOpen || |trapElements| == 0 {
        return;
      }
      var first := trapElements[0];
      var last := trapElements[|trapElements| - 1];
      if shiftKey && activeElement == Some(first) {
        prevented := true;
        activeElement := Some(last);
      } else if !shiftKey && activeElement == Some(last) {
        prevented := true;
        activeElement := Some(first);
      }
    }

    method OnKeydown(key: string, shiftKey: bool) returns (prevented: bool)
      modifies this
      ensures KeyResult(Model(), prevented) == Keydown(page, old(Model()), key, shiftKey)
    {
      prevented := false;
      if key == "Escape" {
        CloseMobileMenu();
      }
      if key == "Tab" {
        prevented := MaintainFocus(shiftKey);
      }
    }
  }
}
