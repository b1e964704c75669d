/** The mobile navigation menu: four markers on the page and the four handlers that
    write them (the toggle button, a click inside the nav, the Escape key and a click
    on the overlay). */
module MobileMenu {

  /** What the menu handlers write: the nav's `open` class, the toggle button's `open`
      class, the button's `aria-expanded` attribute and the overlay's `active` class. */
  datatype MenuView = MenuView(navOpen: bool, buttonOpen: bool, ariaExpanded: string, overlayActive: bool)

  /** The events the handlers listen to. `NavClick(onLink)` is a click inside the nav,
      `onLink` telling whether the clicked element lies inside a link; `KeyDown(key)`
      carries the event's `key` value. */
  datatype MenuEvent = ToggleClick | NavClick(onLink: bool) | KeyDown(key: string) | OverlayClick

  /** The attribute text written for an open or a closed menu. */
  function AriaValue(open: bool): string {
    if open then "true" else "false"
  }

  /** The attribute and the overlay agree with the nav. */
  predicate Synced(v: MenuView) {
    v.ariaExpanded == AriaValue(v.navOpen) && v.overlayActive == v.navOpen
  }

  /** The state every handler keeps: the three markers the close paths write agree with
      the nav, and an open nav always has its button marked open too. */
  predicate Consistent(v: MenuView) {
    Synced(v) && (v.navOpen ==> v.buttonOpen)
  }

  /** All four markers agree. */
  predicate FullySynced(v: MenuView) {
    Synced(v) && v.buttonOpen == v.navOpen
  }

  /** The state a close path leaves behind (the button's class is not among them). */
  predicate Closed(v: MenuView) {
    !v.navOpen && v.ariaExpanded == "false" && !v.overlayActive
  }

  /** The events that close an open menu. */
  predicate Closes(e: MenuEvent) {
    (e.NavClick? && e.onLink) || (e.KeyDown? && e.key == "Escape") || e.OverlayClick?
  }

  /** Toggle click: flip the nav and copy its new state onto the other three markers. */
  function Toggle(v: MenuView): (r: MenuView)
    ensures r.navOpen == !v.navOpen
    ensures FullySynced(r)
  {
    var open := !v.navOpen;
    MenuView(open, open, AriaValue(open), open)
  }

  /** The body shared by the three close paths: when the nav is open, close it, reset the
      attribute and hide the overlay. */
  function Close(v: MenuView): (r: MenuView)
    ensures v.navOpen ==> Closed(r)
    ensures !v.navOpen ==> r == v
    ensures r.buttonOpen == v.buttonOpen
  {
    if v.navOpen then v.(navOpen := false, ariaExpanded := "false", overlayActive := false) else v
  }

  /** One handled event. */
  function Step(v: MenuView, e: MenuEvent): (r: MenuView)
    ensures !e.ToggleClick? ==> r.buttonOpen == v.buttonOpen
    ensures !e.ToggleClick? && !v.navOpen ==> r == v
    ensures Consistent(v) ==> Consistent(r)
  {
    match e
    case ToggleClick => Toggle(v)
    case NavClick(onLink) => if onLink then Close(v) else v
    case KeyDown(key) => if key == "Escape" then Close(v) else v
    case OverlayClick => Close(v)
  }

  /** A sequence of events handled one after the other. */
  function Run(v: MenuView, es: seq<MenuEvent>): MenuView
    decreases |es|
  {
    if es == [] then v else Run(Step(v, es[0]), es[1..])
  }

  /** Two toggle clicks give back exactly the state they started from when, and only when,
      all four markers agreed to begin with. */
  lemma ToggleTwice(v: MenuView)
    ensures Toggle(Toggle(v)) == v <==> FullySynced(v)
  {
  }

  /** A non-toggle event changes something only when it is a closing event and the nav is
      open; a closing event leaves a consistent menu closed. */
  lemma CloseEvents(v: MenuView, e: MenuEvent)
    requires !e.ToggleClick?
    ensures Step(v, e) != v <==> v.navOpen && Closes(e)
    ensures Closes(e) && Consistent(v) ==> Closed(Step(v, e))
  {
  }

  /** A key closes the menu only when it is Escape; any other key changes nothing. */
  lemma EscapeOnly(v: MenuView, key: string)
    ensures key != "Escape" ==> Step(v, KeyDown(key)) == v
    ensures key == "Escape" && v.navOpen ==> Closed(Step(v, KeyDown(key)))
  {
  }

  /** Every handler keeps the consistent state, so any run of events does. */
  lemma {:induction false} RunKeepsConsistent(v: MenuView, es: seq<MenuEvent>)
    requires Consistent(v)
    ensures Consistent(Run(v, es))
    decreases |es|
  {
    if es != [] {
      RunKeepsConsistent(Step(v, es[0]), es[1..]);
    }
  }

  /** Once the toggle has been clicked, the attribute and the overlay track the nav
      whatever state the page started in. */
  lemma {:induction false} SyncedAfterToggle(v: MenuView, es: seq<MenuEvent>)
    requires ToggleClick in es
    ensures Synced(Run(v, es))
    decreases |es|
  {
    if es[0] == ToggleClick {
      RunKeepsConsistent(Step(v, es[0]), es[1..]);
    } else {
      assert ToggleClick in es[1..];
      SyncedAfterToggle(Step(v, es[0]), es[1..]);
    }
  }

  /** Only the toggle writes the button's class: a run without toggle clicks leaves it as
      it was. */
  lemma {:induction false} ButtonOnlyByToggle(v: MenuView, es: seq<MenuEvent>)
    requires ToggleClick !in es
    ensures Run(v, es).buttonOpen == v.buttonOpen
    decreases |es|
  {
    if es != [] {
      assert ToggleClick !in es[1..];
      ButtonOnlyByToggle(Step(v, es[0]), es[1..]);
    }
  }

  /** Opening the menu and closing it with Escape leaves the button marked open while the
      nav is closed: the three-marker invariant holds, the four-marker one does not. */
  lemma EscapeLeavesButtonOpen()
    ensures var v := Run(MenuView(false, false, "false", false), [ToggleClick, KeyDown("Escape")]);
      Closed(v) && v.buttonOpen && Consistent(v) && !FullySynced(v)
  {
    var v0 := MenuView(false, false, "false", false);
    var v1 := Step(v0, ToggleClick);
    assert [ToggleClick, KeyDown("Escape")][1..] == [KeyDown("Escape")];
    assert Run(v0, [ToggleClick, KeyDown("Escape")]) == Run(v1, [KeyDown("Escape")]);
  }

  /** The four markers as fields the handlers update in place. */
  class MenuController {
    var navOpen: bool
    var buttonOpen: bool
    var ariaExpanded: string
    var overlayActive: bool

    function View(): MenuView
      reads this
    {
      MenuView(navOpen, buttonOpen, ariaExpanded, overlayActive)
    }

    ghost predicate Valid()
      reads this
    {
      Consistent(View())
    }

    /** The markers as the page's markup sets them; the overlay is created without its
        `active` class. */
    constructor (navOpen: bool, buttonOpen: bool, ariaExpanded: string)
      ensures View() == MenuView(navOpen, buttonOpen, ariaExpanded, false)
      ensures !navOpen && ariaExpanded == "false" ==> Valid()
    {
      this.navOpen := navOpen;
      this.buttonOpen := buttonOpen;
      this.ariaExpanded := ariaExpanded;
      overlayActive := false;
    }

    /** The toggle button's click handler. */
    method ClickToggle()
      modifies this
      ensures View() == Step(old(View()), ToggleClick)
      ensures Valid()
    {
      navOpen := !navOpen;
      var open := navOpen;
      ariaExpanded := if open then "true" else "false";
      buttonOpen := open;
      if open {
        overlayActive := true;
      } else {
        overlayActive := false;
      }
    }

    /** The shared close path of the three closing handlers. */
    method CloseIfOpen()
      modifies this
      ensures View() == Close(old(View()))
    {
      if navOpen {
        navOpen := false;
        ariaExpanded := "false";
        overlayActive := false;
      }
    }

    /** The nav's click handler: only a click inside a link closes. */
    method ClickInNav(onLink: bool)
      modifies this
      ensures View() == Step(old(View()), NavClick(onLink))
      ensures old(Valid()) ==> Valid()
    {
      if onLink {
        CloseIfOpen();
      }
    }

    /** The document's keydown handler. */
    method PressKey(key: string)
      modifies this
      ensures View() == Step(old(View()), KeyDown(key))
      ensures old(Valid()) ==> Valid()
    {
      if key == "Escape" {
        CloseIfOpen();
      }
    }

    /** The overlay's click handler. */
    method ClickOverlay()
      modifies this
      ensures View() == Step(old(View()), OverlayClick)
      ensures old(Valid()) ==> Valid()
    {
      CloseIfOpen();
    }
  }
}
