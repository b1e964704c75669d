/** What the load-time script wires up, and the guard of the in-page link handler. */
module PageSetup {

  /** Which handlers the script installs: the four menu handlers, the in-page link
      handlers and the contact form's submit handler. */
  datatype Wiring = Wiring(menu: bool, anchors: bool, form: bool)

  /** The script returns early when the menu button or the nav is missing, and the form
      handler is installed only when the form exists as well. */
  function Initialize(hasButton: bool, hasNav: bool, hasForm: bool): (w: Wiring)
    ensures !(hasButton && hasNav) ==> w == Wiring(false, false, false)
    ensures hasButton && hasNav ==> w.menu && w.anchors
    ensures w.form <==> hasButton && hasNav && hasForm
  {
    if !hasButton || !hasNav then Wiring(false, false, false)
    else Wiring(true, true, hasForm)
  }

  /** A working form is never enough on its own: without the menu markup there is no
      validation either. */
  lemma FormNeedsMenu(hasButton: bool, hasNav: bool, hasForm: bool)
    ensures Initialize(hasButton, hasNav, hasForm).form ==> Initialize(hasButton, hasNav, hasForm).menu
    ensures !hasButton ==> !Initialize(hasButton, hasNav, hasForm).form
  {
  }

  /** What a click on an in-page link does: whether the browser's own navigation is
      prevented, and whether the page scrolls to the target. */
  datatype AnchorOutcome = AnchorOutcome(defaultPrevented: bool, scrolled: bool)

  /** The handler's guard: the link names more than the bare `#`. */
  predicate NamesTarget(href: string) {
    href != "#" && |href| > 1
  }

  /** The click handler of a link whose `href` starts with `#`; `targetExists` is whether the
      document has an element matching it. */
  function AnchorClick(href: string, targetExists: bool): (r: AnchorOutcome)
    requires |href| > 0 && href[0] == '#'
    ensures r.defaultPrevented <==> |href| >= 2
    ensures r.scrolled <==> |href| >= 2 && targetExists
  {
    if NamesTarget(href) then AnchorOutcome(true, targetExists) else AnchorOutcome(false, false)
  }
}
