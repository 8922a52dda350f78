/**
 * The floating navigation bar. On the home page it appears once the window has scrolled
 * past 100 pixels; elsewhere it is always shown. The mobile menu toggles from a button that
 * exists only while the bar is visible, and closes on an overlay click or a route change.
 */
module Navbar {
  datatype NavItem = NavItem(path: string, caption: string)

  const NavItems: seq<NavItem> := [
    NavItem("/", "Home"), NavItem("/studio", "Studio"), NavItem("/research", "Research"),
    NavItem("/learn", "Learn"), NavItem("/solutions", "Solutions"), NavItem("/nexus", "Nexus")
  ]

  /** The visibility rule of the scroll handler. */
  function Visibility(pathname: string, scrollY: real): (visible: bool)
    ensures pathname != "/" ==> visible
    ensures pathname == "/" ==> (visible <==> scrollY > 100.0)
  {
    if pathname == "/" then scrollY > 100.0 else true
  }

  /** The rule depends on the path only through whether it is the home page. */
  lemma VisibilityOnlySeesHome(p: string, q: string, scrollY: real)
    requires (p == "/") == (q == "/")
    ensures Visibility(p, scrollY) == Visibility(q, scrollY)
  {
  }

  /** `isActive`: a nav item is highlighted when the path is exactly its own. */
  predicate IsActive(pathname: string, path: string) {
    pathname == path
  }

  /** The nav items' paths are pairwise distinct, so at most one item is highlighted. */
  lemma AtMostOneActive(pathname: string, i: nat, j: nat)
    requires i < |NavItems| && j < |NavItems|
    requires IsActive(pathname, NavItems[i].path) && IsActive(pathname, NavItems[j].path)
    ensures i == j
  {
    assert forall a, b :: 0 <= a < b < |NavItems| ==> NavItems[a].path != NavItems[b].path;
  }

  class NavbarState {
    var pathname: string
    /** `window.scrollY`, a double that is fractional under zoom or on high-density screens. */
    var scrollY: real
    var isVisible: bool
    var isMobileMenuOpen: bool

    /** The bar's visibility always agrees with the rule for the current path and scroll position. */
    predicate Valid()
      reads this
    {
      isVisible == Visibility(pathname, scrollY)
    }

    /** Mounting runs the scroll handler once and the route effect closes the menu. */
    constructor(path: string, y: real)
      ensures pathname == path && scrollY == y && isVisible == Visibility(path, y) && !isMobileMenuOpen
      ensures Valid()
    {
      pathname := path;
      scrollY := y;
      isVisible := Visibility(path, y);
      isMobileMenuOpen := false;
    }

    /** A scroll event runs the handler. */
    method Scroll(y: real)
      requires Valid()
      modifies this
      ensures scrollY == y && isVisible == Visibility(pathname, y)
      ensures pathname == old(pathname) && isMobileMenuOpen == old(isMobileMenuOpen)
      ensures Valid()
    {
      scrollY := y;
      isVisible := Visibility(pathname, y);
    }

    /**
     * A route change. The scroll effect re-runs only when the path crosses into or out of
     * the home page, the menu effect whenever the path differs.
     */
    method Navigate(path: string)
      requires Valid()
      modifies this
      ensures pathname == path && scrollY == old(scrollY)
      ensures isVisible == Visibility(path, scrollY)
      ensures path != old(pathname) ==> !isMobileMenuOpen
      ensures path == old(pathname) ==> isMobileMenuOpen == old(isMobileMenuOpen)
      ensures Valid()
    {
      var wasHome := pathname == "/";
      if path != pathname {
        isMobileMenuOpen := false;
      }
      pathname := path;
      if (path == "/") != wasHome {
        isVisible := Visibility(path, scrollY);
      }
    }

    /** The mobile menu button, which is rendered only while the bar is visible. */
    method ToggleMenu()
      requires Valid() && isVisible
      modifies this
      ensures isMobileMenuOpen == !old(isMobileMenuOpen)
      ensures pathname == old(pathname) && scrollY == old(scrollY) && isVisible == old(isVisible)
      ensures Valid()
    {
      isMobileMenuOpen := !isMobileMenuOpen;
    }

    /** A click on the dimmed overlay behind the open menu. */
    method OverlayClick()
      requires Valid() && isMobileMenuOpen
      modifies this
      ensures !isMobileMenuOpen
      ensures pathname == old(pathname) && scrollY == old(scrollY) && isVisible == old(isVisible)
      ensures Valid()
    {
      isMobileMenuOpen := false;
    }
  }
}
