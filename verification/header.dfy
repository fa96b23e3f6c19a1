/** The page header: which navigation link is highlighted for the current
    path, the width breakpoints, and the mobile menu's open/closed flag. */
module Header {
  import opened Text

  /** One entry of `navLinks`; `text` holds the entry's `label` field, since
      `label` is a reserved word in Dafny. */
  datatype NavLink = NavLink(id: string, path: string, text: string)

  /** `navLinks`, in display order. */
  const NavLinks: seq<NavLink> := [
    NavLink("home", "/", "Home"),
    NavLink("about", "/about", "About"),
    NavLink("resume", "/resume", "Resume"),
    NavLink("skills", "/skills", "Skills"),
    NavLink("projects", "/projects", "Projects"),
    NavLink("blog", "/blog", "Blog"),
    NavLink("contact", "/contact", "Contact")
  ]

  const Root: string := "/"

  /** `isActive(path)` for the current `pathname`: the home link only on the
      root itself, any other link on every path that starts with it. */
  predicate IsActive(pathname: string, path: string) {
    if path == Root then pathname == Root
    else StartsWith(pathname, path)
  }

  /** The home link is highlighted exactly on "/". */
  lemma HomeActiveIff(pathname: string)
    ensures IsActive(pathname, Root) <==> pathname == Root
  {
  }

  /** Another link is highlighted on any path it prefixes, including paths that
      merely continue the same word, such as "/blogX" for "/blog". */
  lemma PrefixActive(path: string, rest: string)
    requires path != Root
    ensures IsActive(path + rest, path)
  {
    assert (path + rest)[..|path|] == path;
  }

  lemma BlogXExample()
    ensures IsActive("/blogX", "/blog")
  {
    PrefixActive("/blog", "X");
    assert "/blog" + "X" == "/blogX";
  }

  /** Every link is highlighted on its own path. */
  lemma OwnPathActive(i: nat)
    requires i < |NavLinks|
    ensures IsActive(NavLinks[i].path, NavLinks[i].path)
  {
  }

  /** No link's path is a prefix of another's: apart from the root, the paths
      already differ in their second character. */
  lemma PathsPrefixFree(i: nat, j: nat)
    requires i < |NavLinks| && j < |NavLinks| && i != j
    requires NavLinks[i].path != Root && NavLinks[j].path != Root
    ensures !StartsWith(NavLinks[j].path, NavLinks[i].path)
  {
    var p, q := NavLinks[i].path, NavLinks[j].path;
    assert |p| > 1 && |q| > 1 && p[1] != q[1];
  }

  /** Whatever the current path, at most one navigation link is highlighted. */
  lemma AtMostOneActive(pathname: string, i: nat, j: nat)
    requires i < |NavLinks| && j < |NavLinks|
    requires IsActive(pathname, NavLinks[i].path) && IsActive(pathname, NavLinks[j].path)
    ensures i == j
  {
    var p, q := NavLinks[i].path, NavLinks[j].path;
    if i != j && p != Root && q != Root {
      PrefixesComparable(pathname, p, q);
      PathsPrefixFree(i, j);
      PathsPrefixFree(j, i);
    }
  }

  /** `isMobile`. */
  predicate IsMobile(width: int) {
    width <= 768
  }

  /** `isTablet`. */
  predicate IsTablet(width: int) {
    768 < width <= 1024
  }

  /** Every width is exactly one of mobile, tablet or desktop. */
  lemma BreakpointsPartition(width: int)
    ensures !(IsMobile(width) && IsTablet(width))
    ensures !IsMobile(width) && !IsTablet(width) <==> width > 1024
  {
  }

  /** The header's own state: the viewport width and whether the menu is open. */
  datatype MenuState = MenuState(width: int, isMenuOpen: bool)

  /** The effect that runs after a render: a menu left open on a desktop-wide
      viewport is closed. */
  function CloseOnDesktop(s: MenuState): (s': MenuState)
    ensures s'.width == s.width
    ensures !IsMobile(s.width) ==> !s'.isMenuOpen
    ensures IsMobile(s.width) ==> s' == s
  {
    if s.width > 768 && s.isMenuOpen then s.(isMenuOpen := false) else s
  }

  datatype MenuEvent =
    | MenuButton            // the hamburger / close button
    | NavLinkClicked        // a link in the desktop bar or the mobile drawer
    | OverlayClicked        // the dimmed backdrop behind the open drawer
    | Resized(width: int)

  /** One event, followed by the effect. */
  function MenuStep(s: MenuState, e: MenuEvent): (s': MenuState)
    ensures e == MenuButton && IsMobile(s.width) ==> s'.isMenuOpen == !s.isMenuOpen
    ensures e == NavLinkClicked || e == OverlayClicked ==> !s'.isMenuOpen
    ensures !IsMobile(s'.width) ==> !s'.isMenuOpen
    ensures e.Resized? ==> s'.width == e.width
    ensures !e.Resized? ==> s'.width == s.width
    ensures e.Resized? && IsMobile(e.width) ==> s'.isMenuOpen == s.isMenuOpen
  {
    var t := match e
      case MenuButton => s.(isMenuOpen := !s.isMenuOpen)
      case NavLinkClicked => s.(isMenuOpen := false)
      case OverlayClicked => s.(isMenuOpen := false)
      case Resized(w) => s.(width := w);
    CloseOnDesktop(t)
  }

  /** The menu is never left open wider than the mobile breakpoint. */
  predicate MenuInvariant(s: MenuState) {
    s.isMenuOpen ==> IsMobile(s.width)
  }

  function MenuRun(s: MenuState, es: seq<MenuEvent>): MenuState
    decreases |es|
  {
    if |es| == 0 then s else MenuRun(MenuStep(s, es[0]), es[1..])
  }

  /** Starting closed, any sequence of events keeps the invariant. */
  lemma {:induction false} MenuRunKeepsInvariant(s: MenuState, es: seq<MenuEvent>)
    requires MenuInvariant(s)
    ensures MenuInvariant(MenuRun(s, es))
    decreases |es|
  {
    if |es| > 0 {
      MenuRunKeepsInvariant(MenuStep(s, es[0]), es[1..]);
    }
  }
}
