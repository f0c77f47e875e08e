/**
 * The docs sidebar's state: which menu items with sub-pages are expanded,
 * whether the mobile menu is open, and which links are highlighted for the
 * current path.
 *
 * Auto-expansion tests the path with a bare prefix check, while the
 * active-parent highlight requires the prefix to end at a "/" boundary; both
 * are kept as written, so a path such as "/docs/core-concepts/routing-x"
 * expands the Routing menu without marking it as the active parent.
 */
module DocsLayout {
  import opened Strings

  const RoutingHref: string := "/docs/core-concepts/routing"
  const HttpHandlersHref: string := "/docs/core-concepts/http-handlers"

  /** A sidebar item: its link and its sub-items (absent is empty). */
  datatype MenuItem = MenuItem(href: string, subItems: seq<MenuItem>)

  /** `isActive(href)`: the current path is exactly the link. */
  predicate IsActive(path: string, href: string)
  {
    path == href
  }

  /** `isActiveParent(href)`: the path is the link itself or lies below it at a "/" boundary. */
  predicate IsActiveParent(path: string, href: string)
  {
    StartsWith(path, href + "/") || path == href
  }

  /** The parents the path calls for: each of the two menus whose href is a bare prefix of the path. */
  function AutoExpanded(path: string): (s: set<string>)
    ensures RoutingHref in s <==> StartsWith(path, RoutingHref)
    ensures HttpHandlersHref in s <==> StartsWith(path, HttpHandlersHref)
    ensures forall h :: h in s ==> h == RoutingHref || h == HttpHandlersHref
  {
    (if StartsWith(path, RoutingHref) then {RoutingHref} else {})
    + (if StartsWith(path, HttpHandlersHref) then {HttpHandlersHref} else {})
  }

  /** The updater of `toggleExpanded(href)`: a copy of the set with `href`'s membership flipped. */
  function Toggled(expanded: set<string>, href: string): (next: set<string>)
    ensures href in next <==> href !in expanded
    ensures forall h :: h != href ==> (h in next <==> h in expanded)
  {
    if href in expanded then expanded - {href} else expanded + {href}
  }

  /** Toggling the same item twice restores the set. */
  lemma ToggleInvolutive(expanded: set<string>, href: string)
    ensures Toggled(Toggled(expanded, href), href) == expanded
  {
    var once := Toggled(expanded, href);
    var twice := Toggled(once, href);
    assert forall h :: h in twice <==> h in expanded;
  }

  /** `isActive` implies `isActiveParent`. */
  lemma ActiveIsActiveParent(path: string, href: string)
    requires IsActive(path, href)
    ensures IsActiveParent(path, href)
  {
  }

  /**
   * Being an active parent means the link is the path or is followed in the
   * path by "/": "/a/bc" is not an active parent of "/a/b", "/a/b/c" is.
   */
  lemma ActiveParentBoundary(path: string, href: string)
    ensures IsActiveParent(path, href) <==>
      path == href || (|href| < |path| && path[..|href|] == href && path[|href|] == '/')
  {
    if |href| < |path| && path[..|href|] == href && path[|href|] == '/' {
      assert path[..|href + "/"|] == path[..|href|] + [path[|href|]];
    }
    if StartsWith(path, href + "/") {
      assert path[..|href|] == (href + "/")[..|href|];
      assert path[|href|] == (href + "/")[|href|];
    }
  }

  /** A sibling that merely shares a prefix is not an active parent. */
  lemma SharedPrefixIsNotParent()
    ensures !IsActiveParent("/a/bc", "/a/b")
    ensures IsActiveParent("/a/b/c", "/a/b")
  {
    ActiveParentBoundary("/a/bc", "/a/b");
    ActiveParentBoundary("/a/b/c", "/a/b");
  }

  /** The bare-prefix auto-expansion and the boundary-checked highlight disagree on "/docs/core-concepts/routing-x". */
  lemma ExpansionIgnoresBoundary()
    ensures RoutingHref in AutoExpanded("/docs/core-concepts/routing-x")
    ensures !IsActiveParent("/docs/core-concepts/routing-x", RoutingHref)
  {
    ActiveParentBoundary("/docs/core-concepts/routing-x", RoutingHref);
    assert "/docs/core-concepts/routing-x"[..|RoutingHref|] == RoutingHref;
    assert "/docs/core-concepts/routing-x"[|RoutingHref|] == '-';
  }

  /** Every page below a parent, at a "/" boundary, auto-expands that parent. */
  lemma ActiveParentIsExpanded(path: string)
    ensures IsActiveParent(path, RoutingHref) ==> RoutingHref in AutoExpanded(path)
    ensures IsActiveParent(path, HttpHandlersHref) ==> HttpHandlersHref in AutoExpanded(path)
  {
    if StartsWith(path, RoutingHref + "/") {
      StartsWithTrans(path, RoutingHref + "/", RoutingHref);
    }
    if StartsWith(path, HttpHandlersHref + "/") {
      StartsWithTrans(path, HttpHandlersHref + "/", HttpHandlersHref);
    }
  }

  /** Whether `renderMenuItem` shows an item's sub-list: it has sub-items and is expanded. */
  predicate ShowsSubItems(item: MenuItem, expanded: set<string>)
  {
    |item.subItems| > 0 && item.href in expanded
  }

  /** An item's sub-list is shown only while the item is expanded, and toggling it flips that. */
  lemma ToggleShowsOrHides(item: MenuItem, expanded: set<string>)
    requires |item.subItems| > 0
    ensures ShowsSubItems(item, Toggled(expanded, item.href)) <==> !ShowsSubItems(item, expanded)
  {
  }

  class DocsSidebar {
    /** `router.path`. */
    var path: string
    var isMobileMenuOpen: bool
    var expandedItems: set<string>

    /** The component's first render: the mobile menu closed, the parents the path calls for expanded. */
    constructor (initialPath: string)
      ensures path == initialPath
      ensures !isMobileMenuOpen
      ensures expandedItems == AutoExpanded(initialPath)
    {
      path := initialPath;
      isMobileMenuOpen := false;
      var expanded: set<string> := {};
      if StartsWith(initialPath, RoutingHref) {
        expanded := expanded + {RoutingHref};
      }
      if StartsWith(initialPath, HttpHandlersHref) {
        expanded := expanded + {HttpHandlersHref};
      }
      expandedItems := expanded;
    }

    /**
     * The effect that runs when `router.path` changes: it closes the mobile
     * menu and adds the parents the new path calls for, never removing one.
     */
    method Navigate(newPath: string)
      modifies this
      ensures path == newPath
      ensures !isMobileMenuOpen
      ensures expandedItems == old(expandedItems) + AutoExpanded(newPath)
      ensures old(expandedItems) <= expandedItems
    {
      path := newPath;
      isMobileMenuOpen := false;
      if StartsWith(path, RoutingHref) {
        expandedItems := expandedItems + {RoutingHref};
      }
      if StartsWith(path, HttpHandlersHref) {
        expandedItems := expandedItems + {HttpHandlersHref};
      }
    }

    /** `toggleExpanded(href)`: the set is replaced by a copy with `href` flipped. */
    method ToggleExpanded(href: string)
      modifies this`expandedItems
      ensures expandedItems == Toggled(old(expandedItems), href)
      ensures href in expandedItems <==> href !in old(expandedItems)
    {
      var next := expandedItems;
      if href in next {
        next := next - {href};
      } else {
        next := next + {href};
      }
      expandedItems := next;
    }

    /** The mobile menu button: opens a closed menu and closes an open one. */
    method ToggleMobileMenu()
      modifies this`isMobileMenuOpen
      ensures isMobileMenuOpen == !old(isMobileMenuOpen)
    {
      isMobileMenuOpen := !isMobileMenuOpen;
    }
  }

  /** Running the navigation effect again on the same path changes nothing. */
  lemma NavigateIdempotent(expanded: set<string>, path: string)
    ensures (expanded + AutoExpanded(path)) + AutoExpanded(path) == expanded + AutoExpanded(path)
  {
  }

  /** The effect's first run, right after the initialiser, leaves the expanded set as it is. */
  lemma FirstEffectIsNoOp(path: string)
    ensures AutoExpanded(path) + AutoExpanded(path) == AutoExpanded(path)
  {
  }
}
