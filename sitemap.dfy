/**
 * The `/sitemap.xml` handler: the internal links of the docs menu tree, the
 * home page added in front when the menu lacks it, duplicates removed, and
 * one `<url>` entry per link in the XML format of the Sitemaps protocol 0.9.
 */
module Sitemap {
  import opened Strings

  const BaseUrl: string := "https://heliumjs.com"

  /**
   * A menu section (`title`, optional `href`, optional `items`) or a menu
   * item (`href`, optional `subItems`). An absent href is "" (both are
   * falsy) and an absent list is [] (both contribute no links).
   */
  datatype MenuNode = MenuNode(href: string, items: seq<MenuNode>, subItems: seq<MenuNode>)

  /** A link the sitemap lists: a truthy href that does not start with "http". */
  predicate IsInternal(href: string)
  {
    href != "" && !StartsWith(href, "http")
  }

  // ---------------------------------------------------------------------------
  // getUrls

  /** What `getUrls(nodes)` returns: each node's own link, then its items', then its subItems'. */
  function Urls(nodes: seq<MenuNode>): (urls: seq<string>)
    ensures forall h :: h in urls ==> IsInternal(h)
    decreases nodes
  {
    if nodes == [] then [] else NodeUrls(nodes[0]) + Urls(nodes[1..])
  }

  function NodeUrls(node: MenuNode): (urls: seq<string>)
    ensures forall h :: h in urls ==> IsInternal(h)
    decreases node
  {
    (if IsInternal(node.href) then [node.href] else []) + Urls(node.items) + Urls(node.subItems)
  }

  /** Every node of the forest, each before its items, which come before its subItems. */
  function Preorder(nodes: seq<MenuNode>): seq<MenuNode>
    decreases nodes
  {
    if nodes == [] then [] else NodePreorder(nodes[0]) + Preorder(nodes[1..])
  }

  function NodePreorder(node: MenuNode): seq<MenuNode>
    decreases node
  {
    [node] + Preorder(node.items) + Preorder(node.subItems)
  }

  /** The internal hrefs of a flat list of nodes, in order, repeats kept. */
  function InternalHrefs(nodes: seq<MenuNode>): (hs: seq<string>)
    ensures |hs| <= |nodes|
    ensures forall h :: h in hs <==> IsInternal(h) && exists n :: n in nodes && n.href == h
  {
    if nodes == [] then []
    else
      var rest := InternalHrefs(nodes[1..]);
      assert forall n :: n in nodes <==> n == nodes[0] || n in nodes[1..];
      if IsInternal(nodes[0].href) then [nodes[0].href] + rest else rest
  }

  lemma {:induction false} InternalHrefsAppend(a: seq<MenuNode>, b: seq<MenuNode>)
    ensures InternalHrefs(a + b) == InternalHrefs(a) + InternalHrefs(b)
  {
    if a != [] {
      assert (a + b)[1..] == a[1..] + b;
      InternalHrefsAppend(a[1..], b);
    } else {
      assert a + b == b;
    }
  }

  /**
   * `getUrls` is the internal hrefs of the pre-order node list: no
   * deduplication, and nodes at every depth contribute.
   */
  lemma {:induction false} UrlsArePreorderLinks(nodes: seq<MenuNode>)
    ensures Urls(nodes) == InternalHrefs(Preorder(nodes))
    decreases nodes
  {
    if nodes != [] {
      NodeUrlsArePreorderLinks(nodes[0]);
      UrlsArePreorderLinks(nodes[1..]);
      InternalHrefsAppend(NodePreorder(nodes[0]), Preorder(nodes[1..]));
    }
  }

  lemma {:induction false} NodeUrlsArePreorderLinks(node: MenuNode)
    ensures NodeUrls(node) == InternalHrefs(NodePreorder(node))
    decreases node
  {
    UrlsArePreorderLinks(node.items);
    UrlsArePreorderLinks(node.subItems);
    InternalHrefsAppend([node], Preorder(node.items));
    InternalHrefsAppend([node] + Preorder(node.items), Preorder(node.subItems));
  }

  /**
   * A link is in `getUrls`' result exactly when it is internal and some node
   * anywhere in the tree (section, item or subItem) carries it.
   */
  lemma UrlsMembership(nodes: seq<MenuNode>, h: string)
    ensures h in Urls(nodes) <==> IsInternal(h) && exists n :: n in Preorder(nodes) && n.href == h
  {
    UrlsArePreorderLinks(nodes);
  }

  /** Siblings keep their order: the links of `a + b` are those of `a`, then those of `b`. */
  lemma {:induction false} UrlsAppend(a: seq<MenuNode>, b: seq<MenuNode>)
    ensures Urls(a + b) == Urls(a) + Urls(b)
  {
    if a != [] {
      assert (a + b)[1..] == a[1..] + b;
      UrlsAppend(a[1..], b);
    } else {
      assert a + b == b;
    }
  }

  lemma UrlsSnoc(nodes: seq<MenuNode>, node: MenuNode)
    ensures Urls(nodes + [node]) == Urls(nodes) + NodeUrls(node)
  {
    UrlsAppend(nodes, [node]);
    assert Urls([node]) == NodeUrls(node) + Urls([]);
  }

  /**
   * `getUrls` keeps repeats: an item whose "Overview" sub-item repeats its
   * own link yields that link twice (duplicates are only removed later).
   */
  lemma RepeatedLinkKept(h: string)
    requires IsInternal(h)
    ensures Urls([MenuNode(h, [], [MenuNode(h, [], [])])]) == [h, h]
  {
    var leaf := MenuNode(h, [], []);
    assert NodeUrls(leaf) == [h];
    assert Urls([leaf]) == [h];
  }

  /** `getUrls`: a loop over the nodes that pushes each one's link and then the links of its children. */
  method GetUrls(items: seq<MenuNode>) returns (urls: seq<string>)
    ensures urls == Urls(items)
    decreases items
  {
    urls := [];
    for i := 0 to |items|
      invariant urls == Urls(items[..i])
    {
      var item := items[i];
      var own: seq<string> := [];
      if IsInternal(item.href) {
        own := [item.href];
      }
      var fromItems := GetUrls(item.items);
      var fromSubItems := GetUrls(item.subItems);
      var fromNode := own + fromItems + fromSubItems;
      assert fromNode == NodeUrls(item);
      urls := urls + fromNode;
      assert items[..i + 1] == items[..i] + [item];
      UrlsSnoc(items[..i], item);
    }
    assert items[..|items|] == items;
  }

  // ---------------------------------------------------------------------------
  // The home page and duplicate removal

  /** The links with the home page put in front when it is missing. */
  function WithHome(urls: seq<string>): (r: seq<string>)
    ensures "/" in r
    ensures "/" in urls ==> r == urls
    ensures "/" !in urls ==> |r| == |urls| + 1 && r[0] == "/" && r[1..] == urls
  {
    if "/" in urls then urls else ["/"] + urls
  }

  predicate NoDuplicates(s: seq<string>)
  {
    forall i, j :: 0 <= i < j < |s| ==> s[i] != s[j]
  }

  /** The position of the first occurrence of `x` in `s`. */
  function FirstIndex(s: seq<string>, x: string): (k: nat)
    requires x in s
    ensures k < |s| && s[k] == x
    ensures forall j :: 0 <= j < k ==> s[j] != x
  {
    if s[0] == x then 0 else 1 + FirstIndex(s[1..], x)
  }

  lemma FirstIndexOfPrefix(a: seq<string>, b: seq<string>, x: string)
    requires x in a
    ensures FirstIndex(a + b, x) == FirstIndex(a, x)
  {
    var k := FirstIndex(a, x);
    assert (a + b)[k] == x;
  }

  lemma FirstIndexAfterPrefix(a: seq<string>, x: string)
    requires x !in a
    ensures FirstIndex(a + [x], x) == |a|
  {
    assert (a + [x])[|a|] == x;
    assert forall j :: 0 <= j < |a| ==> (a + [x])[j] == a[j];
  }

  /**
   * `[...new Set(urls)]`: every link once, the same links as the input,
   * in the order of their first occurrences.
   */
  function Unique(s: seq<string>): (r: seq<string>)
    ensures NoDuplicates(r)
    ensures forall x :: x in r <==> x in s
    ensures forall i, j :: 0 <= i < j < |r| ==> FirstIndex(s, r[i]) < FirstIndex(s, r[j])
  {
    if s == [] then []
    else
      var init, last := s[..|s| - 1], s[|s| - 1];
      assert s == init + [last];
      var seen := Unique(init);
      forall x | x in init ensures FirstIndex(s, x) == FirstIndex(init, x) {
        FirstIndexOfPrefix(init, [last], x);
      }
      if last in seen then seen
      else
        FirstIndexAfterPrefix(init, last);
        seen + [last]
  }

  /** Removing duplicates keeps what is already duplicate-free. */
  lemma {:induction false} UniqueOfDistinct(s: seq<string>)
    requires NoDuplicates(s)
    ensures Unique(s) == s
  {
    if s != [] {
      var init, last := s[..|s| - 1], s[|s| - 1];
      DistinctInit(s);
      UniqueOfDistinct(init);
      assert s == init + [last];
    }
  }

  lemma DistinctInit(s: seq<string>)
    requires s != [] && NoDuplicates(s)
    ensures NoDuplicates(s[..|s| - 1])
    ensures s[|s| - 1] !in s[..|s| - 1]
  {
    var init := s[..|s| - 1];
    forall i, j | 0 <= i < j < |init| ensures init[i] != init[j] {
      assert init[i] == s[i] && init[j] == s[j];
    }
    forall i | 0 <= i < |init| ensures init[i] != s[|s| - 1] {
      assert init[i] == s[i];
    }
  }

  // ---------------------------------------------------------------------------
  // The XML document

  /** One `<url>` element of the sitemap. */
  datatype UrlEntry = UrlEntry(loc: string, changefreq: string, priority: string)

  /** The entry for one link: absolute location, weekly, and priority 1.0 for the home page only. */
  function EntryFor(url: string): (e: UrlEntry)
    ensures e.loc == BaseUrl + url
    ensures e.changefreq == "weekly"
    ensures e.priority == "1.0" <==> url == "/"
    ensures url != "/" ==> e.priority == "0.8"
  {
    UrlEntry(BaseUrl + url, "weekly", if url == "/" then "1.0" else "0.8")
  }

  /** The entries of a list of links, one per link, in order. */
  function EntriesFor(urls: seq<string>): (es: seq<UrlEntry>)
    ensures |es| == |urls|
    ensures forall i :: 0 <= i < |urls| ==> es[i] == EntryFor(urls[i])
  {
    seq(|urls|, i requires 0 <= i < |urls| => EntryFor(urls[i]))
  }

  /** The text of one entry, as the handler's inner template lays it out. */
  function RenderEntry(e: UrlEntry): string
  {
    "\n    <url>\n        <loc>" + e.loc + "</loc>\n        <changefreq>" + e.changefreq
    + "</changefreq>\n        <priority>" + e.priority + "</priority>\n    </url>\n    "
  }

  /** `.map(...)`: the text of each entry, in list order. */
  function Rendered(es: seq<UrlEntry>): (parts: seq<string>)
    ensures |parts| == |es|
    ensures forall i :: 0 <= i < |es| ==> parts[i] == RenderEntry(es[i])
  {
    seq(|es|, i requires 0 <= i < |es| => RenderEntry(es[i]))
  }

  /** `.join("")`: the parts written one after another. */
  function Join(parts: seq<string>): string
  {
    if parts == [] then "" else parts[0] + Join(parts[1..])
  }

  const Header: string := "<?xml version=\"1.0\" encoding=\"UTF-8\"?>\n<urlset xmlns=\"http://www.sitemaps.org/schemas/sitemap/0.9\">\n    "
  const Footer: string := "\n</urlset>"

  function Document(es: seq<UrlEntry>): (doc: string)
    ensures StartsWith(doc, Header)
    ensures doc[|doc| - |Footer|..] == Footer
  {
    Header + Join(Rendered(es)) + Footer
  }

  /** Joining `a + b` writes the parts of `a`, then those of `b`. */
  lemma {:induction false} JoinAppend(a: seq<string>, b: seq<string>)
    ensures Join(a + b) == Join(a) + Join(b)
  {
    if a != [] {
      assert (a + b)[0] == a[0];
      assert (a + b)[1..] == a[1..] + b;
      JoinAppend(a[1..], b);
    } else {
      assert a + b == b;
    }
  }

  /** The entries of `a + b` render as those of `a`, then those of `b`. */
  lemma RenderedAppend(a: seq<UrlEntry>, b: seq<UrlEntry>)
    ensures Rendered(a + b) == Rendered(a) + Rendered(b)
  {
    forall i | 0 <= i < |a + b|
      ensures Rendered(a + b)[i] == (Rendered(a) + Rendered(b))[i]
    {
      if i < |a| {
        assert (a + b)[i] == a[i];
      } else {
        assert (a + b)[i] == b[i - |a|];
      }
    }
  }

  /** The entries the handler writes for a menu. */
  function SitemapEntries(menu: seq<MenuNode>): seq<UrlEntry>
  {
    EntriesFor(Unique(WithHome(Urls(menu))))
  }

  /** Prefixing the base URL loses nothing: distinct links give distinct locations. */
  lemma LocInjective(u: string, v: string)
    ensures BaseUrl + u == BaseUrl + v <==> u == v
  {
    if BaseUrl + u == BaseUrl + v {
      assert u == (BaseUrl + u)[|BaseUrl|..];
      assert v == (BaseUrl + v)[|BaseUrl|..];
    }
  }

  /** A location is listed exactly for the home page and the menu's internal links. */
  lemma SitemapLocs(menu: seq<MenuNode>, url: string)
    ensures (exists e :: e in SitemapEntries(menu) && e.loc == BaseUrl + url)
            <==> url == "/" || url in Urls(menu)
  {
    var unique := Unique(WithHome(Urls(menu)));
    var es := SitemapEntries(menu);
    if url in unique {
      var i :| 0 <= i < |unique| && unique[i] == url;
      assert es[i] in es && es[i].loc == BaseUrl + url;
    }
    if e :| e in es && e.loc == BaseUrl + url {
      var i :| 0 <= i < |es| && es[i] == e;
      LocInjective(unique[i], url);
    }
  }

  /** No location is listed twice. */
  lemma SitemapLocsDistinct(menu: seq<MenuNode>)
    ensures forall i, j :: 0 <= i < j < |SitemapEntries(menu)| ==> SitemapEntries(menu)[i].loc != SitemapEntries(menu)[j].loc
  {
    var unique := Unique(WithHome(Urls(menu)));
    forall i, j | 0 <= i < j < |SitemapEntries(menu)|
      ensures SitemapEntries(menu)[i].loc != SitemapEntries(menu)[j].loc
    {
      LocInjective(unique[i], unique[j]);
    }
  }

  /** Exactly one entry, the home page's, has priority 1.0. */
  lemma SitemapOneTopPriority(menu: seq<MenuNode>)
    ensures exists i :: 0 <= i < |SitemapEntries(menu)| && SitemapEntries(menu)[i].priority == "1.0"
    ensures forall i, j :: 0 <= i < j < |SitemapEntries(menu)| ==>
                             !(SitemapEntries(menu)[i].priority == "1.0" && SitemapEntries(menu)[j].priority == "1.0")
  {
    var unique := Unique(WithHome(Urls(menu)));
    assert "/" in unique;
    var h :| 0 <= h < |unique| && unique[h] == "/";
    assert SitemapEntries(menu)[h].priority == "1.0";
  }

  /** The home page comes first when the menu does not link to it. */
  lemma SitemapHomeFirst(menu: seq<MenuNode>)
    requires "/" !in Urls(menu)
    ensures SitemapEntries(menu)[0] == EntryFor("/")
  {
    var urls := WithHome(Urls(menu));
    assert FirstIndex(urls, "/") == 0;
    assert Unique(urls)[0] == "/";
  }

  /**
   * The sitemap lists the home page and every internal link of the menu,
   * nothing else, each location once; the home page is the only entry with
   * priority 1.0, and it comes first when the menu does not link to it.
   */
  lemma SitemapCoversMenu(menu: seq<MenuNode>)
    ensures forall url :: (exists e :: e in SitemapEntries(menu) && e.loc == BaseUrl + url)
                          <==> url == "/" || url in Urls(menu)
    ensures forall i, j :: 0 <= i < j < |SitemapEntries(menu)| ==> SitemapEntries(menu)[i].loc != SitemapEntries(menu)[j].loc
    ensures exists i :: 0 <= i < |SitemapEntries(menu)| && SitemapEntries(menu)[i].priority == "1.0"
    ensures forall i, j :: 0 <= i < j < |SitemapEntries(menu)| ==>
                             !(SitemapEntries(menu)[i].priority == "1.0" && SitemapEntries(menu)[j].priority == "1.0")
    ensures "/" !in Urls(menu) ==> SitemapEntries(menu)[0] == EntryFor("/")
  {
    var es := SitemapEntries(menu);
    forall url
      ensures (exists e :: e in es && e.loc == BaseUrl + url) <==> url == "/" || url in Urls(menu)
    {
      SitemapLocs(menu, url);
    }
    SitemapLocsDistinct(menu);
    SitemapOneTopPriority(menu);
    if "/" !in Urls(menu) {
      SitemapHomeFirst(menu);
    }
  }

  /**
   * The `sitemap` handler's body: collect the menu's links, add the home
   * page when missing, drop duplicates and serialise one entry per link.
   */
  method SitemapXml(menu: seq<MenuNode>) returns (xml: string)
    ensures xml == Document(SitemapEntries(menu))
    ensures StartsWith(xml, Header)
  {
    var urls := GetUrls(menu);
    if "/" !in urls {
      urls := ["/"] + urls;
    }
    var uniqueUrls := Unique(urls);
    xml := Document(EntriesFor(uniqueUrls));
  }
}
