/**
 * The logic inside the API sidebar: which link of a group matches the
 * current page, where the two indicators of the active group sit, which
 * link is marked active, and the anchor sub-links listed under it.
 * Rendering, styling and animation are not modelled; a rendered group is
 * described by the values the markup is built from.
 */
module Navigation {
  import opened Strings

  datatype Option<T> = None | Some(value: T)

  /** One entry of a navigation group. */
  datatype NavLink = NavLink(title: string, href: string)

  /** A titled group of links, in display order. */
  datatype NavGroup = NavGroup(title: string, links: seq<NavLink>)

  /** A table-of-contents entry of the displayed page. */
  datatype Section = Section(id: string, title: string, tag: Option<string>)

  /** An in-page link listed under the active link. */
  datatype AnchorLink = AnchorLink(href: string, title: string, tag: Option<string>)

  /** Style of the visible-section highlight band, in pixels. */
  datatype Highlight = Highlight(top: int, height: int)

  /** One link of a group as the sidebar shows it. `anchors` is the sub-list, present only when it is rendered. */
  datatype RenderedLink = RenderedLink(title: string, href: string, active: bool, anchors: Option<seq<AnchorLink>>)

  /** One group as the sidebar shows it: the two indicators are present only for the active group. */
  datatype RenderedGroup = RenderedGroup(
    title: string,
    highlight: Option<Highlight>,
    marker: Option<int>,
    links: seq<RenderedLink>)

  /** The internal route segment and its public spelling. */
  const InternalSegment: string := "ipa"
  const PublicSegment: string := "api"

  /** Routes whose pages list their table of contents under the active link. */
  const ResourcesRoute: string := "/ipa/resources"

  /** The highlight band's inset from the top of the list, `remToPx(0)`. */
  const HighlightInset: int := 0

  /** No two links of the sequence share an href. */
  predicate DistinctHrefs(links: seq<NavLink>) {
    forall i, j :: 0 <= i < j < |links| ==> links[i].href != links[j].href
  }

  /**
   * `links.findIndex(link => link.href === path)`: the least index whose href
   * equals `path` exactly, or -1 when none does.
   */
  function FindIndex(links: seq<NavLink>, path: string): (r: int)
    ensures -1 <= r < |links|
    ensures r >= 0 ==> links[r].href == path && forall j :: 0 <= j < r ==> links[j].href != path
    ensures r == -1 <==> forall j :: 0 <= j < |links| ==> links[j].href != path
  {
    if links == [] then -1
    else if links[0].href == path then 0
    else
      var k := FindIndex(links[1..], path);
      if k == -1 then -1 else k + 1
  }

  /**
   * `router.pathname.replace("ipa", "api")`. Both segments have three
   * characters, so the length of the pathname is kept.
   */
  function Normalise(pathname: string): (r: string)
    ensures |r| == |pathname|
  {
    ReplaceFirst(pathname, InternalSegment, PublicSegment)
  }

  /** A pathname without the internal segment is left as it is. */
  lemma NormaliseWithoutAlias(pathname: string)
    requires forall j :: !OccursAt(pathname, InternalSegment, j)
    ensures Normalise(pathname) == pathname
  {
    ReplaceFirstAbsent(pathname, InternalSegment, PublicSegment);
  }

  /** An internal `/ipa...` pathname becomes the public `/api...` one, the rest untouched. */
  lemma NormaliseAliasPrefix(rest: string)
    ensures Normalise("/ipa" + rest) == "/api" + rest
  {
    var s := "/ipa" + rest;
    assert s == "/" + InternalSegment + rest;
    forall j | 0 <= j < |"/"|
      ensures !OccursAt(s, InternalSegment, j)
    {
      assert s[0] == '/';
    }
    ReplaceFirstSplit(s, InternalSegment, PublicSegment, "/", rest);
  }

  /** A second occurrence of the internal segment survives normalisation. */
  lemma NormaliseKeepsSecondAlias(pathname: string, j: int)
    requires IndexOf(pathname, InternalSegment) != -1
    requires OccursAt(pathname, InternalSegment, j)
    requires j >= IndexOf(pathname, InternalSegment) + |InternalSegment|
    ensures OccursAt(Normalise(pathname), InternalSegment, j)
  {
    ReplaceFirstKeepsLater(pathname, InternalSegment, PublicSegment, j);
  }

  /** `isActiveGroup`: some link of the group has exactly the normalised pathname as href. */
  function IsActiveGroup(group: NavGroup, pathname: string): (b: bool)
    ensures b <==> exists j :: 0 <= j < |group.links| && group.links[j].href == Normalise(pathname)
  {
    FindIndex(group.links, Normalise(pathname)) != -1
  }

  /** `VisibleSectionHighlight`: one row high, at the row of the link matching `pathname`. */
  function HighlightStyle(group: NavGroup, pathname: string, rowHeight: int): (h: Highlight)
    ensures h.height == rowHeight
    ensures FindIndex(group.links, pathname) == -1 ==> h.top == -rowHeight
  {
    var activePageIndex := FindIndex(group.links, pathname);
    Highlight(HighlightInset + activePageIndex * rowHeight, rowHeight)
  }

  /** `ActivePageMarker`: its top sits `inset` below the highlight band's top for the same link. */
  function MarkerTop(group: NavGroup, pathname: string, rowHeight: int, inset: int): (top: int)
    ensures top == HighlightStyle(group, pathname, rowHeight).top + inset
  {
    var activePageIndex := FindIndex(group.links, pathname);
    inset + activePageIndex * rowHeight
  }

  /**
   * The rows of the indicators follow the order of the links: for a link
   * further down the group, the highlight and the marker each move down by at
   * least one row height. With a non-negative inset, the later link's marker
   * also starts at or below the bottom of the earlier link's highlight band.
   */
  lemma IndicatorsFollowLinkOrder(group: NavGroup, p: string, q: string, rowHeight: int, inset: int)
    requires rowHeight > 0
    requires 0 <= FindIndex(group.links, p) < FindIndex(group.links, q)
    ensures HighlightStyle(group, p, rowHeight).top + rowHeight <= HighlightStyle(group, q, rowHeight).top
    ensures MarkerTop(group, p, rowHeight, inset) + rowHeight <= MarkerTop(group, q, rowHeight, inset)
    ensures inset >= 0 ==> HighlightStyle(group, p, rowHeight).top + rowHeight <= MarkerTop(group, q, rowHeight, inset)
  {
    RowsAdvance(FindIndex(group.links, p), FindIndex(group.links, q), rowHeight);
  }

  /** A later row starts at least one row height further down. */
  lemma {:induction false} RowsAdvance(i: int, j: int, rowHeight: int)
    requires i < j && rowHeight > 0
    ensures i * rowHeight + rowHeight <= j * rowHeight
    decreases j - i
  {
    assert j * rowHeight == (j - 1) * rowHeight + rowHeight;
    if i < j - 1 {
      RowsAdvance(i, j - 1, rowHeight);
    }
  }

  /** The `#`-separated href of the anchor link for `section` under `base`. */
  function AnchorHref(base: string, section: Section): string {
    base + "#" + section.id
  }

  /** `tableOfContents.map(section => <NavLink href={`${base}#${section.id}`} ...>)`. */
  function AnchorLinks(base: string, sections: seq<Section>): (r: seq<AnchorLink>)
    ensures |r| == |sections|
    ensures forall k :: 0 <= k < |r| ==>
      r[k].href == AnchorHref(base, sections[k]) && r[k].title == sections[k].title && r[k].tag == sections[k].tag
  {
    if sections == [] then []
    else
      [AnchorLink(AnchorHref(base, sections[0]), sections[0].title, sections[0].tag)]
      + AnchorLinks(base, sections[1..])
  }

  /** The section id an anchor href under `base` points at, if it is one. */
  function AnchorTarget(base: string, href: string): (id: Option<string>)
    ensures id.Some? ==> href == base + "#" + id.value
  {
    if StartsWith(href, base + "#") then Some(href[|base| + 1..]) else None
  }

  /** Every anchor link leads back to the id of the section it was made for. */
  lemma AnchorTargetRoundTrip(base: string, sections: seq<Section>, k: int)
    requires 0 <= k < |sections|
    ensures AnchorTarget(base, AnchorLinks(base, sections)[k].href) == Some(sections[k].id)
  {
    var href := AnchorLinks(base, sections)[k].href;
    assert href == (base + "#") + sections[k].id;
    assert href[..|base + "#"|] == base + "#";
  }

  /** Anchor hrefs under one link are distinct exactly when the section ids are. */
  lemma AnchorHrefsDistinct(base: string, sections: seq<Section>)
    ensures (forall i, j :: 0 <= i < j < |sections| ==> sections[i].id != sections[j].id)
        <==> (forall i, j :: 0 <= i < j < |sections| ==>
                AnchorLinks(base, sections)[i].href != AnchorLinks(base, sections)[j].href)
  {
    var r := AnchorLinks(base, sections);
    forall i, j | 0 <= i < j < |sections|
      ensures sections[i].id != sections[j].id <==> r[i].href != r[j].href
    {
      AnchorTargetRoundTrip(base, sections, i);
      AnchorTargetRoundTrip(base, sections, j);
    }
  }

  /**
   * The contents of the sub-list under the active link: the anchor links,
   * when the route is a resources route and a table of contents is given,
   * and nothing otherwise.
   */
  function SubList(base: string, route: string, tableOfContents: Option<seq<Section>>): (r: seq<AnchorLink>)
    ensures r != [] ==> StartsWith(route, ResourcesRoute) && tableOfContents.Some?
    ensures StartsWith(route, ResourcesRoute) && tableOfContents.Some? ==> r == AnchorLinks(base, tableOfContents.value)
  {
    if StartsWith(route, ResourcesRoute) && tableOfContents.Some? then AnchorLinks(base, tableOfContents.value)
    else []
  }

  /** One `<motion.li>` of a group's list. */
  function RenderLink(link: NavLink, pathname: string, route: string, tableOfContents: Option<seq<Section>>): (r: RenderedLink)
    ensures r.title == link.title && r.href == link.href
    ensures r.active <==> link.href == Normalise(pathname)
    ensures r.anchors.Some? <==> r.active
    ensures r.anchors.Some? && r.anchors.value != [] ==> StartsWith(route, ResourcesRoute) && tableOfContents.Some?
  {
    var active := link.href == Normalise(pathname);
    RenderedLink(link.title, link.href, active,
      if active then Some(SubList(link.href, route, tableOfContents)) else None)
  }

  /** `NavigationGroup`: the group's title, its two indicators and its links. */
  function RenderGroup(group: NavGroup, pathname: string, route: string, tableOfContents: Option<seq<Section>>,
                       rowHeight: int, inset: int): (g: RenderedGroup)
    ensures g.title == group.title
    ensures |g.links| == |group.links|
    ensures forall k :: 0 <= k < |g.links| ==>
      g.links[k].title == group.links[k].title && g.links[k].href == group.links[k].href
  {
    var path := Normalise(pathname);
    var isActiveGroup := IsActiveGroup(group, pathname);
    RenderedGroup(
      group.title,
      if isActiveGroup then Some(HighlightStyle(group, path, rowHeight)) else None,
      if isActiveGroup then Some(MarkerTop(group, path, rowHeight, inset)) else None,
      seq(|group.links|, k requires 0 <= k < |group.links| => RenderLink(group.links[k], pathname, route, tableOfContents)))
  }

  /**
   * The indicators are shown exactly for an active group, and then at the
   * row of a link whose href is the normalised pathname, never at index -1.
   */
  lemma IndicatorsOnlyAtMatchingRow(group: NavGroup, pathname: string, route: string,
                                    tableOfContents: Option<seq<Section>>, rowHeight: int, inset: int)
    ensures var g := RenderGroup(group, pathname, route, tableOfContents, rowHeight, inset);
      && (g.highlight.Some? <==> IsActiveGroup(group, pathname))
      && (g.marker.Some? <==> IsActiveGroup(group, pathname))
      && (g.highlight.Some? ==>
            exists i :: 0 <= i < |group.links| && group.links[i].href == Normalise(pathname)
              && g.highlight.value == Highlight(i * rowHeight, rowHeight)
              && g.marker.value == inset + i * rowHeight)
  {
  }

  /**
   * In a group whose hrefs are distinct, a link is marked active exactly
   * when it is the one at the active index: at most one link is active.
   */
  lemma ActiveLinkIsAtActiveIndex(group: NavGroup, pathname: string, route: string,
                                  tableOfContents: Option<seq<Section>>, rowHeight: int, inset: int)
    requires DistinctHrefs(group.links)
    ensures var g := RenderGroup(group, pathname, route, tableOfContents, rowHeight, inset);
      forall k :: 0 <= k < |g.links| ==>
        (g.links[k].active <==> k == FindIndex(group.links, Normalise(pathname)))
  {
  }

  /**
   * Anchor sub-links appear only under an active link, only for a resources
   * route with a table of contents, one per section in section order, each
   * pointing at `link.href#section.id`.
   */
  lemma AnchorsOnlyUnderActiveLink(group: NavGroup, pathname: string, route: string,
                                   tableOfContents: Option<seq<Section>>, rowHeight: int, inset: int, k: int)
    requires 0 <= k < |group.links|
    ensures var l := RenderGroup(group, pathname, route, tableOfContents, rowHeight, inset).links[k];
      && (l.anchors.Some? <==> group.links[k].href == Normalise(pathname))
      && (l.anchors.Some? && l.anchors.value != [] ==>
            StartsWith(route, ResourcesRoute) && tableOfContents.Some?)
      && (l.anchors.Some? && StartsWith(route, ResourcesRoute) && tableOfContents.Some? ==>
            |l.anchors.value| == |tableOfContents.value|
            && forall s :: 0 <= s < |l.anchors.value| ==>
                 l.anchors.value[s].href == group.links[k].href + "#" + tableOfContents.value[s].id)
  {
  }

  /** Every link of the tree, group after group. */
  function AllLinks(tree: seq<NavGroup>): (r: seq<NavLink>)
    ensures forall g, k :: 0 <= g < |tree| && 0 <= k < |tree[g].links| ==> tree[g].links[k] in r
    ensures forall l :: l in r ==> exists g, k :: 0 <= g < |tree| && 0 <= k < |tree[g].links| && tree[g].links[k] == l
  {
    if tree == [] then []
    else
      var rest := AllLinks(tree[1..]);
      assert forall l :: l in rest ==> exists g, k :: 1 <= g < |tree| && 0 <= k < |tree[g].links| && tree[g].links[k] == l;
      tree[0].links + rest
  }

  /** No href appears twice anywhere in the tree. */
  predicate TreeHrefsDistinct(tree: seq<NavGroup>) {
    && (forall g :: 0 <= g < |tree| ==> DistinctHrefs(tree[g].links))
    && (forall g, h, k, l :: 0 <= g < h < |tree| && 0 <= k < |tree[g].links| && 0 <= l < |tree[h].links| ==>
          tree[g].links[k].href != tree[h].links[l].href)
  }

  /** `tree.map(group => <NavigationGroup group={group} ... />)`. */
  function RenderGroups(tree: seq<NavGroup>, pathname: string, route: string, tableOfContents: Option<seq<Section>>,
                        rowHeight: int, inset: int): (r: seq<RenderedGroup>)
    ensures |r| == |tree|
    ensures forall g :: 0 <= g < |r| ==> r[g].title == tree[g].title && |r[g].links| == |tree[g].links|
  {
    seq(|tree|, g requires 0 <= g < |tree| => RenderGroup(tree[g], pathname, route, tableOfContents, rowHeight, inset))
  }

  /** The group at position `g` of the rendered tree is `tree[g]` rendered; it is active when that group is. */
  lemma RenderGroupsAt(tree: seq<NavGroup>, pathname: string, route: string,
                       tableOfContents: Option<seq<Section>>, rowHeight: int, inset: int, g: int)
    requires 0 <= g < |tree|
    ensures var r := RenderGroups(tree, pathname, route, tableOfContents, rowHeight, inset);
      && |r| == |tree|
      && r[g] == RenderGroup(tree[g], pathname, route, tableOfContents, rowHeight, inset)
      && (r[g].highlight.Some? <==> IsActiveGroup(tree[g], pathname))
  {
  }

  /** The indicators of the group at position `g`: absent when no link matches, else at the active index's row. */
  lemma GroupIndicatorsAt(tree: seq<NavGroup>, pathname: string, route: string,
                          tableOfContents: Option<seq<Section>>, rowHeight: int, inset: int, g: int, i: int)
    requires 0 <= g < |tree|
    requires FindIndex(tree[g].links, Normalise(pathname)) == i
    ensures var r := RenderGroups(tree, pathname, route, tableOfContents, rowHeight, inset);
      && |r| == |tree|
      && (i == -1 ==> r[g].highlight == None && r[g].marker == None)
      && (i >= 0 ==> r[g].highlight == Some(Highlight(i * rowHeight, rowHeight))
                     && r[g].marker == Some(inset + i * rowHeight))
  {
    RenderGroupsAt(tree, pathname, route, tableOfContents, rowHeight, inset, g);
  }

  /** The link at position `k` of group `g` lists the sub-list exactly when its href is the normalised pathname. */
  lemma LinkAnchorsAt(tree: seq<NavGroup>, pathname: string, route: string,
                      tableOfContents: Option<seq<Section>>, rowHeight: int, inset: int, g: int, k: int)
    requires 0 <= g < |tree| && 0 <= k < |tree[g].links|
    ensures var r := RenderGroups(tree, pathname, route, tableOfContents, rowHeight, inset);
      var link := tree[g].links[k];
      && |r| == |tree| && |r[g].links| == |tree[g].links|
      && r[g].links[k].active == (link.href == Normalise(pathname))
      && r[g].links[k].anchors
           == if link.href == Normalise(pathname) then Some(SubList(link.href, route, tableOfContents)) else None
  {
    RenderGroupsAt(tree, pathname, route, tableOfContents, rowHeight, inset, g);
  }

  /** With hrefs distinct across the tree, at most one group shows the indicators. */
  lemma AtMostOneActiveGroup(tree: seq<NavGroup>, pathname: string, route: string,
                             tableOfContents: Option<seq<Section>>, rowHeight: int, inset: int)
    requires TreeHrefsDistinct(tree)
    ensures var r := RenderGroups(tree, pathname, route, tableOfContents, rowHeight, inset);
      forall g, h :: 0 <= g < |r| && 0 <= h < |r| && r[g].highlight.Some? && r[h].highlight.Some? ==> g == h
  {
  }

  /** Some group shows the indicators exactly when some link of the tree has the normalised pathname as href. */
  lemma SomeGroupActiveIffLinked(tree: seq<NavGroup>, pathname: string, route: string,
                                 tableOfContents: Option<seq<Section>>, rowHeight: int, inset: int)
    ensures var r := RenderGroups(tree, pathname, route, tableOfContents, rowHeight, inset);
      (exists g :: 0 <= g < |r| && r[g].highlight.Some?)
        <==> (exists l :: l in AllLinks(tree) && l.href == Normalise(pathname))
  {
    var r := RenderGroups(tree, pathname, route, tableOfContents, rowHeight, inset);
    var path := Normalise(pathname);
    if exists g :: 0 <= g < |r| && r[g].highlight.Some? {
      var g :| 0 <= g < |r| && r[g].highlight.Some?;
      RenderGroupsAt(tree, pathname, route, tableOfContents, rowHeight, inset, g);
      assert IsActiveGroup(tree[g], pathname);
      var k :| 0 <= k < |tree[g].links| && tree[g].links[k].href == path;
      assert tree[g].links[k] in AllLinks(tree);
    }
    if exists l :: l in AllLinks(tree) && l.href == path {
      var l :| l in AllLinks(tree) && l.href == path;
      var g, k :| 0 <= g < |tree| && 0 <= k < |tree[g].links| && tree[g].links[k] == l;
      RenderGroupsAt(tree, pathname, route, tableOfContents, rowHeight, inset, g);
      assert IsActiveGroup(tree[g], pathname);
      assert r[g].highlight.Some?;
    }
  }
}
