/**
 * The API sidebar's static navigation tree, the sidebar that renders every
 * group of it, and the facts about the tree the rendering relies on.
 */
module ApiNavigation {
  import opened Strings
  import opened Navigation

  /** `apiNavigation`: the groups of the API sidebar, in display order. */
  const apiNavigation: seq<NavGroup> := [
    NavGroup("Guides", [
      NavLink("Quickstart", "/api/guides/quickstart"),
      NavLink("Authentication", "/api/guides/authentication"),
      NavLink("Errors", "/api/guides/errors")
    ]),
    NavGroup("Resources", [
      NavLink("Accounts", "/api/resources/accounts"),
      NavLink("Users", "/api/resources/users"),
      NavLink("Tokens", "/api/resources/tokens"),
      NavLink("Peers", "/api/resources/peers"),
      NavLink("Setup Keys", "/api/resources/setup-keys"),
      NavLink("Groups", "/api/resources/groups"),
      NavLink("Rules", "/api/resources/rules"),
      NavLink("Policies", "/api/resources/policies"),
      NavLink("Routes", "/api/resources/routes"),
      NavLink("DNS", "/api/resources/dns"),
      NavLink("Events", "/api/resources/events")
    ])
  ]

  /** `NavigationAPI`: one rendered group per group of `apiNavigation`, in order. */
  function Sidebar(pathname: string, route: string, tableOfContents: Option<seq<Section>>,
                   rowHeight: int, inset: int): (r: seq<RenderedGroup>)
    ensures |r| == |apiNavigation| == 2
    ensures forall g :: 0 <= g < |r| ==> r[g].title == apiNavigation[g].title
  {
    RenderGroups(apiNavigation, pathname, route, tableOfContents, rowHeight, inset)
  }

  /** Group titles are used as keys, so no two groups share one. */
  lemma ApiGroupTitlesDistinct()
    ensures forall g, h :: 0 <= g < h < |apiNavigation| ==> apiNavigation[g].title != apiNavigation[h].title
  {
  }

  /** Hrefs are used as keys, so no two links of the tree share one. */
  lemma ApiHrefsDistinct()
    ensures TreeHrefsDistinct(apiNavigation)
  {
    GuidesHrefsDistinct();
    ResourcesHrefsDistinct();
    var guides, resources := apiNavigation[0].links, apiNavigation[1].links;
    forall k, l | 0 <= k < |guides| && 0 <= l < |resources|
      ensures guides[k].href != resources[l].href
    {
      assert guides[k].href[5] == 'g' && resources[l].href[5] == 'r';
    }
  }

  lemma GuidesHrefsDistinct()
    ensures DistinctHrefs(apiNavigation[0].links)
  {
  }

  /** The Resources hrefs already differ in the two characters after `/api/resources/`. */
  lemma ResourcesHrefsDistinct()
    ensures DistinctHrefs(apiNavigation[1].links)
  {
    var links := apiNavigation[1].links;
    forall i, j | 0 <= i < j < |links|
      ensures links[i].href != links[j].href
    {
      assert |links[i].href| > 16 && |links[j].href| > 16;
      assert links[i].href[15] != links[j].href[15] || links[i].href[16] != links[j].href[16];
    }
  }

  /** Every link of the tree points into the public `/api/` space. */
  lemma ApiHrefsArePublic()
    ensures forall g, k :: 0 <= g < |apiNavigation| && 0 <= k < |apiNavigation[g].links| ==>
      StartsWith(apiNavigation[g].links[k].href, "/api/")
  {
  }

  /** In the API sidebar at most one group shows the indicators. */
  lemma SidebarAtMostOneActiveGroup(pathname: string, route: string, tableOfContents: Option<seq<Section>>,
                                    rowHeight: int, inset: int)
    ensures var r := Sidebar(pathname, route, tableOfContents, rowHeight, inset);
      forall g, h :: 0 <= g < |r| && 0 <= h < |r| && r[g].highlight.Some? && r[h].highlight.Some? ==> g == h
  {
    ApiHrefsDistinct();
    AtMostOneActiveGroup(apiNavigation, pathname, route, tableOfContents, rowHeight, inset);
  }

  /** The internal pathname of the Users resource page, and its table of contents, used in the scenario below. */
  const UsersPathname: string := "/ipa/resources/users"
  const UsersToc: seq<Section> := [Section("list", "List all Users", None), Section("update", "Update a User", Some("PUT"))]

  /** The internal pathname of the Users resource page normalises to the Users link's href. */
  lemma UsersPagePath()
    ensures Normalise(UsersPathname) == "/api/resources/users"
  {
    UsersPagePathSplits();
    NormaliseAliasPrefix("/resources/users");
  }

  lemma UsersPagePathSplits()
    ensures UsersPathname == "/ipa" + "/resources/users"
    ensures "/api/resources/users" == "/api" + "/resources/users"
  {
  }

  /** The Users href is the second link of the Resources group and absent from the Guides group. */
  lemma UsersLinkPosition()
    ensures FindIndex(apiNavigation[0].links, "/api/resources/users") == -1
    ensures FindIndex(apiNavigation[1].links, "/api/resources/users") == 1
  {
  }

  /**
   * On the internal page of the Users resource, the Resources group is the
   * active one and its indicators sit on its second row.
   */
  lemma UsersPageIndicators(rowHeight: int, inset: int)
    ensures var r := Sidebar(UsersPathname, UsersPathname, Some(UsersToc), rowHeight, inset);
      && |r| == 2
      && r[0].highlight == None && r[0].marker == None
      && r[1].highlight == Some(Highlight(rowHeight, rowHeight))
      && r[1].marker == Some(inset + rowHeight)
  {
    UsersPagePath();
    UsersLinkGuidesIndicators(UsersPathname, UsersPathname, Some(UsersToc), rowHeight, inset);
    UsersLinkResourcesIndicators(UsersPathname, UsersPathname, Some(UsersToc), rowHeight, inset);
  }

  /** Any pathname that normalises to the Users href leaves the Guides group without indicators ... */
  lemma UsersLinkGuidesIndicators(pathname: string, route: string, tableOfContents: Option<seq<Section>>,
                                  rowHeight: int, inset: int)
    requires Normalise(pathname) == "/api/resources/users"
    ensures var r := Sidebar(pathname, route, tableOfContents, rowHeight, inset);
      |r| == 2 && r[0].highlight == None && r[0].marker == None
  {
    UsersLinkPosition();
    SidebarIndicatorsAt(pathname, route, tableOfContents, rowHeight, inset, 0, -1);
  }

  /** ... and puts the Resources indicators on its second row. */
  lemma UsersLinkResourcesIndicators(pathname: string, route: string, tableOfContents: Option<seq<Section>>,
                                     rowHeight: int, inset: int)
    requires Normalise(pathname) == "/api/resources/users"
    ensures var r := Sidebar(pathname, route, tableOfContents, rowHeight, inset);
      |r| == 2 && r[1].highlight == Some(Highlight(rowHeight, rowHeight)) && r[1].marker == Some(inset + rowHeight)
  {
    UsersLinkPosition();
    SidebarIndicatorsAt(pathname, route, tableOfContents, rowHeight, inset, 1, 1);
    SecondRowMarker(inset, rowHeight);
  }

  /** The marker of the second row, with the row index multiplied out. */
  lemma SecondRowMarker(inset: int, rowHeight: int)
    ensures Some(inset + 1 * rowHeight) == Some(inset + rowHeight)
  {
  }

  /** In the sidebar, group `g` shows its indicators at row `i` when `i` is its active index, and none when it is -1. */
  lemma SidebarIndicatorsAt(pathname: string, route: string, tableOfContents: Option<seq<Section>>,
                            rowHeight: int, inset: int, g: int, i: int)
    requires 0 <= g < |apiNavigation|
    requires FindIndex(apiNavigation[g].links, Normalise(pathname)) == i
    ensures var r := Sidebar(pathname, route, tableOfContents, rowHeight, inset);
      && |r| == |apiNavigation|
      && (i == -1 ==> r[g].highlight == None && r[g].marker == None)
      && (i >= 0 ==> r[g].highlight == Some(Highlight(i * rowHeight, rowHeight))
                     && r[g].marker == Some(inset + i * rowHeight))
  {
    GroupIndicatorsAt(apiNavigation, pathname, route, tableOfContents, rowHeight, inset, g, i);
  }

  /** On that page only the Users link of the Resources group is active. */
  lemma UsersPageActiveLink(rowHeight: int, inset: int)
    ensures var g := Sidebar(UsersPathname, UsersPathname, Some(UsersToc), rowHeight, inset)[1];
      forall k :: 0 <= k < |g.links| ==> (g.links[k].active <==> k == 1)
  {
    var p := UsersPathname;
    UsersPagePath();
    UsersLinkPosition();
    RenderGroupsAt(apiNavigation, p, p, Some(UsersToc), rowHeight, inset, 1);
    ResourcesHrefsDistinct();
    ActiveLinkIsAtActiveIndex(apiNavigation[1], p, p, Some(UsersToc), rowHeight, inset);
  }

  /** The Users link lists the page's sections as anchors, in order. */
  lemma UsersPageAnchors(rowHeight: int, inset: int)
    ensures var g := Sidebar(UsersPathname, UsersPathname, Some(UsersToc), rowHeight, inset)[1];
      g.links[1].anchors == Some([
        AnchorLink("/api/resources/users#list", "List all Users", None),
        AnchorLink("/api/resources/users#update", "Update a User", Some("PUT"))])
  {
    var p := UsersPathname;
    UsersPagePath();
    UsersRouteIsResources();
    SidebarAnchorsAt(p, p, Some(UsersToc), rowHeight, inset, 1, 1);
    UsersAnchorList();
  }

  lemma UsersRouteIsResources()
    ensures StartsWith(UsersPathname, ResourcesRoute)
    ensures apiNavigation[1].links[1].href == "/api/resources/users"
  {
  }

  /** In the sidebar, the active link on a resources route with a table of contents lists its anchor links. */
  lemma SidebarAnchorsAt(pathname: string, route: string, tableOfContents: Option<seq<Section>>,
                         rowHeight: int, inset: int, g: int, k: int)
    requires 0 <= g < |apiNavigation| && 0 <= k < |apiNavigation[g].links|
    requires apiNavigation[g].links[k].href == Normalise(pathname)
    requires StartsWith(route, ResourcesRoute) && tableOfContents.Some?
    ensures Sidebar(pathname, route, tableOfContents, rowHeight, inset)[g].links[k].anchors
      == Some(AnchorLinks(apiNavigation[g].links[k].href, tableOfContents.value))
  {
    LinkAnchorsAt(apiNavigation, pathname, route, tableOfContents, rowHeight, inset, g, k);
  }

  /** The anchor links made from the Users page's table of contents. */
  lemma UsersAnchorList()
    ensures AnchorLinks("/api/resources/users", UsersToc) == [
      AnchorLink("/api/resources/users#list", "List all Users", None),
      AnchorLink("/api/resources/users#update", "Update a User", Some("PUT"))]
  {
    var anchors := AnchorLinks("/api/resources/users", UsersToc);
    UsersAnchorHrefs();
    assert anchors[0] == AnchorLink("/api/resources/users#list", "List all Users", None);
    assert anchors[1] == AnchorLink("/api/resources/users#update", "Update a User", Some("PUT"));
    assert anchors == [anchors[0], anchors[1]];
  }

  lemma UsersAnchorHrefs()
    ensures AnchorHref("/api/resources/users", UsersToc[0]) == "/api/resources/users#list"
    ensures AnchorHref("/api/resources/users", UsersToc[1]) == "/api/resources/users#update"
  {
  }

  /** A path that no link has leaves every group without either indicator. */
  lemma UnknownPathScenario(rowHeight: int, inset: int)
    ensures forall g :: 0 <= g < |apiNavigation| ==>
      && Sidebar("/unknown", "/unknown", None, rowHeight, inset)[g].highlight == None
      && Sidebar("/unknown", "/unknown", None, rowHeight, inset)[g].marker == None
  {
    var s := "/unknown";
    AbsentWithoutFirstChar(s, InternalSegment);
    NormaliseWithoutAlias(s);
    ApiHrefsArePublic();
    forall g | 0 <= g < |apiNavigation|
      ensures Sidebar(s, s, None, rowHeight, inset)[g].highlight == None
      ensures Sidebar(s, s, None, rowHeight, inset)[g].marker == None
    {
      forall k | 0 <= k < |apiNavigation[g].links|
        ensures apiNavigation[g].links[k].href != s
      {
        assert StartsWith(apiNavigation[g].links[k].href, "/api/");
        assert apiNavigation[g].links[k].href[1] == 'a';
      }
      GroupIndicatorsAt(apiNavigation, s, s, None, rowHeight, inset, g, -1);
    }
  }
}
