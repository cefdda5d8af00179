# API sidebar navigation — a Dafny model

This project models the logic inside the API documentation sidebar
(`src/components/NavigationAPI.jsx`). The markup is left out. What remains:

- the static navigation tree `apiNavigation`: two groups, "Guides" and
  "Resources", each an ordered list of links with a title and an href;
- path normalisation `pathname.replace("ipa", "api")`. JavaScript's `replace`
  with a string pattern rewrites only the first occurrence, so the model has a
  `ReplaceFirst`;
- active-route resolution `links.findIndex(link => link.href === path)`: the
  first link whose href equals the normalised path exactly, or -1. A group is
  active when that index is not -1. A link is active when its href equals the
  normalised path;
- the tops of the two indicators of the active group. The highlight band is at
  `0 + i*H` and one row high. The active-page marker is at `inset + i*H`;
- the anchor sub-list under the active link. When the route starts with
  `/ipa/resources` and a table of contents is given, it holds one link per
  section, in section order, with href `link.href + "#" + section.id`.

All of this is pure. Everything is a Dafny function over sequences and strings.
A rendered group is described by the values its markup is built from
(`RenderedGroup`, `RenderedLink`), and lemmas state the properties.

Modules:

- `Strings` (`strings.dfy`): `startsWith`, `indexOf` and the first-occurrence
  `replace`.
- `Navigation` (`navigation.dfy`): the data types, `FindIndex`, normalisation,
  group activity, indicator positions, anchor links, and the rendering of one
  group and of a whole tree.
- `ApiNavigation` (`api_navigation.dfy`): the `apiNavigation` constant, the
  sidebar over it, facts about the data, and two worked pages.

Three points about what the code does:

- `VisibleSectionHighlight` is always one row high (`remToPx(2)`) at
  `0 + i*H`, and it reads no section state.
- Each `NavigationGroup` decides for itself whether it is active.
  `AtMostOneActiveGroup` proves that at most one group is active when hrefs are
  distinct across the tree. `ApiHrefsDistinct` proves that `apiNavigation` has
  distinct hrefs.
- The rewrite replaces the first `ipa` anywhere in the pathname, not only a
  leading path segment.

Row height `H` and marker inset come from `remToPx(2)` and `remToPx(0.25)`. The
model takes them as integer parameters, `rowHeight` and `inset`. The highlight's
inset, `remToPx(0)`, is the constant 0. The router's `pathname` and `route` are
string parameters. The table of contents is an `Option<seq<Section>>`, where
`None` stands for an absent `tableOfContents`.

## Model

| member | source | states |
|---|---|---|
| `Strings.StartsWith` | src/components/NavigationAPI.jsx:186 | `startsWith(prefix)` holds exactly when `prefix` is no longer than the string and matches it character by character from position 0 |
| `Strings.StartsWithConcat` | src/components/NavigationAPI.jsx:186 | `startsWith(prefix)` holds exactly when the string is `prefix` followed by some rest |
| `Strings.IndexFrom` | src/components/NavigationAPI.jsx:141 | the result is -1 exactly when the pattern occurs nowhere at or after `from`; otherwise it is an occurrence with no earlier one from `from` |
| `Strings.IndexOf` | src/components/NavigationAPI.jsx:141 | the least position where the pattern occurs, or -1 exactly when it occurs nowhere (how `replace` finds what to rewrite) |
| `Strings.ReplaceFirst` | src/components/NavigationAPI.jsx:141 | `replace` with a string pattern: with no occurrence the string is unchanged; otherwise, at the first occurrence, the part before it is kept, `rep` stands where the pattern was, the part after it follows, and the length changes by `|rep| - |pat|` |
| `Strings.ReplaceFirstAbsent` | src/components/NavigationAPI.jsx:141 | a string without the pattern comes back from `replace` unchanged |
| `Strings.ReplaceFirstSplit` | src/components/NavigationAPI.jsx:141 | if `s = pre + pat + post` and `pat` does not occur before `|pre|`, `replace` gives `pre + rep + post`: only the first occurrence is rewritten |
| `Strings.ReplaceFirstKeepsLater` | src/components/NavigationAPI.jsx:141 | a later occurrence that does not overlap the first one survives `replace`, shifted by the change in length |
| `Navigation.FindIndex` | src/components/NavigationAPI.jsx:104 | `findIndex` by exact href equality: the result is in `[-1, |links|)`; if it is non-negative, that link's href equals the path and no earlier one does; it is -1 exactly when no href equals the path (no prefix or trailing-slash matching) |
| `Navigation.Normalise` | src/components/NavigationAPI.jsx:141 | the normalised pathname has the pathname's length, since `ipa` and `api` are both three characters; `NormaliseWithoutAlias`, `NormaliseAliasPrefix` and `NormaliseKeepsSecondAlias` state what it does to the characters |
| `Navigation.NormaliseWithoutAlias` | src/components/NavigationAPI.jsx:141 | a pathname without `ipa` is left as it is by `replace("ipa", "api")` |
| `Navigation.NormaliseAliasPrefix` | src/components/NavigationAPI.jsx:154 | an internal pathname `/ipa` + rest normalises to `/api` + rest |
| `Navigation.NormaliseKeepsSecondAlias` | src/components/NavigationAPI.jsx:163 | a second, non-overlapping `ipa` in the pathname is still there after normalisation |
| `Navigation.IsActiveGroup` | src/components/NavigationAPI.jsx:140-141 | a group is active exactly when some link in it has the normalised pathname as its href |
| `Navigation.HighlightStyle` | src/components/NavigationAPI.jsx:101-105 | the highlight band is one row high; with no matching link its top would be `-H` (index -1) |
| `Navigation.MarkerTop` | src/components/NavigationAPI.jsx:119-123 | the marker's top is the highlight band's top for the same link, moved down by `inset` |
| `Navigation.IndicatorsFollowLinkOrder` | src/components/NavigationAPI.jsx:102-123 | for `H > 0`, the highlight and the marker each move down by at least `H` for a link further down the group; with `inset >= 0`, the later link's marker also starts at or below the bottom of the earlier link's highlight band |
| `Navigation.AnchorLinks` | src/components/NavigationAPI.jsx:186-189 | one anchor link per section, in section order, with href `base#id` and the section's title and tag |
| `Navigation.AnchorTarget` | src/components/NavigationAPI.jsx:189 | the section id recovered from an anchor href: if there is one, the href is `base#id` |
| `Navigation.AnchorTargetRoundTrip` | src/components/NavigationAPI.jsx:186-189 | each anchor link's href leads back to its own section's id |
| `Navigation.AnchorHrefsDistinct` | src/components/NavigationAPI.jsx:187-189 | anchor hrefs under one link are pairwise distinct exactly when the section ids (the list keys) are |
| `Navigation.SubList` | src/components/NavigationAPI.jsx:186 | the sub-list is non-empty only when the route starts with `/ipa/resources` and a table of contents is present; in that case it is exactly the anchor links of the table of contents |
| `Navigation.RenderLink` | src/components/NavigationAPI.jsx:167-199 | a rendered link keeps its title and href; it is active exactly when its href equals the normalised pathname; it carries a sub-list exactly when it is active, and a non-empty one only on a resources route with a table of contents |
| `Navigation.RenderGroup` | src/components/NavigationAPI.jsx:137-206 | a rendered group keeps the group's title and has one entry per link, in order, each with that link's title and href |
| `Navigation.IndicatorsOnlyAtMatchingRow` | src/components/NavigationAPI.jsx:140-164 | the highlight and the marker are shown exactly when the group is active. Both then use the same normalised pathname, so they sit at row `i` with `0 <= i < |links|` and `links[i].href` equal to that pathname, never at -1 |
| `Navigation.ActiveLinkIsAtActiveIndex` | src/components/NavigationAPI.jsx:167-173 | in a group with distinct hrefs, a link is marked active exactly when it is at the active index, so at most one link is active |
| `Navigation.AnchorsOnlyUnderActiveLink` | src/components/NavigationAPI.jsx:172-196 | a link has a sub-list exactly when it is active. The sub-list is non-empty only for a resources route with a table of contents. It then has one anchor per section, in order, with href `link.href#section.id` |
| `Navigation.RenderGroups` | src/components/NavigationAPI.jsx:48-55 | one rendered group per group of the tree, in order, with the group's title and one entry per link |
| `Navigation.GroupIndicatorsAt` | src/components/NavigationAPI.jsx:153-164 | in a rendered tree, a group with no matching link has neither indicator; otherwise the highlight is at `i*H` with height `H` and the marker at `inset + i*H`, for the active index `i` |
| `Navigation.LinkAnchorsAt` | src/components/NavigationAPI.jsx:167-199 | in a rendered tree, a link is active and carries the sub-list exactly when its href is the normalised pathname |
| `Navigation.AtMostOneActiveGroup` | src/components/NavigationAPI.jsx:48-55 | when hrefs are distinct across the tree, at most one rendered group shows the indicators |
| `Navigation.SomeGroupActiveIffLinked` | src/components/NavigationAPI.jsx:48-55 | some group shows the indicators exactly when some link of the tree has the normalised pathname as its href |
| `ApiNavigation.Sidebar` | src/components/NavigationAPI.jsx:38-64 | the API sidebar renders the two groups of `apiNavigation`, in order and with their titles |
| `ApiNavigation.ApiGroupTitlesDistinct` | src/components/NavigationAPI.jsx:10-36 | the group titles of `apiNavigation`, used as keys, are pairwise distinct |
| `ApiNavigation.ApiHrefsDistinct` | src/components/NavigationAPI.jsx:10-36 | no href appears twice in `apiNavigation`, within a group or across groups (hrefs are used as keys) |
| `ApiNavigation.ResourcesHrefsDistinct` | src/components/NavigationAPI.jsx:20-35 | the eleven Resources hrefs are pairwise distinct |
| `ApiNavigation.ApiHrefsArePublic` | src/components/NavigationAPI.jsx:10-36 | every href of `apiNavigation` starts with `/api/` |
| `ApiNavigation.SidebarAtMostOneActiveGroup` | src/components/NavigationAPI.jsx:48-55 | in the API sidebar, at most one group shows the indicators for any pathname |
| `ApiNavigation.SidebarIndicatorsAt` | src/components/NavigationAPI.jsx:153-164 | in the API sidebar, a group whose active index is -1 shows neither indicator; otherwise its highlight is at `i*H` with height `H` and its marker at `inset + i*H` |
| `ApiNavigation.SidebarAnchorsAt` | src/components/NavigationAPI.jsx:173-189 | in the API sidebar, a link whose href is the normalised pathname, on a resources route with a table of contents, lists exactly the anchor links of that table of contents |
| `ApiNavigation.UsersPagePath` | src/components/NavigationAPI.jsx:141 | the internal pathname `/ipa/resources/users` normalises to `/api/resources/users` |
| `ApiNavigation.UsersPageIndicators` | src/components/NavigationAPI.jsx:153-164 | on that page, Guides has no indicators. Resources has its highlight at `H` with height `H` and its marker at `inset + H` (second row) |
| `ApiNavigation.UsersLinkGuidesIndicators` | src/components/NavigationAPI.jsx:153-164 | any pathname that normalises to `/api/resources/users` leaves the Guides group without either indicator |
| `ApiNavigation.UsersLinkResourcesIndicators` | src/components/NavigationAPI.jsx:153-164 | any pathname that normalises to `/api/resources/users` puts the Resources highlight at `H` with height `H` and its marker at `inset + H` |
| `ApiNavigation.UsersPageActiveLink` | src/components/NavigationAPI.jsx:169 | on that page, the Users link (index 1) is the only active link of Resources |
| `ApiNavigation.UsersPageAnchors` | src/components/NavigationAPI.jsx:186-189 | on that page, the Users link lists `/api/resources/users#list` and `/api/resources/users#update`, with the sections' titles and tags |
| `ApiNavigation.UnknownPathScenario` | src/components/NavigationAPI.jsx:140-164 | for `/unknown`, no group of the sidebar shows the highlight or the marker |

## Left out

- JSX markup, `clsx` class composition, and the `Link`, `Button` and `Tag` components are left out. They are presentation and foreign code. `NavLink`'s `aria-current` and styling follow from the modelled `active` flag.
- framer-motion (`AnimatePresence`, `motion`, `useIsPresent`) and all opacity, delay and layout animation are left out. They are timing, not logic.
- `remToPx` is foreign, and it converts rem to pixels in floating point. Row height and marker inset are integer parameters. The model does not check that they are positive; only `IndicatorsFollowLinkOrder` needs `H > 0`.
- `useRouter` and Next.js routing are left out. `pathname` and `route` are plain string inputs.
- The top-level external links, the "Sign in" button (lines 42-47 and 56-60) and `TopLevelNavItem` are left out. They are static markup with no logic.
- The unused `useIsInsideMobileNavigation` import is not modelled.
- React keys are not modelled as a mechanism. The model states the distinctness they need as lemmas instead.
- The Docs sidebar and the visible-section tracking store are not part of this model. This file does not use them.
