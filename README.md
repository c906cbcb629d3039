# Faceted project filter of the portfolio site

The project grid of the site (`ProjectsArena`) lets a visitor narrow the list
of case studies by one category and one technology. From the project list it
derives two rows of filter buttons (`FilterBar`):

- the category facets, counted per category;
- the technology facets, counted per tag and limited to the 16 most frequent.

It keeps the two selections, both starting at `"all"`, and shows the projects
that pass both. This project models that logic in Dafny and proves what it
promises. It does not model rendering or animation.

Modules, one per concern:

- `CountMap` (`count_map.dfy`): the JavaScript `Map<string, number>` that both
  facet builders fill. It is an association list kept in insertion order, with
  `get`, `set` and the "`get(k) || 0`" idiom. `Tallies(m, ks)` says what such a
  map holds after counting the sequence `ks`.
- `EntrySort` (`entry_sort.dfy`): `Array.prototype.sort` with the two
  comparators the facet builders pass to it. The sort is modelled as a stable
  insertion sort. The module also proves that any stable sort gives this same
  result.
- `Strings` (`strings.dfy`): stand-ins for `localeCompare` and `toLowerCase`.
- `FilterBar` (`filter_bar.dfy`): the tab-stop lookup, the pressed state, key
  and click activation, and the drag bounds of the button row.
- `ProjectsArena` (`projects_arena.dfy`): the category and technology facets,
  the visible-project filter, the filter state, and the wiring of each bar's
  `onChange` to its setter.
- `Optional` (`option.dfy`): `Option`, standing for a value or `undefined`.

The counting loops are methods with loop invariants, as the source mutates a
`Map` inside `forEach` loops. The sort, slice and map pipelines and the filter
predicate are functions. The filter selections and the drag track are classes
whose methods update their fields.

## Model

| member | source | states |
|---|---|---|
| `CountMap.Set` | src/components/projects/ProjectsArena.tsx:25 | `Map.set` keeps the position of a key already present and appends a new key at the end. The key then maps to the new value, every other key keeps its value, and the map's total changes by the difference. |
| `CountMap.Get` | src/components/projects/ProjectsArena.tsx:25 | `Map.get` finds a value exactly for the keys in the map, and the value found is the one stored under that key. |
| `CountMap.CountOf` | src/components/projects/ProjectsArena.tsx:25 | `get(k) \|\| 0` is 0 for an absent key and the stored count for a present one. |
| `CountMap.FirstSeen` | src/components/projects/ProjectsArena.tsx:27 | The key order of the counting Map holds each distinct element once, and exactly the elements of the counted sequence. |
| `CountMap.FirstSeenOrder` | src/components/projects/ProjectsArena.tsx:43-44 | The Map's key order is the order of first occurrence: of two counted elements, the one met first comes first. This is the order that ties keep under the stable count sort. |
| `CountMap.TallyStep` | src/components/projects/ProjectsArena.tsx:25 | One more `set(k, (get(k) \|\| 0) + 1)` counts one more occurrence of `k`. Keys stay in first-seen order, every count equals the number of occurrences, and the counts sum to the length counted. |
| `Strings.LocaleCompare` | src/components/projects/ProjectsArena.tsx:28 | The stand-in comparison answers -1, 0 or 1, and answers 0 exactly for equal strings. |
| `Strings.LowerChar` | src/components/projects/ProjectsArena.tsx:57 | The stand-in lower-casing of one character leaves no upper-case ASCII letter, maps each upper-case letter to its own lower-case letter (32 code points further), and keeps every other character. |
| `Strings.Lower` | src/components/projects/ProjectsArena.tsx:57 | `toLowerCase` keeps the length, turns each upper-case ASCII letter into its own lower-case letter, and keeps every other character. |
| `Strings.LowerIdempotent` | src/components/projects/ProjectsArena.tsx:57 | Lower-casing twice gives the same string as lower-casing once. |
| `Strings.LocaleCompareFlips` | src/components/projects/ProjectsArena.tsx:28 | Swapping the operands of the key comparison flips its sign. |
| `Strings.LocaleCompareTransitive` | src/components/projects/ProjectsArena.tsx:28 | The key comparison's "no later than" is transitive. |
| `EntrySort.Compare` | src/components/projects/ProjectsArena.tsx:28-44 | The key comparator ties exactly on equal keys. The count comparator puts `a` first exactly when `a` has the larger count, and ties exactly on equal counts. |
| `EntrySort.CompareFlips` | src/components/projects/ProjectsArena.tsx:44 | Both comparators given to `sort` (by key with `localeCompare`, by count descending) flip sign when their operands are swapped. |
| `EntrySort.CompareTransitive` | src/components/projects/ProjectsArena.tsx:44 | Both comparators are transitive, so they are consistent comparators as `sort` requires. |
| `EntrySort.SortEntries` | src/components/projects/ProjectsArena.tsx:28 | Sorting the Map's entries rearranges them: same length, same multiset of entries. |
| `EntrySort.SortEntriesSum` | src/components/projects/ProjectsArena.tsx:28 | Sorting keeps the total of the counts. |
| `EntrySort.SortEntriesStable` | src/components/projects/ProjectsArena.tsx:44 | Of any two sorted entries, the first sorts strictly earlier, or ties and was inserted into the Map earlier. |
| `EntrySort.StableSortIsUnique` | src/components/projects/ProjectsArena.tsx:44 | Two stably sorted rearrangements of the same entries are equal. |
| `EntrySort.AnyStableSortAgrees` | src/components/projects/ProjectsArena.tsx:44 | Any stably sorted rearrangement of the Map's entries is the insertion sort's result. So the model gives the same order as the engine's stable `sort`. |
| `ProjectsArena.CategoryKey` | src/components/projects/ProjectsArena.tsx:24 | The bucket key is never empty, and is the project's own category whenever that is not empty. |
| `ProjectsArena.CountCategories` | src/components/projects/ProjectsArena.tsx:22-26 | The `buckets` loop leaves one entry per category key, in first-seen order. Each entry counts the projects under that key, and an empty category is counted as `'Uncategorized'`. The counts sum to the number of projects. |
| `ProjectsArena.CategoryOptionsFrom` | src/components/projects/ProjectsArena.tsx:27-33 | The category list has one option per Map entry after a leading `{all, 'All Launches'}`. |
| `ProjectsArena.KeysAscend` | src/components/projects/ProjectsArena.tsx:27-28 | Sorted by `localeCompare`, the category keys strictly ascend. |
| `ProjectsArena.CategoryOptionsCounted` | src/components/projects/ProjectsArena.tsx:29-32 | Each category option after "All Launches" shows the number of projects under its key. |
| `ProjectsArena.CategoryOptionsAscend` | src/components/projects/ProjectsArena.tsx:27-28 | The category options after "All Launches" strictly ascend under `localeCompare`. |
| `ProjectsArena.CategoryOptionsSum` | src/components/projects/ProjectsArena.tsx:27-32 | The counts shown by the category options add up to the number of keys counted. |
| `ProjectsArena.CategoryOptionsCover` | src/components/projects/ProjectsArena.tsx:27-33 | A string is a category key exactly when it names one of the category options after "All Launches". |
| `ProjectsArena.CategoryOptionsCorrect` | src/components/projects/ProjectsArena.tsx:27-33 | The list starts with `{all, 'All Launches'}`, then has exactly one option per distinct category key, in strictly ascending key order. Each option shows its key's project count, and these counts sum to the number of projects. |
| `ProjectsArena.CategoryOptions` | src/components/projects/ProjectsArena.tsx:21-34 | `categoryOptions` meets all of the above, stated in terms of the projects. |
| `ProjectsArena.Tags` | src/components/projects/ProjectsArena.tsx:38-39 | The tags visited by the nested loops are exactly the tags found in some project's stack. |
| `ProjectsArena.CountTags` | src/components/projects/ProjectsArena.tsx:37-42 | The nested `stacks` loops count every tag occurrence across all stacks. Keys are compared case-sensitively, a tag repeated in one project counts twice, and keys are in first-seen order. |
| `ProjectsArena.StackOptionsFrom` | src/components/projects/ProjectsArena.tsx:43-50 | The technology list has `{all, 'All Tech'}` first, then one option per Map entry, at most 16 of them. |
| `ProjectsArena.TagsRanked` | src/components/projects/ProjectsArena.tsx:43-44 | Sorted by count descending, the tags come out in rank order: higher counts first, and equal counts in first-seen order. |
| `ProjectsArena.DroppedRanksBelow` | src/components/projects/ProjectsArena.tsx:45 | When a ranked list is cut, each tag cut ranks below each tag kept. |
| `ProjectsArena.StackOptionsRanked` | src/components/projects/ProjectsArena.tsx:43-50 | The list starts with `{all, 'All Tech'}` and holds at most 17 options. The rest are existing tags with their true occurrence counts, in rank order. |
| `ProjectsArena.LeftOutRanksBelow` | src/components/projects/ProjectsArena.tsx:43-45 | A tag missing from the technology options after "All Tech" ranks below a tag that was kept. |
| `ProjectsArena.StackOptionsKeepTop` | src/components/projects/ProjectsArena.tsx:43-45 | Every tag missing from the options after "All Tech" ranks below every tag kept, so the kept tags are the 16 highest under that order. A tag spelled "all" is covered too. |
| `ProjectsArena.StackOptions` | src/components/projects/ProjectsArena.tsx:36-51 | `stackOptions` meets all of the above, stated in terms of the projects. |
| `ProjectsArena.CategoryOptionsDistinct` | src/components/projects/ProjectsArena.tsx:27-33 | When no category is spelled "all", the category buttons have distinct values. The tab-stop lemmas of the filter bar then apply to that row. |
| `ProjectsArena.StackOptionsDistinct` | src/components/projects/ProjectsArena.tsx:43-50 | When no tag is spelled "all", the technology buttons have distinct values. |
| `ProjectsArena.CategoryMatch` | src/components/projects/ProjectsArena.tsx:55 | `'all'` passes every project. For a project with a category, a concrete selection passes it exactly when it is the key the project is counted under. |
| `ProjectsArena.StackMatch` | src/components/projects/ProjectsArena.tsx:56-57 | `'all'` and any tag of the project, spelled exactly, pass it. A concrete selection never passes a project without tags. |
| `ProjectsArena.Matches` | src/components/projects/ProjectsArena.tsx:55-58 | A project passes under `('all','all')`, and under its own category together with any of its own tags. |
| `ProjectsArena.VisibleProjects` | src/components/projects/ProjectsArena.tsx:53-59 | The filter returns no more projects than it is given, and each one returned is a given project that passes both criteria. |
| `ProjectsArena.VisibleIsSubsequence` | src/components/projects/ProjectsArena.tsx:53-59 | The visible projects are an order-preserving subsequence of the projects. |
| `ProjectsArena.VisibleExactlyMatching` | src/components/projects/ProjectsArena.tsx:54-58 | A project is visible exactly when it is listed and passes both criteria. Each passing project appears as often as it is listed. |
| `ProjectsArena.VisibleAllIsIdentity` | src/components/projects/ProjectsArena.tsx:55-57 | With both selections at `'all'`, the visible list is the project list. |
| `ProjectsArena.VisibleIdempotent` | src/components/projects/ProjectsArena.tsx:54-58 | Filtering the visible list again with the same selections changes nothing. |
| `ProjectsArena.CountedTagSelectsProject` | src/components/projects/ProjectsArena.tsx:56-57 | A project counted under a tag passes the stack criterion for that tag written in any case. |
| `ProjectsArena.StackMatchCaseInsensitive` | src/components/projects/ProjectsArena.tsx:56-57 | Two concrete selections that lower-case alike pass exactly the same projects. The `'all'` waiver itself is case-sensitive, so both must differ from `'all'`. |
| `ProjectsArena.UpperAllIsConcrete` | src/components/projects/ProjectsArena.tsx:57 | The `'all'` waiver compares exactly: selection `'ALL'` hides a project without tags. |
| `ProjectsArena.StackMatchIgnoresCase` | src/components/projects/ProjectsArena.tsx:57 | Selection `'react'` matches tag `'React'`. |
| `ProjectsArena.FilterByStackExample` | src/components/projects/ProjectsArena.tsx:53-59 | Projects a (Web; React, Go), b (Web; Go) and c (Tools; none) filtered by `('all','go')` give `[a, b]`. |
| `ProjectsArena.FilterByCategoryExample` | src/components/projects/ProjectsArena.tsx:53-59 | The same projects filtered by `('Tools','all')` give `[c]`. |
| `ProjectsArena.FilterByBothExample` | src/components/projects/ProjectsArena.tsx:53-59 | The same projects filtered by `('Web','python')` give `[]`. |
| `ProjectsArena.UncategorizedFacetHidesItsProjects` | src/components/projects/ProjectsArena.tsx:24-55 | A project with an empty category is counted under the `'Uncategorized'` facet, yet that facet's selection hides it, because the filter compares the raw category. |
| `ProjectsArena.FilterState.constructor` | src/components/projects/ProjectsArena.tsx:18-19 | Both selections start at `'all'`. |
| `ProjectsArena.FilterState.SetCategory` | src/components/projects/ProjectsArena.tsx:18 | `setFilterCategory` replaces the category selection and leaves the stack selection as it was. |
| `ProjectsArena.FilterState.SetStack` | src/components/projects/ProjectsArena.tsx:19 | `setFilterStack` replaces the stack selection and leaves the category selection as it was. |
| `ProjectsArena.Select` | src/components/projects/ProjectsArena.tsx:64-65 | The category bar's `onChange` sets only the category, and the stack bar's sets only the stack. |
| `ProjectsArena.PressKey` | src/components/projects/FilterBar.tsx:46-54 | Enter or Space on a button selects its option in that bar's dimension. Any other key changes neither selection. |
| `ProjectsArena.ClickButton` | src/components/projects/FilterBar.tsx:88 | A click always selects the button's option in that bar's dimension. |
| `FilterBar.IsActive` | src/components/projects/FilterBar.tsx:77 | Definition: a button is pressed when its option's value is the current selection. |
| `FilterBar.FindIndex` | src/components/projects/FilterBar.tsx:57 | `findIndex` gives the first option whose value equals the selection, or -1 when none does. |
| `FilterBar.TabIndexLookup` | src/components/projects/FilterBar.tsx:56-59 | When some option matches, the tab stop is the first matching option. Otherwise it is 0. |
| `FilterBar.TabIndex` | src/components/projects/FilterBar.tsx:91 | Each button's `tabIndex` is 0 or -1. The first pressed button gets 0, and when none is pressed only the first button gets 0. |
| `FilterBar.SingleTabStop` | src/components/projects/FilterBar.tsx:91 | In a non-empty row exactly one button gets `tabIndex` 0, and it lies within the row. |
| `FilterBar.PressedButtonHoldsTabStop` | src/components/projects/FilterBar.tsx:77-91 | When option values are distinct, a button is pressed (`aria-pressed`) exactly when it is the tab stop and the tab stop's button is pressed. |
| `FilterBar.SelectedButtonBecomesTabStop` | src/components/projects/FilterBar.tsx:77-91 | After a button is clicked, it is the only pressed button and the tab stop, when option values are distinct. |
| `FilterBar.KeyActivation` | src/components/projects/FilterBar.tsx:46-54 | A key selects something exactly when it is Enter or Space. What it selects is what a click on the same button selects. |
| `FilterBar.Click` | src/components/projects/FilterBar.tsx:88 | The value a click selects makes that button pressed. |
| `FilterBar.ConstraintsFor` | src/components/projects/FilterBar.tsx:28-36 | The bounds satisfy `left <= 0 = right`. Dragged to its left bound, the track shows its right edge. When the track overflows, the left bound goes no further than that. |
| `FilterBar.DragTrack.constructor` | src/components/projects/FilterBar.tsx:20-21 | The offset starts at 0 and the bounds at `{0, 0}`. |
| `FilterBar.DragTrack.UpdateConstraints` | src/components/projects/FilterBar.tsx:28-36 | The bounds invariant `left <= 0 = right` is kept and the bounds fit the widths. A track that fits is snapped back to offset 0, and an overflowing one keeps its offset. |

## Left out

- Label text: the `"${value} (${count})"` strings are kept as a value and a count (`Counted`), and the fixed captions as `Caption`. No string is formatted.
- `Strings.LocaleCompare`: locale collation is replaced by code-point (Unicode scalar value) lexicographic order, which also differs from UTF-16 code-unit order for characters beyond U+FFFF. It keeps what the sort needs: a consistent total order.
- `Strings.Lower`: Unicode case mapping is replaced by ASCII lower-casing. Only `FilterByStackExample`, `FilterByBothExample`, `StackMatchIgnoresCase` and `LowerIdempotent` depend on its definition.
- `project.stack?.`: a missing stack is modelled as an empty sequence. The content schema in `src/content/config.ts` defaults it to `[]`.
- `FilterBar.DragTrack`: the motion value `x` is a `real`; in the model only `UpdateConstraints` writes it, while in the component the drag gesture also moves it. Drag gestures, elasticity and momentum are not modelled.
- `event.preventDefault()`, `useMemo`/`useCallback` caching, `ResizeObserver` registration and cleanup, React rendering and animation: none of these change the values modelled.
- The rest of the repository (contact form, hero scene, scroll progress bar, project cards, featured list, career timeline, content schema, build and styling configuration, setup script): these are presentation, network and configuration code, with no filtering logic.
- `'Uncategorized'` appears only in the facet count: `src/content/config.ts:14` defaults a missing `category` to `'Case Study'`, `ProjectsArena.tsx:24` counts an empty category under `'Uncategorized'`, and the filter at `ProjectsArena.tsx:55` compares the raw category (`UncategorizedFacetHidesItsProjects`). The two "all" options carry no count.
- A category or tag spelled `"all"` shares its value with the leading option. The model keeps that behaviour; `CategoryOptionsDistinct` and `StackOptionsDistinct` state that the button values are distinct when no key is spelled `"all"`.
