# jujutsudex core, modelled in Dafny

jujutsudex is a fan wiki and toolbox for the Roblox game Jujutsu Infinite. This
project models the parts of the site that compute something rather than only
render it:

- the weighted clan draw behind the spin simulator (`spinClan`, `simulateSpins`);
- the spin wheel's session state: whether a spin is under way, the clan on
  show, the ten most recent pulls, the spin count and the best pull;
- the tier list's grouping of clans by tier, and its display in the fixed
  order S+, S, A, B, C, D;
- the compare page's two selection slots, the ids excluded from the
  dropdowns, the pull-rate colour band and the bar width;
- the codes page's split into active and expired codes, and the home
  page's featured clans and active-codes widget;
- the spin simulator page, which hands the loaded clan array to the wheel
  and then sorts that same array in place by rarity for the drop rate table.

Modules follow the source files: `Types` (src/types/index.ts), `GameLogic`
(src/lib/game-logic.ts), `Wheel` (SpinWheel.tsx), `TierList`, `Compare`,
`Codes`, `SpinSimulator`, `FeaturedClans` and `ActiveCodesWidget`.

Two modules are shared helpers:
- `Seqs` holds JavaScript's `filter` and `slice(0, n)`.
- `StableSort` is `Array.prototype.sort` with a comparator of the form
  `(a, b) => key(a) - key(b)`. Since ES2019 that sort is stable, so the
  model is a stable insertion sort on an array.

Imperative code becomes imperative Dafny, proved against specification functions:
- `spinClan` is a loop over an array with no `modifies` clause, so the input
  is never changed.
- `simulateSpins` is a counted loop.
- The spin wheel and the compare page are classes whose methods update
  their fields.
- The tier-list reduce is a loop over a `map`.
- The spin simulator's sort is an in-place method on the array.

The random number `Math.random()` returns is a parameter. `u` is a real in
[0, 1), and the draw is `u * totalWeight`.

The spin simulator page passes the wheel the very array it then sorts.
`SpinSimulator.RenderPage` keeps that aliasing. The wheel therefore spins over
the clans in ascending rarity order, not in file order. Each clan still
covers a slice of the range as wide as its rarity.

## Model

| member | source | states |
|---|---|---|
| GameLogic.TotalWeight | src/lib/game-logic.ts:11 | the reduce's total is 0 for no clans and never negative when no rarity is |
| GameLogic.Draw | src/lib/game-logic.ts:13 | the scaled draw is 0 whenever the total weight is 0 |
| GameLogic.FirstAbove | src/lib/game-logic.ts:15-20 | when one exists, the index is the first whose running rarity sum exceeds the draw; `None` means no running sum exceeds it |
| GameLogic.SpinIndex | src/lib/game-logic.ts:13-23 | for non-empty clans the chosen index is in range: the first index above the draw, or the last index as the fallback |
| GameLogic.SpinClan | src/lib/game-logic.ts:7-24 | the loop that subtracts each rarity from the draw returns exactly the clan at `SpinIndex`, an element of the input; the array is only read |
| GameLogic.SimulateSpins | src/lib/game-logic.ts:29-35 | returns max(count, 0) results; the k-th is the draw result for the k-th random number and is a clan of the input |
| GameLogic.PrefixMonotone | src/lib/game-logic.ts:11 | with non-negative rarities the running sums never decrease |
| GameLogic.FirstAboveFromIsFirst | src/lib/game-logic.ts:15-20 | the scan from position k stops at the first index whose running sum exceeds the draw |
| GameLogic.FirstAboveIff | src/lib/game-logic.ts:13-20 | the loop returns index i if and only if the draw is below the running sum through i and not below any earlier running sum |
| GameLogic.FallbackUnreachable | src/lib/game-logic.ts:11-23 | for a draw below the total weight the loop always returns, so the last-element fallback is never reached in exact arithmetic |
| GameLogic.DrawInRange | src/lib/game-logic.ts:13 | with u in [0, 1) and a positive total, the draw lies in [0, total) |
| GameLogic.SliceIff | src/lib/game-logic.ts:15-20 | for a non-negative draw the scan stops on, it stops at clan i exactly when the draw lies in [sum before i, sum through i) |
| GameLogic.SpinSelectsSlice | src/lib/game-logic.ts:13-20 | clan i is chosen exactly when the draw falls in the slice [sum before i, sum through i), whose width is clan i's rarity |
| GameLogic.ZeroRarityOnlyAsFallback | src/lib/game-logic.ts:16-23 | a clan of rarity 0 is never returned by the loop; it comes out only by the fallback, and only when it is last |
| GameLogic.PrefixOfZeros | src/lib/game-logic.ts:11 | when every rarity is 0, every running sum is 0 |
| GameLogic.AllZeroGivesLast | src/lib/game-logic.ts:11-23 | when every rarity is 0 the draw is 0 and the last clan is returned |
| GameLogic.SinglePositiveAlwaysPicked | src/lib/game-logic.ts:13-20 | when exactly one clan has positive rarity, every draw returns that clan |
| GameLogic.ExampleTrace | src/lib/game-logic.ts:13-17 | with rarities 70, 25, 5: u = 0.5 gives a draw of 50 and the first clan; u = 0.8 gives the second; u = 0.97 gives the third |
| Wheel.PushHistory | src/components/tools/SpinWheel.tsx:47 | the new history holds at most 10 entries; the result comes first, followed by a prefix of the old history |
| Wheel.UpdateStats | src/components/tools/SpinWheel.tsx:50-56 | the spin count rises by one; the best pull is replaced exactly when there was none or the result is strictly rarer, so a tie keeps the old best; the best rarity never increases |
| Wheel.HistoryIsRecentFirst | src/components/tools/SpinWheel.tsx:47 | after any sequence of pulls the history lists the last min(n, 10) pulls, most recent first |
| Wheel.TotalSpinsCountsPulls | src/components/tools/SpinWheel.tsx:53 | after n pulls the spin count is n |
| Wheel.BestPullIsEarliestRarest | src/components/tools/SpinWheel.tsx:50-56 | the best pull is absent exactly when nothing was pulled; otherwise it is the earliest pull of minimum rarity among all pulls, not just the last ten |
| Wheel.TieKeepsEarlierBest | src/components/tools/SpinWheel.tsx:51-54 | pulls of rarity 10, 3, 3 leave the first clan of rarity 3 as the best, with 3 spins |
| Wheel.SpinWheel.constructor | src/components/tools/SpinWheel.tsx:14-20 | a new session is not spinning, shows no clan, and has empty history, 0 spins and no best pull |
| Wheel.SpinWheel.Spin | src/components/tools/SpinWheel.tsx:22-24 | a spin starts only when none is under way; afterwards the wheel is spinning |
| Wheel.PreviewIndex | src/components/tools/SpinWheel.tsx:29 | `Math.floor(u * n)` is the index in range whose unit slice [k, k + 1) contains the scaled draw |
| Wheel.SpinWheel.ShowPreview | src/components/tools/SpinWheel.tsx:29-30 | the rolling preview shows the clan at `PreviewIndex` of the draw, a clan of the list, and changes nothing else, so previews never reach the history or the statistics |
| Wheel.SpinWheel.FinishSpin | src/components/tools/SpinWheel.tsx:40-57 | one draw decides the result; the current and displayed clan become the result; spinning stops; history and statistics are updated and keep matching the whole list of pulls |
| TierList.Rank | src/app/tools/tier-list/page.tsx:20 | every tier has one position in the display order S+, S, A, B, C, D |
| TierList.Bucket | src/app/tools/tier-list/page.tsx:34-38 | a tier's bucket holds only clans of that tier, never more than the input |
| TierList.BucketSnoc | src/app/tools/tier-list/page.tsx:36 | pushing a clan appends it to the end of its own tier's bucket and leaves every other bucket alone |
| TierList.GroupByTier | src/app/tools/tier-list/page.tsx:34-38 | a bucket exists exactly for each tier that occurs; each bucket holds that tier's clans in input order |
| TierList.BucketEmpty | src/app/tools/tier-list/page.tsx:35 | a tier's bucket is empty exactly when no clan has that tier |
| TierList.BucketMembership | src/app/tools/tier-list/page.tsx:34-38 | a clan is in a tier's bucket exactly when it is in the input with that tier, so no clan is in two buckets |
| TierList.BucketsOfCount | src/app/tools/tier-list/page.tsx:34-38 | joining the buckets of distinct tiers keeps every copy of each clan whose tier is listed, and no others |
| TierList.BucketsPartition | src/app/tools/tier-list/page.tsx:34-38 | the six buckets together are a permutation of the input, and their sizes sum to the clan count |
| TierList.BucketOrEmpty | src/app/tools/tier-list/page.tsx:53 | `clansByTier[tier] || []` is the stored bucket when the tier has one, and empty exactly when the tier is missing or its bucket is empty |
| TierList.RowsFor | src/app/tools/tier-list/page.tsx:52-54 | at most one row per listed tier, and no row has an empty bucket |
| TierList.Rows | src/app/tools/tier-list/page.tsx:52-54 | the page shows at most six rows, none of them empty |
| TierList.RowsForSound | src/app/tools/tier-list/page.tsx:52-54 | every displayed row is a listed tier with its own non-empty bucket |
| TierList.RowsForComplete | src/app/tools/tier-list/page.tsx:52-54 | every listed tier with a non-empty bucket is displayed |
| TierList.RowsForOrdered | src/app/tools/tier-list/page.tsx:52 | rows appear in the order of the tier list |
| TierList.TierOrderRanks | src/app/tools/tier-list/page.tsx:20 | the display order lists each tier exactly once, in rank order |
| TierList.RowsShape | src/app/tools/tier-list/page.tsx:20-54 | the rows shown are exactly the non-empty tiers, each with its bucket, in the order S+, S, A, B, C, D |
| TierList.RowClansOfRowsFor | src/app/tools/tier-list/page.tsx:52-68 | the clans shown, row after row, are the buckets joined in display order |
| TierList.GroupedBucketsMatch | src/app/tools/tier-list/page.tsx:34-38 | given the grouping's two guarantees, reading the map with `|| []` gives, for every tier, exactly that tier's clans filtered from the input |
| TierList.BucketsInMatch | src/app/tools/tier-list/page.tsx:52-53 | when every `|| []` lookup equals the tier's filtered clans, joining the lookups in any tier order equals joining the filtered buckets in that order |
| TierList.DisplayedClansArePermutation | src/app/tools/tier-list/page.tsx:34-68 | the tier list shows every input clan exactly as often as it occurs |
| Types.ClanHref | src/app/tools/tier-list/page.tsx:71 | a clan's link is `/wiki/clans/` followed by the clan's id |
| Types.ClanHrefInjective | src/app/tools/tier-list/page.tsx:71 | two clans get the same link exactly when their ids are equal |
| Types.ClanHrefRoundTrip | src/components/home/FeaturedClans.tsx:33 | reading the id back out of a clan's link gives the clan's id |
| Compare.ExcludeIds | src/app/tools/compare/page.tsx:206 | the excluded ids are the ids of the filled slots, in slot order |
| Compare.ExcludeIdsOfTwo | src/app/tools/compare/page.tsx:206 | for two slots, the excluded ids are the first slot's id if it is set, then the second slot's id if it is set |
| Compare.AvailableClans | src/app/tools/compare/page.tsx:44 | a dropdown offers exactly the clans whose id is not excluded |
| Compare.SelectedNeverOffered | src/app/tools/compare/page.tsx:240-259 | a clan chosen in either slot is offered by neither dropdown |
| Compare.ShowsSummary | src/app/tools/compare/page.tsx:270 | the quick comparison shows exactly when two ids are excluded, one for each slot |
| Compare.ShowsEmptyState | src/app/tools/compare/page.tsx:318 | the empty state shows exactly when no id is excluded |
| Compare.SummaryAndEmptyState | src/app/tools/compare/page.tsx:270-318 | the quick comparison shows exactly when both slots are set, the empty state exactly when both are empty, and never both |
| Compare.PullRateBand | src/app/tools/compare/page.tsx:176-179 | the bar is red below 1, purple below 5, blue below 10, green below 20, and yellow from 20 up |
| Compare.PullRateBandMonotone | src/app/tools/compare/page.tsx:176-179 | a higher rarity never gets an earlier colour band |
| Compare.BarWidth | src/app/tools/compare/page.tsx:181 | the bar width is the rarity, capped at 100 |
| Compare.ComparePage.constructor | src/app/tools/compare/page.tsx:192 | the selection starts as two empty slots |
| Compare.ComparePage.HandleSelect | src/app/tools/compare/page.tsx:194-198 | sets the chosen slot to the clan and leaves the other slot as it was |
| Compare.ComparePage.HandleClear | src/app/tools/compare/page.tsx:200-204 | empties the chosen slot, leaves the other as it was, and keeps the two slots distinct |
| Compare.ComparePage.PickFromDropdown | src/app/tools/compare/page.tsx:95-103 | an empty slot takes the k-th offered clan, so the two slots never hold clans with the same id |
| Codes.ActiveCodes | src/app/codes/page.tsx:21 | `activeCodes` holds only active codes from the file, and every active code of the file |
| Codes.ExpiredCodes | src/app/codes/page.tsx:22 | `expiredCodes` holds only expired codes from the file, and every expired code of the file |
| Codes.CodesPartition | src/app/codes/page.tsx:21-22 | the active and expired lists are disjoint and together are a permutation of all codes |
| Codes.CodesKeepFileOrder | src/app/codes/page.tsx:21-22 | both lists keep the codes in file order |
| Codes.ActiveBadgeCount | src/app/codes/page.tsx:48 | the "N Active" badge counts the active codes: all codes except the expired ones |
| Codes.ShowsNoActivePlaceholder | src/app/codes/page.tsx:53-60 | the "No active codes" placeholder shows exactly when no code is active |
| FeaturedClans.TopClans | src/components/home/FeaturedClans.tsx:12-14 | at most 4 clans, all of tier S+ or S: the first min(4, k) qualifying clans in input order; with fewer than 4 shown, every qualifying clan is shown |
| FeaturedClans.FeaturedLinks | src/components/home/FeaturedClans.tsx:30-33 | one link per featured clan, each leading to that clan's wiki page |
| ActiveCodesWidget.ShownCodes | src/components/home/ActiveCodesWidget.tsx:39 | at most 4 codes, all active: the first min(4, k) active codes in input order |
| ActiveCodesWidget.ViewAllCount | src/components/home/ActiveCodesWidget.tsx:58 | the "View All N Codes" count is never below the number shown and is not capped at 4; it equals the codes page's "N Active" badge |
| ActiveCodesWidget.ShowsEmptyMessage | src/components/home/ActiveCodesWidget.tsx:67-69 | the empty message shows exactly when no code is active |
| StableSort.Insert | src/app/tools/spin-simulator/page.tsx:50 | one insertion step adds exactly one element, the inserted one |
| StableSort.SortedBy | src/app/tools/spin-simulator/page.tsx:50 | the sorted order has the input's length |
| StableSort.InsertStable | src/app/tools/spin-simulator/page.tsx:50 | inserting a clan appends it after the clans of equal rarity and leaves the other rarities' order alone |
| StableSort.SortIsOrdered | src/app/tools/spin-simulator/page.tsx:50 | after the sort the rarities never decrease |
| StableSort.SortIsPermutation | src/app/tools/spin-simulator/page.tsx:50 | the sort keeps the same clans, as often each, and the same length |
| StableSort.SortIsStable | src/app/tools/spin-simulator/page.tsx:50 | clans of equal rarity keep their input order |
| StableSort.InsertSplit | src/app/tools/spin-simulator/page.tsx:50 | an insertion step puts the clan right after the last one whose rarity is not above its own |
| StableSort.InsertAt | src/app/tools/spin-simulator/page.tsx:50 | one in-place step of the sort turns the sorted prefix plus one clan into the sorted prefix one longer and leaves the rest of the array alone |
| StableSort.SortByKey | src/app/tools/spin-simulator/page.tsx:50 | the in-place sort leaves the array holding the stable sort of its old contents |
| SpinSimulator.StatKeys | src/app/tools/spin-simulator/page.tsx:64 | the stat names, one per stat, in the stats' order |
| SpinSimulator.Join | src/app/tools/spin-simulator/page.tsx:64 | joining no names gives the empty string, and joining one name gives that name |
| SpinSimulator.DropRateTable | src/app/tools/spin-simulator/page.tsx:50-66 | one row per clan, in order, with the clan's name, tier and rarity; the buffs cell is the stat names joined with ", " |
| SpinSimulator.TableRaritiesAscend | src/app/tools/spin-simulator/page.tsx:50-66 | the table of the sorted clans has one row per clan, and its rarities never decrease |
| SpinSimulator.RenderPage | src/app/tools/spin-simulator/page.tsx:34-50 | the wheel holds the loaded array itself, which is then sorted in place; the table is built from the sorted array |
| Seqs.Filter | src/app/codes/page.tsx:21 | `filter` keeps only elements that pass, never more than it was given |
| Seqs.FilterMembers | src/components/home/FeaturedClans.tsx:13 | `filter` keeps an element exactly when it occurs in the input and passes |
| Seqs.FilterAppend | src/app/codes/page.tsx:21 | filtering a joined list is joining the filtered parts, so the input order is kept |
| Seqs.FilterSplit | src/app/codes/page.tsx:21-22 | two complementary filters split a list into two parts that together are a permutation of it |
| Seqs.FilterCount | src/app/tools/tier-list/page.tsx:34-38 | filtering keeps every copy of an element that passes and drops every copy of one that fails |
| Seqs.Take | src/components/home/FeaturedClans.tsx:14 | `slice(0, n)` gives the first min(n, length) elements |
| Seqs.FirstMatching | src/components/home/ActiveCodesWidget.tsx:39 | `filter(p).slice(0, k)` is the first min(k, matches) matches in input order, all of them when fewer than k match |

## Left out

- `Math.random()` is not modelled. Each draw is a parameter `u`, or a sequence of them for `simulateSpins`, so the model proves which clan each draw selects, not a probability distribution.
- Floating point is not modelled. Rarities and draws are exact reals, so the fallback to the last clan is kept as behaviour but the rounding that could trigger it is not.
- GameLogic.SpinClan: requires a non-empty list. On an empty list the source returns `clans[-1]`, i.e. `undefined`, and the model does not represent that value.
- GameLogic.SpinIndex: requires a non-empty list, for the same reason.
- GameLogic.SimulateSpins: requires a non-empty list whenever `count` is positive, for the same reason: each spin of an empty list would yield `undefined`.
- Wheel.SpinWheel.FinishSpin: requires a non-empty list, for the same reason. On an empty list the source's wheel would store `undefined` as the result and then read its `name` when rendering.
- GameLogic.SimulateSpins: `count` is an integer. For a fractional count the source's `i < count` loop runs ceil(count) times, which the model does not capture.
- The rolling animation is not modelled: the `setInterval` timer, its 50 ms ticks and the 1500 ms duration. `ShowPreview` is one tick's preview pick, taking its random number as a parameter.
- File reads and JSON parsing in the pages' data loaders are I/O and are not modelled.
- `new Date()` and the date formatting on the codes page depend on the environment and are not modelled.
- The clipboard copy and the `setTimeout` "copied" flag of the code cards are not modelled.
- The dropdown `isOpen` toggles are presentation state and are not modelled. `Compare.ComparePage.PickFromDropdown` only models that the dropdown exists while its slot is empty.
- JSX markup and the colour tables (`tierColors`, `getRarityColor`) are styling and are not modelled. `Compare.PullRateBand` models only the choice among the five bands.
- The compare page declares its own `Clan` interface: tier is any string, and grade and image are required strings. The model uses the shared `Clan` of src/types/index.ts throughout.
- `ActiveCodesWidget` imports a `Code` type, which src/types/index.ts does not define. The model uses `GameCode`.
- A clan's `stats` object is a sequence of name/value pairs in stored order. JavaScript's `Object.keys` ordering rules, which list integer-like keys first, are not modelled.
- The tier-list map's keys are the six `Tier` values. A tier string outside that set cannot occur in the model.
- Static and presentation pages and components are not part of this model, since they only render their input. These are the navbar, breadcrumb, footer, hero, SEO content, layout, robots, sitemap, JSON-LD, stat block, moveset list, guides, home, gear, fighting-styles and placeholder pages.
- src/components/home/ToolsGallery.tsx and src/components/shared/RelatedContent.tsx are not part of this model. They make the same "first k of a filter" selection as `FeaturedClans.TopClans`.
