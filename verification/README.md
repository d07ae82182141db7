# SplashFlow collage core in Dafny

SplashFlow is an image browser. It shows one focal ("centre") photo at the exact
centre of the page and scatters the other search results around it. Clicking a
peripheral photo makes it the new centre and starts a search derived from its
description. This project models the two pieces of logic behind that:

- **The placement engine** (`randomPositionInBody`, `calculateOverlapArea`). It
  rejects tiles that cannot fit and puts a centre tile exactly in the middle.
  Any other tile gets a bounded random search. The search keeps the first
  candidate of least total overlap with the rectangles to avoid, and stops at
  the first candidate with zero overlap.
- **The page's session and layout logic.** This covers how `handleSearch`
  picks the centre after a fetch, and how `handleImageSelect` derives the next
  query from a clicked photo. It also covers the single greedy pass of
  `renderImages`: the centre goes first, then each other photo in list order,
  each avoiding the centre and the tiles accepted before it.

Modules:

- `Wrappers`: `Option`.
- `Geometry`: rectangles, interval and area overlap, total overlap.
- `Placement`: the engine.
- `Query`: JavaScript `split(" ")`, `slice(0, 3)` and `join(" ")`, plus a
  reference definition.
- `Session`: page state and the two handlers.
- `Layout`: one render pass, which yields the list of `(id, rect)` tiles
  instead of elements.

Modelling choices:

- **Coordinates.** Coordinates are exact `real`s.
- **Viewport.** `document.body`'s client size is a parameter of type
  `Option<Viewport>`. `None` stands for a page with no document or no body.
- **Randomness.** `Math.random()` is a stream `rng: nat -> real` with a cursor.
  - Each search candidate uses two draws: x at `from + 2i`, then y at
    `from + 2i + 1`.
  - The `maxAttempts <= 0` fallback uses one pair of draws.
  - Every placed non-centre tile then uses one more draw for its tilt. This
    keeps the stream position faithful across a pass, even though the tilt
    value itself is not modelled.
- **Fetches.** A fetch is an input, `Fetched(photos)` or `FetchFailed`.

## Model

| member | source | states |
|---|---|---|
| Geometry.OverlapLength | src/app/libs/utils/random.utils.ts:9-18 | the clamped common length of two intervals is non-negative, is zero exactly when the intervals share no point, and never exceeds either interval's length |
| Geometry.OverlapArea | src/app/libs/utils/random.utils.ts:8-20 | the overlap area is never negative and is zero exactly when the rectangles are apart on the x axis or on the y axis |
| Geometry.OverlapSymmetric | src/app/libs/utils/random.utils.ts:8-20 | the overlap area does not depend on the order of the two rectangles |
| Geometry.OverlapSelf | src/app/libs/utils/random.utils.ts:8-20 | a rectangle of non-negative size overlaps itself by exactly width × height |
| Geometry.OverlapBounded | src/app/libs/utils/random.utils.ts:8-20 | the overlap never exceeds the area of the first rectangle |
| Geometry.TotalOverlap | src/app/libs/utils/random.utils.ts:82-86 | the summed overlap with the rectangles to avoid is never negative and is zero exactly when the tile is disjoint from every one of them |
| Geometry.TotalOverlapAppend | src/app/libs/utils/random.utils.ts:82-86 | the sum splits over a concatenation of the rectangle list |
| Geometry.OverlapAtMostTotal | src/app/libs/utils/random.utils.ts:82-86 | each single overlap is at most the total |
| Placement.Fits | src/app/libs/utils/random.utils.ts:41-54 | the three guards (no document or body, a non-positive size, a tile larger than the body); it carries no ensures of its own, and `Placement.Place` states that the engine answers null, using no draw, exactly when it fails |
| Placement.Place | src/app/libs/utils/random.utils.ts:29-67 | no viewport, a non-positive size or a tile larger than the viewport gives null and uses no draw; a centre tile sits at equal margins and uses no draw; any other fitting tile always gets a position and uses at least one (x, y) pair of draws; with `maxAttempts <= 0` it is the first raw draw |
| Placement.Scatter | src/app/libs/utils/random.utils.ts:62-97 | the non-centre branch always returns a position and consumes at least one (x, y) pair of draws |
| Placement.Avoid | src/app/libs/utils/random.utils.ts:72-75 | the rectangles to avoid are the existing rectangles in their order, followed by the centre rectangle exactly when one is given |
| Placement.CostSplitsAvoid | src/app/libs/utils/random.utils.ts:72-86 | a candidate's total overlap is its overlap with the existing rectangles plus its overlap with the centre rectangle, and no single rectangle to avoid overlaps it by more than the total |
| Placement.SearchFrom | src/app/libs/utils/random.utils.ts:77-95 | from attempt `i` below the budget, the loop draws at least one more candidate and never more than the budget |
| Placement.SearchFromMeetsDescription | src/app/libs/utils/random.utils.ts:69-95 | from any loop state that agrees with the candidates seen so far, the loop ends with the first least-overlap candidate, having stopped right after the first zero overlap or at the budget |
| Placement.ImprovementKeepsState | src/app/libs/utils/random.utils.ts:88-90 | a strictly better candidate becomes the first minimal one so far |
| Placement.NoImprovementKeepsState | src/app/libs/utils/random.utils.ts:88-94 | a candidate that is not strictly better (a tie included) leaves the earlier best in place |
| Placement.Search | src/app/libs/utils/random.utils.ts:69-95 | the loop started from no best position and an infinite minimum; it carries no ensures of its own, and `Placement.SearchMeetsDescription` with `Placement.SearchResultUnique` states what it selects |
| Placement.SearchMeetsDescription | src/app/libs/utils/random.utils.ts:69-97 | the whole search with a positive budget meets the declarative description (first least-overlap candidate, early exit at the first zero) |
| Placement.SearchResultUnique | src/app/libs/utils/random.utils.ts:69-97 | the declarative description admits at most one (kept, drawn) pair |
| Placement.PlaceIsBestCandidate | src/app/libs/utils/random.utils.ts:62-97 | with `maxAttempts > 0` and a fitting tile, the result is exactly the candidate the description selects, and two draws are used per candidate tried |
| Placement.OverlapsNonNegative | src/app/libs/utils/random.utils.ts:82-86 | no candidate's total overlap is negative |
| Placement.SearchStopsAtFirstZero | src/app/libs/utils/random.utils.ts:88-93 | a zero overlap within the budget makes the search keep the first zero-overlap candidate and draw nothing after it |
| Placement.ZeroOverlapCandidateWins | src/app/libs/utils/random.utils.ts:72-94 | if some candidate within the budget clears every rectangle to avoid, the engine returns the first such candidate, which is disjoint from all of them, and stops drawing |
| Placement.NothingToAvoidTakesFirstDraw | src/app/libs/utils/random.utils.ts:72-93 | with no existing rectangles and no centre rectangle, the first candidate is returned at once |
| Placement.CenterIgnoresRandomness | src/app/libs/utils/random.utils.ts:56-60 | a centre placement is the same whatever the options' other fields and the random draws, and uses no draw |
| Placement.PlaceInBounds | src/app/libs/utils/random.utils.ts:56-79 | with draws in [0, 1), every returned position keeps the whole tile inside the viewport |
| Placement.ScatterIsDraw | src/app/libs/utils/random.utils.ts:65-97 | whatever the non-centre branch returns is one of the random draws |
| Placement.Draw | src/app/libs/utils/random.utils.ts:78-79 | one candidate (and the fallback at line 66), x then y, each a draw scaled by the free room on its axis; it carries no ensures of its own, and `Placement.DrawInRange` and `Placement.ScatterIsDraw` state its meaning |
| Placement.DrawInRange | src/app/libs/utils/random.utils.ts:78-79 | a draw in [0, 1) scaled by the free room lands in [0, free room] |
| Placement.SingleAttemptFullOverlap | src/app/libs/utils/random.utils.ts:77-97 | a single attempt that fully overlaps the one rectangle to avoid is still returned (overlap 62500), never null |
| Query.Split | src/app/page.tsx:129 | splitting always yields at least one field and no field contains a space |
| Query.Take | src/app/page.tsx:129 | the slice is a prefix of the fields of length min(n, number of fields) |
| Query.FirstWords | src/app/page.tsx:129 | the split/slice/join chain gives the empty string for zero words and the whole description when it has no more fields than asked for; `Query.FirstWordsBeforeSpace` states the general case |
| Query.Join | src/app/page.tsx:129 | `join(" ")`; it carries no ensures of its own, and `Query.JoinSplit` and `Query.FirstWordsBeforeSpace` state its meaning |
| Query.JoinSplit | src/app/page.tsx:129 | joining the fields of a split with single spaces gives back the original string |
| Query.FirstWordsBeforeSpace | src/app/page.tsx:129 | the split/slice/join pipeline equals the part of the description before its k-th space |
| Query.BeforeSpaceIsLongestPrefix | src/app/page.tsx:128-130 | that reference part is the longest prefix with fewer than k spaces: it is a prefix, and it is the whole string or stops right before the k-th space |
| Query.DeriveQuery | src/app/page.tsx:127-130 | the query is never empty; it is "japanese aesthetic" for a missing or empty description and the text before the third space otherwise |
| Query.DeriveQueryShape | src/app/page.tsx:127-130 | a described photo yields a prefix of its description with at most two spaces, cut right before the third space when there is one |
| Session.Pending | src/app/page.tsx:86 | starting a search sets loading and changes nothing else |
| Session.Resolve | src/app/page.tsx:86-106 | after the fetch settles loading is false; a failure clears images and centre; an empty result clears the centre; otherwise the images are the results and the prior centre is kept when set and present, else the first result becomes the centre |
| Session.HandleSearch | src/app/page.tsx:84-109 | a search ends not loading, with the fetched images, with a centre whenever there are results, and with the centre id always among the images or absent |
| Session.Clicked | src/app/page.tsx:125-131 | a click makes the clicked photo the centre and stores the derived, non-empty query |
| Session.SelectAsWritten | src/app/page.tsx:123-135 | as written, the centre test uses the pre-click centre: when that centre comes back in the results the centre state stays at the clicked id whatever the results are, and otherwise a non-empty result centres its first photo even when the clicked one is among them |
| Session.Select | src/app/page.tsx:123-135 | the corrected selection keeps the clicked photo as centre when the results contain it, and always leaves the centre among the images or absent |
| Session.SearchKeepsPresentCenter | src/app/page.tsx:90-97 | a search whose results contain the current, non-empty centre id leaves it unchanged |
| Session.MountCentersFirstPhoto | src/app/page.tsx:118-121 | the mount-time search centres the first photo it returns and keeps the initial query text |
| Session.CenterShownPreserved | src/app/page.tsx:84-135 | every search and every corrected selection ends with the centre among the images or absent |
| Session.SelectAsWrittenLosesCenter | src/app/page.tsx:123-135 | a concrete click after which the centre id is the clicked photo although the results do not contain it |
| Session.SelectAsWrittenDropsClicked | src/app/page.tsx:123-135 | a concrete click whose results contain the clicked photo but not the old centre, after which the first result, not the clicked photo, is the centre |
| Layout.RenderSingle | src/app/page.tsx:20-47 | a tile gets a rectangle exactly when it fits the viewport, and that rectangle has the requested size |
| Layout.RenderSingleIsPlacement | src/app/page.tsx:33-47 | the rectangle is null exactly when the engine returns null, and otherwise is the engine's position with the tile size; a placed non-centre tile uses one more draw for its tilt |
| Layout.FindById | src/app/page.tsx:146-148 | the lookup finds nothing exactly when there is no centre id or no image carries it, and otherwise returns the first image carrying it |
| Layout.Peripherals | src/app/page.tsx:167-169 | the filter never lengthens the list and drops at least one photo when the centre id is among the images |
| Layout.PeripheralsMembers | src/app/page.tsx:167-169 | the filter keeps exactly the images whose id differs from the centre id |
| Layout.PeripheralsAppend | src/app/page.tsx:167-169 | the filter distributes over concatenation, so it keeps list order |
| Layout.PlacePeripherals | src/app/page.tsx:171-189 | the loop over the other photos; it deliberately carries no ensures of its own, and its properties are stated by `Layout.PeripheralsSized`, `Layout.PeripheralsNotCenter`, `Layout.PeripheralsIds`, `Layout.PeripheralsAvoidEarlier` and `Layout.PeripheralsInside` |
| Layout.PeripheralsSized | src/app/page.tsx:171-189 | every peripheral tile is IMAGE_WIDTH × IMAGE_HEIGHT |
| Layout.PeripheralsNotCenter | src/app/page.tsx:171-189 | no peripheral tile is marked as the centre |
| Layout.PeripheralsIds | src/app/page.tsx:171-189 | when a tile fits, every peripheral photo gets a tile in list order; when it does not, none does; never more tiles than photos |
| Layout.PeripheralsAvoidEarlier | src/app/page.tsx:171-189 | each peripheral tile is what a 100-attempt placement avoiding the centre rectangle and exactly the tiles accepted before it returns, at the draw right after the previous tile's placement and tilt; skipped photos add nothing to the avoidance set and use no draw |
| Layout.PeripheralsInside | src/app/page.tsx:171-189 | with draws in [0, 1), every peripheral tile lies inside the viewport |
| Layout.PlaceCenter | src/app/page.tsx:146-164 | the centre tile exists exactly when a tile fits and some image carries the centre id; it has the tile size and uses no draw |
| Layout.RenderImages | src/app/page.tsx:137-191 | one whole `renderImages` pass; it deliberately carries no ensures of its own, and its properties are stated by `Layout.RenderImagesSized`, `Layout.RenderImagesOrder`, `Layout.RenderImagesInside`, `Layout.CenterTileCentred` and `Layout.RenderImagesGreedy` |
| Layout.RenderImagesSized | src/app/page.tsx:137-191 | a pass shows at most one tile per image, all of the tile size, with only the first possibly the centre, and nothing when a tile does not fit |
| Layout.RenderImagesOrder | src/app/page.tsx:137-191 | the first tile is the centre exactly when a tile fits and the centre id is among the images; when a tile fits the ids are the centre id followed by the filtered images in order |
| Layout.RenderImagesInside | src/app/page.tsx:137-191 | with draws in [0, 1), every tile of a pass lies inside the viewport |
| Layout.CenterTileCentred | src/app/page.tsx:150-164 | the centre tile of a pass has equal margins on opposite sides |
| Layout.RenderImagesGreedy | src/app/page.tsx:166-189 | the tiles after the centre were accepted one after another from the pass's first draw, each avoiding the centre tile and exactly the earlier peripheral tiles, each at the draw right after the previous tile's tilt |
| Layout.CenterTileLeads | src/app/page.tsx:146-164 | in any state whose centre id is set and names a shown photo (as every search and corrected selection leaves it), a layout in a viewport that fits a tile opens with the centre photo |
| Layout.SelectAsWrittenShowsNoCenter | src/app/page.tsx:146-164 | after the as-written click of the counterexample, the layout has no centre tile at all |

## Left out

- JSX and motion rendering, the tilt value, the alt text and the "Loading images..." text: these are presentation. The tilt's random draw is still consumed, and the loading message is an empty arrangement.
- The duplicate helper in src/app/libs/components/animated-image.tsx and the presentational components image.tsx and input.tsx: UI only.
- The network fetch (fetcher.ts, the API route) and the photo schema validation: the fetch outcome is an input, and a failed validation is a `FetchFailed`.
- Debouncing of typed queries: this is timer scheduling, and each `HandleSearch` call stands for one invocation that got through.
- React's state scheduling. Each handler runs from the pending state to the settled state as one step. The one stale capture the code relies on is modelled explicitly by `Session.SelectAsWritten`; other interleavings of overlapping fetches are not modelled.
- `console.error` on a failed fetch: a side effect with no state.
- Floating-point rounding: coordinates are exact reals. The client size is not constrained to integers, and a non-integer `maxAttempts` is not modelled because the model's field is an `int`.
- Transition state: the code has none. There is no transitioning flag, no pending centre, no guard that ignores clicks, no collapse-then-refetch and no error indicator. The code sets the centre id at once, fetches directly and only logs a failed fetch, and the model does the same.

## Findings

| source | as written | input that shows it | evidently intended | confidence | as-written member | corrected member |
|---|---|---|---|---|---|---|
| src/app/page.tsx:123-135 | `handleImageSelect` sets the centre to the clicked id, then calls the `handleSearch` created before the click. That handler tests the old centre id against the results. When the old id is among them, it leaves the centre state, which by then is the clicked id, untouched. When it is not, it centres the first result, even if the clicked photo is among the results. | Centre "a", images [a, b]. Click b, which has no description, and the fetch returns [x, a]. The centre id becomes "b", which is not among the images, so the next layout has no centre tile. Second input: same state, click b, and the fetch returns [x, b]. The centre becomes "x" although b was clicked and is shown. | The centre check uses the clicked photo. It is kept when the results contain it, and the first result becomes the centre otherwise. | medium, not executed | Session.SelectAsWritten (with Session.SelectAsWrittenLosesCenter and Session.SelectAsWrittenDropsClicked) | Session.Select |
