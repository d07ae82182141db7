/** The placement engine of src/app/libs/utils/random.utils.ts: put one
    fixed-size tile inside the viewport, either exactly at its centre or at
    the best of a bounded number of random candidates. */
module Placement {
  import opened Wrappers
  import opened Geometry

  /** A tile's top-left corner. */
  datatype Pos = Pos(x: real, y: real)

  /** The drawable body's client width and height. `None` stands for a page
      with no document or no body. */
  datatype Viewport = Viewport(width: real, height: real)

  /** The options object accepted by the engine; `DefaultOptions` holds the
      defaults it falls back on. */
  datatype Options = Options(
    isCenter: bool,
    existingRects: seq<Rect>,
    centerRect: Option<Rect>,
    maxAttempts: int)

  const DefaultMaxAttempts: int := 50

  const DefaultOptions: Options := Options(false, [], None, DefaultMaxAttempts)

  /** The source of `Math.random()`: draw number `i` is `rng(i)`. */
  type Random = nat -> real

  /** The engine's answer and the index of the first random draw it left
      unused. */
  datatype Placed = Placed(pos: Option<Pos>, next: nat)

  /** Where the random search stopped: the candidate kept and how many
      candidates were drawn. */
  datatype Found = Found(chosen: nat, tried: nat)

  /** Everything one random search works with: the tile size, the free room
      on each axis, the rectangles to avoid, and the draws from `from` on. */
  datatype Trial = Trial(w: real, h: real, maxX: real, maxY: real, avoid: seq<Rect>, rng: Random, from: nat)

  /** Every draw lies in [0, 1), as `Math.random()` promises. */
  ghost predicate UnitDraws(rng: Random)
  {
    forall i: nat :: 0.0 <= rng(i) < 1.0
  }

  /** A tile of this size can be placed: the viewport is known, the size is
      positive, and the tile is no larger than the viewport. */
  predicate Fits(w: real, h: real, viewport: Option<Viewport>)
  {
    && viewport.Some?
    && 0.0 < w <= viewport.value.width
    && 0.0 < h <= viewport.value.height
  }

  function TileAt(p: Pos, w: real, h: real): Rect
  {
    Rect(p.x, p.y, w, h)
  }

  /** Everything a non-centre tile must keep clear of: the existing rectangles
      in order, then the centre rectangle if there is one. */
  function Avoid(opts: Options): (avoid: seq<Rect>)
    ensures opts.existingRects <= avoid
    ensures opts.centerRect.None? ==> avoid == opts.existingRects
    ensures opts.centerRect.Some? ==>
      |avoid| == |opts.existingRects| + 1 && avoid[|avoid| - 1] == opts.centerRect.value
  {
    opts.existingRects + (if opts.centerRect.Some? then [opts.centerRect.value] else [])
  }

  /** Total overlap of a tile at `p` with the rectangles to avoid. */
  function Cost(p: Pos, w: real, h: real, avoid: seq<Rect>): real
  {
    TotalOverlap(TileAt(p, w, h), avoid)
  }

  /** One random position: the x draw at `at`, then the y draw at `at + 1`,
      each scaled to the free room on its axis. */
  function Draw(rng: Random, at: nat, maxX: real, maxY: real): Pos
  {
    Pos(rng(at) * maxX, rng(at + 1) * maxY)
  }

  /** The `i`-th candidate of a search: it uses draws `from + 2i` and
      `from + 2i + 1`. */
  function Candidate(t: Trial, i: nat): Pos
  {
    Draw(t.rng, t.from + 2 * i, t.maxX, t.maxY)
  }

  function CandidateCost(t: Trial, i: nat): real
  {
    Cost(Candidate(t, i), t.w, t.h, t.avoid)
  }

  /** The overlap of every candidate of a search, as one function of the
      attempt number. */
  function Overlaps(t: Trial): nat -> real
  {
    (i: nat) => CandidateCost(t, i)
  }

  /** Overlaps are areas: never negative. */
  ghost predicate NonNegative(overlap: nat -> real)
  {
    forall k: nat :: overlap(k) >= 0.0
  }

  /** Attempt `j` is the first of attempts 0..n-1 whose overlap is least
      among them. */
  ghost predicate FirstMinimal(overlap: nat -> real, j: nat, n: nat)
  {
    && j < n
    && (forall k: nat :: k < n ==> overlap(j) <= overlap(k))
    && (forall k: nat :: k < j ==> overlap(j) < overlap(k))
  }

  /** The declarative meaning of the search with `budget` attempts: it draws
      candidates until the first one with zero overlap (or until the budget is
      spent), and keeps the first candidate of least overlap among those
      drawn. */
  ghost predicate IsSearchResult(overlap: nat -> real, budget: nat, j: nat, n: nat)
  {
    && n <= budget
    && FirstMinimal(overlap, j, n)
    && (forall k: nat :: k < n - 1 ==> overlap(k) != 0.0)
    && (n < budget ==> overlap(n - 1) == 0.0)
  }

  /** The best candidate so far and its overlap (`bestPosition` and
      `minOverlap`); before the first attempt there is none, which plays the
      part of the source's `null` and `Infinity`. */
  datatype Best = Best(index: nat, overlap: real)

  /** The search loop from attempt `i` on, where `overlap(k)` is the overlap
      of the k-th candidate. It mirrors the engine's `for` loop: a candidate
      replaces the best only when there is none yet or its overlap is
      strictly smaller, and such a replacement with zero overlap ends the
      loop at once. The result is the candidate kept and the number of
      candidates drawn. */
  function SearchFrom(overlap: nat -> real, budget: nat, i: nat, best: Option<Best>): (r: Found)
    ensures i < budget ==> i < r.tried <= budget
    decreases budget - i
  {
    if i >= budget then Found(if best.Some? then best.value.index else 0, i)
    else
      var current := overlap(i);
      if best.None? || current < best.value.overlap then
        if current == 0.0 then Found(i, i + 1)
        else SearchFrom(overlap, budget, i + 1, Some(Best(i, current)))
      else SearchFrom(overlap, budget, i + 1, best)
  }

  /** The loop state `SearchFrom` starts from at attempt `i` agrees with the
      declarative description of the candidates seen so far. */
  ghost predicate SearchState(overlap: nat -> real, i: nat, best: Option<Best>)
  {
    && (best.None? <==> i == 0)
    && (best.Some? ==> FirstMinimal(overlap, best.value.index, i) && best.value.overlap == overlap(best.value.index))
    && (forall k: nat :: k < i ==> overlap(k) != 0.0)
  }

  /** Partner of the loop: from any consistent state, the loop ends in the
      one (kept, drawn) pair the declarative description allows. */
  lemma {:induction false} SearchFromMeetsDescription(overlap: nat -> real, budget: nat, i: nat, best: Option<Best>)
    requires NonNegative(overlap)
    requires 0 < budget && i <= budget
    requires SearchState(overlap, i, best)
    ensures
      var r := SearchFrom(overlap, budget, i, best);
      IsSearchResult(overlap, budget, r.chosen, r.tried)
    decreases budget - i
  {
    if i == budget {
      assert IsSearchResult(overlap, budget, best.value.index, i);
    } else {
      var current := overlap(i);
      if best.None? || current < best.value.overlap {
        if current == 0.0 {
          ImprovementKeepsState(overlap, i, best);
          assert IsSearchResult(overlap, budget, i, i + 1);
        } else {
          ImprovementKeepsState(overlap, i, best);
          SearchFromMeetsDescription(overlap, budget, i + 1, Some(Best(i, current)));
        }
      } else {
        NoImprovementKeepsState(overlap, i, best);
        SearchFromMeetsDescription(overlap, budget, i + 1, best);
      }
    }
  }

  /** A strictly better attempt becomes the first minimal one so far. */
  lemma ImprovementKeepsState(overlap: nat -> real, i: nat, best: Option<Best>)
    requires SearchState(overlap, i, best)
    requires best.None? || overlap(i) < best.value.overlap
    ensures FirstMinimal(overlap, i, i + 1)
    ensures overlap(i) != 0.0 ==> SearchState(overlap, i + 1, Some(Best(i, overlap(i))))
  {
    assert forall k: nat :: k < i ==> overlap(i) < overlap(k);
  }

  /** An attempt that is no better leaves the best in place. */
  lemma NoImprovementKeepsState(overlap: nat -> real, i: nat, best: Option<Best>)
    requires NonNegative(overlap)
    requires SearchState(overlap, i, best)
    requires best.Some? && overlap(i) >= best.value.overlap
    ensures SearchState(overlap, i + 1, best)
  {
    assert overlap(best.value.index) <= overlap(i);
    assert FirstMinimal(overlap, best.value.index, i + 1);
  }

  /** The whole search with `budget` attempts. */
  function Search(overlap: nat -> real, budget: nat): Found
  {
    SearchFrom(overlap, budget, 0, None)
  }

  /** The whole search meets its declarative description. */
  lemma SearchMeetsDescription(overlap: nat -> real, budget: nat)
    requires NonNegative(overlap)
    requires budget > 0
    ensures IsSearchResult(overlap, budget, Search(overlap, budget).chosen, Search(overlap, budget).tried)
  {
    SearchFromMeetsDescription(overlap, budget, 0, None);
  }

  /** The engine: `w` and `h` are the tile size, `viewport` the body size read
      at call time, `rng` and `from` the random draws still to come. */
  function Place(w: real, h: real, viewport: Option<Viewport>, opts: Options, rng: Random, from: nat): (r: Placed)
    ensures !Fits(w, h, viewport) ==> r == Placed(None, from)
    ensures Fits(w, h, viewport) && opts.isCenter ==>
      && r.next == from
      && r.pos.Some?
      && r.pos.value.x + w / 2.0 == viewport.value.width / 2.0
      && r.pos.value.y + h / 2.0 == viewport.value.height / 2.0
    ensures Fits(w, h, viewport) && !opts.isCenter ==> r.pos.Some? && r.next >= from + 2
    ensures Fits(w, h, viewport) && !opts.isCenter && opts.maxAttempts <= 0 ==>
      r == Placed(Some(Draw(rng, from, viewport.value.width - w, viewport.value.height - h)), from + 2)
  {
    if viewport.None? then Placed(None, from)
    else
      var bodyWidth := viewport.value.width;
      var bodyHeight := viewport.value.height;
      if w <= 0.0 || h <= 0.0 then Placed(None, from)
      else if w > bodyWidth || h > bodyHeight then Placed(None, from)
      else if opts.isCenter then
        Placed(Some(Pos((bodyWidth - w) / 2.0, (bodyHeight - h) / 2.0)), from)
      else
        Scatter(w, h, bodyWidth - w, bodyHeight - h, opts, rng, from)
  }

  /** The non-centre branch: `maxX` and `maxY` are the free room on each axis. */
  function Scatter(w: real, h: real, maxX: real, maxY: real, opts: Options, rng: Random, from: nat): (r: Placed)
    ensures r.pos.Some? && r.next >= from + 2
  {
    if opts.maxAttempts <= 0 then
      Placed(Some(Draw(rng, from, maxX, maxY)), from + 2)
    else
      var t := Trial(w, h, maxX, maxY, Avoid(opts), rng, from);
      var found := Search(Overlaps(t), opts.maxAttempts);
      assert found.tried >= 1;
      Placed(Some(Candidate(t, found.chosen)), from + 2 * found.tried)
  }

  /** At most one (kept, drawn) pair meets the declarative description, so it
      pins the search down completely. */
  lemma SearchResultUnique(overlap: nat -> real, budget: nat, j1: nat, n1: nat, j2: nat, n2: nat)
    requires IsSearchResult(overlap, budget, j1, n1)
    requires IsSearchResult(overlap, budget, j2, n2)
    ensures j1 == j2 && n1 == n2
  {
    assert n1 == n2;
    assert overlap(j1) <= overlap(j2) && overlap(j2) <= overlap(j1);
  }

  /** A non-centre placement with a positive attempt budget returns the
      candidate that the declarative search description selects, and uses
      two draws per candidate drawn; by `SearchResultUnique` that (kept,
      drawn) pair is the only one the description admits. */
  lemma PlaceIsBestCandidate(w: real, h: real, viewport: Option<Viewport>, opts: Options, rng: Random, from: nat) returns (j: nat, n: nat)
    requires Fits(w, h, viewport) && !opts.isCenter && opts.maxAttempts > 0
    ensures
      var t := Trial(w, h, viewport.value.width - w, viewport.value.height - h, Avoid(opts), rng, from);
      && IsSearchResult(Overlaps(t), opts.maxAttempts, j, n)
      && Place(w, h, viewport, opts, rng, from) == Placed(Some(Candidate(t, j)), from + 2 * n)
  {
    var t := Trial(w, h, viewport.value.width - w, viewport.value.height - h, Avoid(opts), rng, from);
    var found := Search(Overlaps(t), opts.maxAttempts);
    OverlapsNonNegative(t);
    SearchMeetsDescription(Overlaps(t), opts.maxAttempts);
    j, n := found.chosen, found.tried;
  }

  /** Early exit: when some candidate within the budget clears everything to
      avoid, the engine returns the first such candidate, having drawn no
      candidate after it, and that tile is disjoint from every rectangle it
      had to avoid. */
  lemma ZeroOverlapCandidateWins(w: real, h: real, viewport: Option<Viewport>, opts: Options, rng: Random, from: nat, z: nat)
    requires Fits(w, h, viewport) && !opts.isCenter && z < opts.maxAttempts
    requires CandidateCost(Trial(w, h, viewport.value.width - w, viewport.value.height - h, Avoid(opts), rng, from), z) == 0.0
    ensures
      var t := Trial(w, h, viewport.value.width - w, viewport.value.height - h, Avoid(opts), rng, from);
      var r := Place(w, h, viewport, opts, rng, from);
      && r.pos.Some?
      && (forall k :: 0 <= k < |Avoid(opts)| ==> Disjoint(TileAt(r.pos.value, w, h), Avoid(opts)[k]))
      && exists j: nat :: j <= z && CandidateCost(t, j) == 0.0 && r == Placed(Some(Candidate(t, j)), from + 2 * (j + 1))
  {
    var t := Trial(w, h, viewport.value.width - w, viewport.value.height - h, Avoid(opts), rng, from);
    var found := Search(Overlaps(t), opts.maxAttempts);
    OverlapsNonNegative(t);
    SearchStopsAtFirstZero(Overlaps(t), opts.maxAttempts, z);
    assert Place(w, h, viewport, opts, rng, from) == Placed(Some(Candidate(t, found.chosen)), from + 2 * found.tried);
  }

  /** A candidate's cost is its overlap with the existing rectangles plus its
      overlap with the centre rectangle, when there is one; no single
      rectangle to avoid overlaps it by more than that cost. */
  lemma CostSplitsAvoid(p: Pos, w: real, h: real, opts: Options)
    ensures Cost(p, w, h, Avoid(opts)) == TotalOverlap(TileAt(p, w, h), opts.existingRects)
      + (if opts.centerRect.Some? then OverlapArea(TileAt(p, w, h), opts.centerRect.value) else 0.0)
    ensures forall k :: 0 <= k < |Avoid(opts)| ==> OverlapArea(TileAt(p, w, h), Avoid(opts)[k]) <= Cost(p, w, h, Avoid(opts))
  {
    var tile := TileAt(p, w, h);
    var tail := if opts.centerRect.Some? then [opts.centerRect.value] else [];
    TotalOverlapAppend(tile, opts.existingRects, tail);
    if opts.centerRect.Some? {
      assert tail[1..] == [];
    }
    forall k | 0 <= k < |Avoid(opts)|
      ensures OverlapArea(tile, Avoid(opts)[k]) <= TotalOverlap(tile, Avoid(opts))
    {
      OverlapAtMostTotal(tile, Avoid(opts), k);
    }
  }

  lemma OverlapsNonNegative(t: Trial)
    ensures NonNegative(Overlaps(t))
  {
  }

  /** With overlaps that are never negative, a zero overlap at attempt `z`
      within the budget makes the search keep the first zero-overlap attempt
      at or before `z` and draw nothing after it. */
  lemma SearchStopsAtFirstZero(overlap: nat -> real, budget: nat, z: nat)
    requires NonNegative(overlap)
    requires z < budget && overlap(z) == 0.0
    ensures
      var r := Search(overlap, budget);
      && r.chosen <= z
      && r.tried == r.chosen + 1
      && overlap(r.chosen) == 0.0
      && (forall k: nat :: k < r.chosen ==> overlap(k) != 0.0)
  {
    var r := Search(overlap, budget);
    SearchMeetsDescription(overlap, budget);
    var j, n := r.chosen, r.tried;
    assert n <= z + 1;
    assert overlap(j) <= overlap(n - 1);
    assert overlap(j) == 0.0;
  }

  /** With nothing to avoid, the very first candidate wins at once. */
  lemma NothingToAvoidTakesFirstDraw(w: real, h: real, viewport: Option<Viewport>, opts: Options, rng: Random, from: nat)
    requires Fits(w, h, viewport) && !opts.isCenter && opts.maxAttempts > 0
    requires opts.existingRects == [] && opts.centerRect.None?
    ensures Place(w, h, viewport, opts, rng, from)
         == Placed(Some(Draw(rng, from, viewport.value.width - w, viewport.value.height - h)), from + 2)
  {
    var t := Trial(w, h, viewport.value.width - w, viewport.value.height - h, Avoid(opts), rng, from);
    assert Avoid(opts) == [];
    assert CandidateCost(t, 0) == 0.0;
  }

  /** Centering is deterministic: the position depends on nothing but the
      viewport and the tile size, and no random draw is used. */
  lemma CenterIgnoresRandomness(w: real, h: real, viewport: Option<Viewport>,
                                opts1: Options, rng1: Random, from1: nat,
                                opts2: Options, rng2: Random, from2: nat)
    requires opts1.isCenter && opts2.isCenter
    ensures Place(w, h, viewport, opts1, rng1, from1).pos == Place(w, h, viewport, opts2, rng2, from2).pos
    ensures Place(w, h, viewport, opts1, rng1, from1).next == from1
  {
  }

  lemma ScaledDrawInRange(u: real, m: real)
    requires 0.0 <= u < 1.0 && m >= 0.0
    ensures 0.0 <= u * m <= m
  {
    assert u * m <= 1.0 * m;
  }

  /** Every position returned keeps the whole tile inside the viewport, when
      the draws are in [0, 1). */
  lemma PlaceInBounds(w: real, h: real, viewport: Option<Viewport>, opts: Options, rng: Random, from: nat)
    requires UnitDraws(rng)
    ensures
      var r := Place(w, h, viewport, opts, rng, from);
      r.pos.Some? ==>
        && viewport.Some?
        && 0.0 <= r.pos.value.x <= viewport.value.width - w
        && 0.0 <= r.pos.value.y <= viewport.value.height - h
  {
    if Fits(w, h, viewport) {
      var maxX, maxY := viewport.value.width - w, viewport.value.height - h;
      if opts.isCenter {
        assert Place(w, h, viewport, opts, rng, from).pos == Some(Pos(maxX / 2.0, maxY / 2.0));
      } else {
        assert Place(w, h, viewport, opts, rng, from) == Scatter(w, h, maxX, maxY, opts, rng, from);
        var at := ScatterIsDraw(w, h, maxX, maxY, opts, rng, from);
        DrawInRange(rng, at, maxX, maxY);
      }
    }
  }

  /** Whatever the search keeps is one of the random draws. */
  lemma ScatterIsDraw(w: real, h: real, maxX: real, maxY: real, opts: Options, rng: Random, from: nat)
    returns (at: nat)
    ensures Scatter(w, h, maxX, maxY, opts, rng, from).pos == Some(Draw(rng, at, maxX, maxY))
  {
    if opts.maxAttempts <= 0 {
      at := from;
    } else {
      var t := Trial(w, h, maxX, maxY, Avoid(opts), rng, from);
      var found := Search(Overlaps(t), opts.maxAttempts);
      at := from + 2 * found.chosen;
    }
  }

  lemma DrawInRange(rng: Random, at: nat, maxX: real, maxY: real)
    requires UnitDraws(rng) && maxX >= 0.0 && maxY >= 0.0
    ensures 0.0 <= Draw(rng, at, maxX, maxY).x <= maxX
    ensures 0.0 <= Draw(rng, at, maxX, maxY).y <= maxY
  {
    assert 0.0 <= rng(at) < 1.0 && 0.0 <= rng(at + 1) < 1.0;
    ScaledDrawInRange(rng(at), maxX);
    ScaledDrawInRange(rng(at + 1), maxY);
  }

  /** A 1000 by 800 viewport, a 250 by 250 tile, one rectangle to avoid at the
      origin, one attempt, and a draw of (0, 0): the engine still answers, with
      the only candidate it tried, fully overlapping (62500). */
  lemma SingleAttemptFullOverlap(rng: Random, from: nat)
    requires rng(from) == 0.0 && rng(from + 1) == 0.0
    ensures
      var opts := Options(false, [Rect(0.0, 0.0, 250.0, 250.0)], None, 1);
      var r := Place(250.0, 250.0, Some(Viewport(1000.0, 800.0)), opts, rng, from);
      && r == Placed(Some(Pos(0.0, 0.0)), from + 2)
      && Cost(r.pos.value, 250.0, 250.0, Avoid(opts)) == 62500.0
  {
    var opts := Options(false, [Rect(0.0, 0.0, 250.0, 250.0)], None, 1);
    var t := Trial(250.0, 250.0, 750.0, 550.0, Avoid(opts), rng, from);
    assert Candidate(t, 0) == Pos(0.0, 0.0);
    assert Avoid(opts) == [Rect(0.0, 0.0, 250.0, 250.0)];
    assert OverlapArea(TileAt(Pos(0.0, 0.0), 250.0, 250.0), Rect(0.0, 0.0, 250.0, 250.0)) == 62500.0;
  }
}
