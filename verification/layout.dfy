/** One layout pass of the page (src/app/page.tsx, lines 16-47 and 137-191):
    the centre photo is placed first at the exact centre, then every other
    photo in list order, each avoiding the centre tile and the tiles accepted
    before it in the same pass. Rendering is replaced by the list of tiles. */
module Layout {
  import opened Wrappers
  import opened Geometry
  import opened Placement
  import opened Session
  import Query

  const ImageWidth: real := 250.0

  const ImageHeight: real := 250.0

  /** The attempt budget each peripheral placement is given. */
  const PeripheralAttempts: int := 100

  /** One placed photo. */
  datatype Tile = Tile(id: string, rect: Rect, isCenter: bool)

  /** The rectangle a render produced, if any, and the next unused draw. */
  datatype Rendered = Rendered(rect: Option<Rect>, next: nat)

  /** The tiles of a pass in the order they were placed, and the next unused
      draw. */
  datatype Arrangement = Arrangement(tiles: seq<Tile>, next: nat)

  function TileIds(tiles: seq<Tile>): (ids: seq<string>)
    ensures |ids| == |tiles|
  {
    if tiles == [] then [] else [tiles[0].id] + TileIds(tiles[1..])
  }

  function PhotoIds(photos: seq<Photo>): (ids: seq<string>)
    ensures |ids| == |photos|
  {
    if photos == [] then [] else [photos[0].id] + PhotoIds(photos[1..])
  }

  /** Every tile of the pass has the fixed tile size. */
  ghost predicate TileSized(tiles: seq<Tile>)
  {
    forall k :: 0 <= k < |tiles| ==> tiles[k].rect.width == ImageWidth && tiles[k].rect.height == ImageHeight
  }

  /** No tile is marked as the centre. */
  ghost predicate NoCenter(tiles: seq<Tile>)
  {
    forall k :: 0 <= k < |tiles| ==> !tiles[k].isCenter
  }

  /** `renderSingleImageAndRect` without the element: ask the engine for a
      position and turn it into the tile's rectangle. A non-centre tile then
      draws its tilt, which uses up one random draw. */
  function RenderSingle(isCenter: bool, w: real, h: real, viewport: Option<Viewport>, opts: Options,
                        rng: Random, from: nat): (r: Rendered)
    ensures r.rect.None? <==> !Fits(w, h, viewport)
    ensures r.rect.Some? ==> r.rect.value.width == w && r.rect.value.height == h
    ensures r.next >= from
  {
    var placed := Place(w, h, viewport, opts, rng, from);
    if placed.pos.None? then Rendered(None, placed.next)
    else
      var tiltDraws := if isCenter then 0 else 1;
      Rendered(Some(Rect(placed.pos.value.x, placed.pos.value.y, w, h)), placed.next + tiltDraws)
  }

  /** `images.find(img => img.id === centerImageId)`. */
  function FindById(images: seq<Photo>, id: Option<string>): (r: Option<Photo>)
    ensures r.None? <==> id.None? || !HasId(images, id.value)
    ensures r.Some? ==>
      exists k :: (0 <= k < |images| && images[k] == r.value && r.value.id == id.value
                   && forall i :: 0 <= i < k ==> images[i].id != id.value)
  {
    if id.None? || |images| == 0 then None
    else if images[0].id == id.value then Some(images[0])
    else
      var rest := FindById(images[1..], id);
      assert forall k :: 1 <= k < |images| ==> images[k] == images[1..][k - 1];
      rest
  }

  /** `images.filter(img => img.id !== centerImageId)`: with no centre id,
      every photo. */
  function Peripherals(images: seq<Photo>, id: Option<string>): (r: seq<Photo>)
    ensures |r| <= |images|
    ensures id.Some? && HasId(images, id.value) ==> |r| < |images|
  {
    if images == [] then []
    else
      var rest := Peripherals(images[1..], id);
      assert id.Some? && HasId(images, id.value) && images[0].id != id.value ==> HasId(images[1..], id.value) by {
        if id.Some? && HasId(images, id.value) && images[0].id != id.value {
          var k :| 0 <= k < |images| && images[k].id == id.value;
          assert images[1..][k - 1] == images[k];
        }
      }
      if id.Some? && images[0].id == id.value then rest else [images[0]] + rest
  }

  /** The filter keeps exactly the photos that do not carry the centre id. */
  lemma {:induction false} PeripheralsMembers(images: seq<Photo>, id: Option<string>)
    ensures forall k :: 0 <= k < |Peripherals(images, id)| ==>
      Peripherals(images, id)[k] in images && (id.Some? ==> Peripherals(images, id)[k].id != id.value)
    ensures forall k :: 0 <= k < |images| && (id.None? || images[k].id != id.value) ==>
      images[k] in Peripherals(images, id)
    decreases |images|
  {
    if images != [] {
      PeripheralsMembers(images[1..], id);
      assert forall k :: 1 <= k < |images| ==> images[k] == images[1..][k - 1];
    }
  }

  /** The filter works photo by photo and keeps list order: filtering a
      concatenation concatenates the filtered parts. */
  lemma {:induction false} PeripheralsAppend(a: seq<Photo>, b: seq<Photo>, id: Option<string>)
    ensures Peripherals(a + b, id) == Peripherals(a, id) + Peripherals(b, id)
    decreases |a|
  {
    if a == [] {
      assert a + b == b;
    } else {
      assert (a + b)[0] == a[0];
      assert (a + b)[1..] == a[1..] + b;
      PeripheralsAppend(a[1..], b, id);
      var head := if id.Some? && a[0].id == id.value then [] else [a[0]];
      assert Peripherals(a, id) == head + Peripherals(a[1..], id);
      assert Peripherals(a + b, id) == head + Peripherals(a[1..] + b, id);
      assert head + (Peripherals(a[1..], id) + Peripherals(b, id)) == (head + Peripherals(a[1..], id)) + Peripherals(b, id);
    }
  }

  /** The loop over the peripheral photos: `placed` holds the rectangles
      accepted so far in this pass; a photo the engine cannot place is skipped
      and adds nothing to it. */
  function PlacePeripherals(photos: seq<Photo>, centerRect: Option<Rect>, placed: seq<Rect>,
                            viewport: Option<Viewport>, rng: Random, from: nat): Arrangement
    decreases |photos|
  {
    if photos == [] then Arrangement([], from)
    else
      var opts := Options(false, placed, centerRect, PeripheralAttempts);
      var one := RenderSingle(false, ImageWidth, ImageHeight, viewport, opts, rng, from);
      if one.rect.Some? then
        var rest := PlacePeripherals(photos[1..], centerRect, placed + [one.rect.value], viewport, rng, one.next);
        Arrangement([Tile(photos[0].id, one.rect.value, false)] + rest.tiles, rest.next)
      else
        PlacePeripherals(photos[1..], centerRect, placed, viewport, rng, one.next)
  }

  /** Every peripheral tile has the fixed size. */
  lemma {:induction false} PeripheralsSized(photos: seq<Photo>, centerRect: Option<Rect>, placed: seq<Rect>,
                                            viewport: Option<Viewport>, rng: Random, from: nat)
    ensures TileSized(PlacePeripherals(photos, centerRect, placed, viewport, rng, from).tiles)
    decreases |photos|
  {
    if photos != [] {
      var opts := Options(false, placed, centerRect, PeripheralAttempts);
      var one := RenderSingle(false, ImageWidth, ImageHeight, viewport, opts, rng, from);
      if one.rect.Some? {
        PeripheralsSized(photos[1..], centerRect, placed + [one.rect.value], viewport, rng, one.next);
      } else {
        PeripheralsSized(photos[1..], centerRect, placed, viewport, rng, one.next);
      }
    }
  }

  /** No peripheral tile is marked as the centre. */
  lemma {:induction false} PeripheralsNotCenter(photos: seq<Photo>, centerRect: Option<Rect>, placed: seq<Rect>,
                                                viewport: Option<Viewport>, rng: Random, from: nat)
    ensures NoCenter(PlacePeripherals(photos, centerRect, placed, viewport, rng, from).tiles)
    decreases |photos|
  {
    if photos != [] {
      var opts := Options(false, placed, centerRect, PeripheralAttempts);
      var one := RenderSingle(false, ImageWidth, ImageHeight, viewport, opts, rng, from);
      if one.rect.Some? {
        PeripheralsNotCenter(photos[1..], centerRect, placed + [one.rect.value], viewport, rng, one.next);
      } else {
        PeripheralsNotCenter(photos[1..], centerRect, placed, viewport, rng, one.next);
      }
    }
  }

  /** The peripheral loop gives every photo a tile, in list order, when a tile
      fits the viewport, and gives none when it does not. */
  lemma {:induction false} PeripheralsIds(photos: seq<Photo>, centerRect: Option<Rect>, placed: seq<Rect>,
                                          viewport: Option<Viewport>, rng: Random, from: nat)
    ensures
      var r := PlacePeripherals(photos, centerRect, placed, viewport, rng, from);
      && |r.tiles| <= |photos|
      && (Fits(ImageWidth, ImageHeight, viewport) ==> TileIds(r.tiles) == PhotoIds(photos))
      && (!Fits(ImageWidth, ImageHeight, viewport) ==> r.tiles == [])
    decreases |photos|
  {
    if photos != [] {
      var opts := Options(false, placed, centerRect, PeripheralAttempts);
      var one := RenderSingle(false, ImageWidth, ImageHeight, viewport, opts, rng, from);
      if one.rect.Some? {
        var placed' := placed + [one.rect.value];
        PeripheralsIds(photos[1..], centerRect, placed', viewport, rng, one.next);
        var rest := PlacePeripherals(photos[1..], centerRect, placed', viewport, rng, one.next);
        var tiles := [Tile(photos[0].id, one.rect.value, false)] + rest.tiles;
        assert PlacePeripherals(photos, centerRect, placed, viewport, rng, from).tiles == tiles;
        assert TileIds(tiles) == [photos[0].id] + TileIds(rest.tiles);
        assert PhotoIds(photos) == [photos[0].id] + PhotoIds(photos[1..]);
      } else {
        PeripheralsIds(photos[1..], centerRect, placed, viewport, rng, one.next);
      }
    }
  }

  /** The centre tile's options: `{ isCenter: true }` over the defaults. */
  const CenterOptions: Options := DefaultOptions.(isCenter := true)

  /** Step 1 of `renderImages`: the centre photo, found by id, placed with
      `isCenter`; nothing when no image carries the centre id. */
  function PlaceCenter(images: seq<Photo>, centerId: Option<string>, viewport: Option<Viewport>,
                       rng: Random, from: nat): (r: Rendered)
    ensures r.rect.Some? <==>
      Fits(ImageWidth, ImageHeight, viewport) && centerId.Some? && HasId(images, centerId.value)
    ensures r.rect.Some? ==> r.rect.value.width == ImageWidth && r.rect.value.height == ImageHeight
    ensures r.next == from
  {
    var center := FindById(images, centerId);
    if center.Some? then RenderSingle(true, ImageWidth, ImageHeight, viewport, CenterOptions, rng, from)
    else Rendered(None, from)
  }

  /** `renderImages`: nothing while the first fetch is loading with no images;
      otherwise the centre photo first (when its id is among the images), then
      the peripherals. */
  function RenderImages(loading: bool, images: seq<Photo>, centerId: Option<string>,
                        viewport: Option<Viewport>, rng: Random, from: nat): Arrangement
  {
    if loading && |images| == 0 then Arrangement([], from)
    else
      var one := PlaceCenter(images, centerId, viewport, rng, from);
      var head := if one.rect.Some? then [Tile(centerId.value, one.rect.value, true)] else [];
      var rest := PlacePeripherals(Peripherals(images, centerId), one.rect, [], viewport, rng, one.next);
      Arrangement(head + rest.tiles, rest.next)
  }

  /** A pass shows at most one tile per photo, all of the fixed size, with
      only the first tile possibly marked as the centre, and nothing at all
      when a tile does not fit the viewport. */
  lemma RenderImagesSized(loading: bool, images: seq<Photo>, centerId: Option<string>,
                          viewport: Option<Viewport>, rng: Random, from: nat)
    ensures
      var r := RenderImages(loading, images, centerId, viewport, rng, from);
      && |r.tiles| <= |images|
      && TileSized(r.tiles)
      && (forall k :: 1 <= k < |r.tiles| ==> !r.tiles[k].isCenter)
      && (!Fits(ImageWidth, ImageHeight, viewport) ==> r.tiles == [])
  {
    var r := RenderImages(loading, images, centerId, viewport, rng, from);
    if !(loading && |images| == 0) {
      var one := PlaceCenter(images, centerId, viewport, rng, from);
      var head := if one.rect.Some? then [Tile(centerId.value, one.rect.value, true)] else [];
      var peripherals := Peripherals(images, centerId);
      PeripheralsSized(peripherals, one.rect, [], viewport, rng, one.next);
      PeripheralsNotCenter(peripherals, one.rect, [], viewport, rng, one.next);
      PeripheralsIds(peripherals, one.rect, [], viewport, rng, one.next);
      var rest := PlacePeripherals(peripherals, one.rect, [], viewport, rng, one.next);
      if one.rect.Some? {
        var t := Tile(centerId.value, one.rect.value, true);
        assert r.tiles == [t] + rest.tiles;
        assert r.tiles[1..] == rest.tiles;
        assert forall k :: 1 <= k < |r.tiles| ==> r.tiles[k] == rest.tiles[k - 1];
      } else {
        assert r.tiles == rest.tiles;
      }
    }
  }

  /** The centre tile, when there is one, comes first and exists exactly when
      a tile fits and some photo carries the centre id; when a tile fits,
      every other photo follows in list order. */
  lemma RenderImagesOrder(loading: bool, images: seq<Photo>, centerId: Option<string>,
                          viewport: Option<Viewport>, rng: Random, from: nat)
    ensures
      var r := RenderImages(loading, images, centerId, viewport, rng, from);
      && ((|r.tiles| > 0 && r.tiles[0].isCenter) <==>
            Fits(ImageWidth, ImageHeight, viewport) && centerId.Some? && HasId(images, centerId.value))
      && (Fits(ImageWidth, ImageHeight, viewport) ==>
            TileIds(r.tiles) ==
              (if centerId.Some? && HasId(images, centerId.value) then [centerId.value] else [])
              + PhotoIds(Peripherals(images, centerId)))
  {
    var r := RenderImages(loading, images, centerId, viewport, rng, from);
    if !(loading && |images| == 0) {
      var one := PlaceCenter(images, centerId, viewport, rng, from);
      var head := if one.rect.Some? then [Tile(centerId.value, one.rect.value, true)] else [];
      var peripherals := Peripherals(images, centerId);
      PeripheralsNotCenter(peripherals, one.rect, [], viewport, rng, one.next);
      PeripheralsIds(peripherals, one.rect, [], viewport, rng, one.next);
      var rest := PlacePeripherals(peripherals, one.rect, [], viewport, rng, one.next);
      assert r.tiles == head + rest.tiles;
      if one.rect.Some? {
        assert (head + rest.tiles)[1..] == rest.tiles;
      } else {
        assert head + rest.tiles == rest.tiles;
      }
    }
  }

  /** The rendered rectangle is exactly the engine's position with the tile
      size, and a non-centre tile's tilt uses the draw after the engine's. */
  lemma RenderSingleIsPlacement(isCenter: bool, w: real, h: real, viewport: Option<Viewport>, opts: Options,
                                rng: Random, from: nat)
    ensures
      var r := RenderSingle(isCenter, w, h, viewport, opts, rng, from);
      var placed := Place(w, h, viewport, opts, rng, from);
      && (r.rect.None? <==> placed.pos.None?)
      && (r.rect.Some? ==> r.rect.value == TileAt(placed.pos.value, w, h))
      && r.next == placed.next + (if r.rect.Some? && !isCenter then 1 else 0)
  {
  }

  /** The rectangle lies wholly inside the viewport. */
  predicate Inside(r: Rect, viewport: Viewport)
  {
    0.0 <= r.x && r.x + r.width <= viewport.width && 0.0 <= r.y && r.y + r.height <= viewport.height
  }

  /** The tiles were accepted one after another from draw `at` on: the
      first is what a peripheral placement avoiding `placed` and the centre
      rectangle returns at `at`, and each later one is what the next such
      placement returns, avoiding `placed` and every tile before it, at the
      draw right after the previous tile's placement and tilt. */
  ghost predicate AcceptedAvoidingEarlier(viewport: Option<Viewport>, rng: Random, placed: seq<Rect>,
                                          centerRect: Option<Rect>, at: nat, tiles: seq<Tile>)
    decreases |tiles|
  {
    || tiles == []
    || (var one := RenderSingle(false, ImageWidth, ImageHeight, viewport,
                                Options(false, placed, centerRect, PeripheralAttempts), rng, at);
        && one.rect == Some(tiles[0].rect)
        && AcceptedAvoidingEarlier(viewport, rng, placed + [tiles[0].rect], centerRect, one.next, tiles[1..]))
  }

  /** Greedy single pass: the k-th accepted peripheral was placed avoiding the
      centre rectangle and exactly the rectangles accepted before it, never
      the later ones, using the draws right after the previous tile's; a
      photo that is skipped uses no draw. */
  lemma {:induction false} PeripheralsAvoidEarlier(photos: seq<Photo>, centerRect: Option<Rect>, placed: seq<Rect>,
                                                   viewport: Option<Viewport>, rng: Random, from: nat)
    ensures AcceptedAvoidingEarlier(viewport, rng, placed, centerRect, from,
                                    PlacePeripherals(photos, centerRect, placed, viewport, rng, from).tiles)
    decreases |photos|
  {
    var r := PlacePeripherals(photos, centerRect, placed, viewport, rng, from);
    if photos != [] {
      var opts := Options(false, placed, centerRect, PeripheralAttempts);
      var one := RenderSingle(false, ImageWidth, ImageHeight, viewport, opts, rng, from);
      if one.rect.Some? {
        var placed' := placed + [one.rect.value];
        PeripheralsAvoidEarlier(photos[1..], centerRect, placed', viewport, rng, one.next);
        var rest := PlacePeripherals(photos[1..], centerRect, placed', viewport, rng, one.next);
        var t := Tile(photos[0].id, one.rect.value, false);
        assert r.tiles == [t] + rest.tiles;
        assert r.tiles[1..] == rest.tiles;
      } else {
        assert one.next == from;
        PeripheralsAvoidEarlier(photos[1..], centerRect, placed, viewport, rng, one.next);
        assert r == PlacePeripherals(photos[1..], centerRect, placed, viewport, rng, one.next);
      }
    }
  }

  /** Every tile lies wholly inside the viewport. */
  ghost predicate AllInside(tiles: seq<Tile>, viewport: Option<Viewport>)
  {
    forall k :: 0 <= k < |tiles| ==> viewport.Some? && Inside(tiles[k].rect, viewport.value)
  }

  /** With draws in [0, 1), every peripheral tile lies inside the viewport. */
  lemma {:induction false} PeripheralsInside(photos: seq<Photo>, centerRect: Option<Rect>, placed: seq<Rect>,
                                             viewport: Option<Viewport>, rng: Random, from: nat)
    requires UnitDraws(rng)
    ensures AllInside(PlacePeripherals(photos, centerRect, placed, viewport, rng, from).tiles, viewport)
    decreases |photos|
  {
    var r := PlacePeripherals(photos, centerRect, placed, viewport, rng, from);
    if photos != [] {
      var opts := Options(false, placed, centerRect, PeripheralAttempts);
      var one := RenderSingle(false, ImageWidth, ImageHeight, viewport, opts, rng, from);
      if one.rect.Some? {
        RenderSingleIsPlacement(false, ImageWidth, ImageHeight, viewport, opts, rng, from);
        PlaceInBounds(ImageWidth, ImageHeight, viewport, opts, rng, from);
        assert Inside(one.rect.value, viewport.value);
        var placed' := placed + [one.rect.value];
        PeripheralsInside(photos[1..], centerRect, placed', viewport, rng, one.next);
        var rest := PlacePeripherals(photos[1..], centerRect, placed', viewport, rng, one.next);
        assert r.tiles == [Tile(photos[0].id, one.rect.value, false)] + rest.tiles;
      } else {
        PeripheralsInside(photos[1..], centerRect, placed, viewport, rng, one.next);
        assert r == PlacePeripherals(photos[1..], centerRect, placed, viewport, rng, one.next);
      }
    }
  }

  /** With draws in [0, 1), every tile of a pass lies inside the viewport. */
  lemma RenderImagesInside(loading: bool, images: seq<Photo>, centerId: Option<string>,
                           viewport: Option<Viewport>, rng: Random, from: nat)
    requires UnitDraws(rng)
    ensures AllInside(RenderImages(loading, images, centerId, viewport, rng, from).tiles, viewport)
  {
    var r := RenderImages(loading, images, centerId, viewport, rng, from);
    if !(loading && |images| == 0) {
      var one := PlaceCenter(images, centerId, viewport, rng, from);
      PeripheralsInside(Peripherals(images, centerId), one.rect, [], viewport, rng, one.next);
      var rest := PlacePeripherals(Peripherals(images, centerId), one.rect, [], viewport, rng, one.next);
      if one.rect.Some? {
        assert one == RenderSingle(true, ImageWidth, ImageHeight, viewport, CenterOptions, rng, from);
        RenderSingleIsPlacement(true, ImageWidth, ImageHeight, viewport, CenterOptions, rng, from);
        PlaceInBounds(ImageWidth, ImageHeight, viewport, CenterOptions, rng, from);
        assert r.tiles == [Tile(centerId.value, one.rect.value, true)] + rest.tiles;
        assert forall k :: 1 <= k < |r.tiles| ==> r.tiles[k] == rest.tiles[k - 1];
      } else {
        assert r.tiles == rest.tiles;
      }
    }
  }

  /** The centre tile of a pass sits with equal margins on opposite sides of
      the viewport. */
  lemma CenterTileCentred(loading: bool, images: seq<Photo>, centerId: Option<string>,
                          viewport: Option<Viewport>, rng: Random, from: nat)
    ensures
      var tiles := RenderImages(loading, images, centerId, viewport, rng, from).tiles;
      |tiles| > 0 && tiles[0].isCenter ==>
        && viewport.Some?
        && tiles[0].rect.x == viewport.value.width - (tiles[0].rect.x + ImageWidth)
        && tiles[0].rect.y == viewport.value.height - (tiles[0].rect.y + ImageHeight)
  {
    var r := RenderImages(loading, images, centerId, viewport, rng, from);
    if !(loading && |images| == 0) {
      var one := PlaceCenter(images, centerId, viewport, rng, from);
      PeripheralsNotCenter(Peripherals(images, centerId), one.rect, [], viewport, rng, one.next);
      var rest := PlacePeripherals(Peripherals(images, centerId), one.rect, [], viewport, rng, one.next);
      if one.rect.Some? {
        assert one == RenderSingle(true, ImageWidth, ImageHeight, viewport, CenterOptions, rng, from);
        RenderSingleIsPlacement(true, ImageWidth, ImageHeight, viewport, CenterOptions, rng, from);
        assert r.tiles[0] == Tile(centerId.value, one.rect.value, true);
      } else {
        assert r.tiles == rest.tiles;
      }
    }
  }

  /** In a whole pass, the peripheral tiles (those after the centre tile, if
      any) were each placed avoiding the centre tile and exactly the
      peripheral tiles before them, starting at the pass's first draw (the
      centre uses none) and each at the draw after the previous tile's tilt;
      the pass starts with nothing else to avoid. */
  lemma RenderImagesGreedy(loading: bool, images: seq<Photo>, centerId: Option<string>,
                           viewport: Option<Viewport>, rng: Random, from: nat)
    ensures
      var tiles := RenderImages(loading, images, centerId, viewport, rng, from).tiles;
      var h := if |tiles| > 0 && tiles[0].isCenter then 1 else 0;
      AcceptedAvoidingEarlier(viewport, rng, [], if h == 1 then Some(tiles[0].rect) else None, from, tiles[h..])
  {
    var r := RenderImages(loading, images, centerId, viewport, rng, from);
    if !(loading && |images| == 0) {
      var one := PlaceCenter(images, centerId, viewport, rng, from);
      var head := if one.rect.Some? then [Tile(centerId.value, one.rect.value, true)] else [];
      PeripheralsAvoidEarlier(Peripherals(images, centerId), one.rect, [], viewport, rng, one.next);
      PeripheralsNotCenter(Peripherals(images, centerId), one.rect, [], viewport, rng, one.next);
      var rest := PlacePeripherals(Peripherals(images, centerId), one.rect, [], viewport, rng, one.next);
      assert r.tiles == head + rest.tiles;
      if head == [] {
        assert |rest.tiles| > 0 ==> !rest.tiles[0].isCenter;
        assert r.tiles[0..] == rest.tiles;
      } else {
        assert r.tiles[1..] == rest.tiles;
      }
    }
  }

  /** After any search or corrected selection, a layout in a viewport that
      fits a tile opens with the centre tile. */
  lemma CenterTileLeads(s: State, viewport: Option<Viewport>, rng: Random, from: nat)
    requires CenterShown(s) && s.centerId.Some?
    requires Fits(ImageWidth, ImageHeight, viewport)
    ensures
      var r := RenderImages(s.loading, s.images, s.centerId, viewport, rng, from);
      |r.tiles| > 0 && r.tiles[0].isCenter && r.tiles[0].id == s.centerId.value
  {
    var r := RenderImages(s.loading, s.images, s.centerId, viewport, rng, from);
    RenderImagesOrder(s.loading, s.images, s.centerId, viewport, rng, from);
    assert TileIds(r.tiles)[0] == s.centerId.value;
  }

  /** The click of `SelectAsWrittenLosesCenter` leads to a layout with no
      centre tile at all, whatever the viewport and draws. */
  lemma SelectAsWrittenShowsNoCenter(viewport: Option<Viewport>, rng: Random, from: nat)
    ensures
      var a := Photo("a", None);
      var s := State(false, [a, Photo("b", None)], Some("a"), Query.DefaultQuery);
      var r := SelectAsWritten(s, Photo("b", None), Fetched([Photo("x", None), a]));
      var tiles := RenderImages(r.loading, r.images, r.centerId, viewport, rng, from).tiles;
      forall k :: 0 <= k < |tiles| ==> !tiles[k].isCenter
  {
    SelectAsWrittenLosesCenter();
    var a := Photo("a", None);
    var s := State(false, [a, Photo("b", None)], Some("a"), Query.DefaultQuery);
    var r := SelectAsWritten(s, Photo("b", None), Fetched([Photo("x", None), a]));
    RenderImagesSized(r.loading, r.images, r.centerId, viewport, rng, from);
    RenderImagesOrder(r.loading, r.images, r.centerId, viewport, rng, from);
  }
}
