/** The mapping canvas's event handlers (src/components/MapperV2.tsx): a
    stage click places the part under the cursor and moves the cursor to
    the first part still unmapped, a drag-end re-places a marker inside the
    image, and an image upload binds the file and restarts the view's
    mapping. Pointer positions are in pixels of the rendered image; the
    store keeps them as fractions of its width and height. */
module Mapper {
  import opened Interfaces
  import opened StoreSpec
  import opened Store
  import opened StatusBar

  /** A position on the stage, in pixels. */
  datatype Point = Point(x: real, y: real)

  /** The rendered image's size, in pixels. */
  datatype Dimensions = Dimensions(width: real, height: real)

  /** Pixel position to fractions of the image size; rendering multiplies
      back, so a marker is drawn where it was placed. */
  function Normalize(p: Point, d: Dimensions): (c: Coordinates)
    requires d.width > 0.0 && d.height > 0.0
    ensures c.x * d.width == p.x && c.y * d.height == p.y
  {
    Coordinates(p.x / d.width, p.y / d.height)
  }

  /** `Math.max(0, Math.min(v, hi))`. */
  function Clamp(v: real, hi: real): (r: real)
    ensures 0.0 <= r
    ensures 0.0 <= hi ==> r <= hi
    ensures 0.0 <= v <= hi ==> r == v
    ensures r == v || r == 0.0 || r == hi
  {
    var low := if v < hi then v else hi;
    if 0.0 < low then low else 0.0
  }

  /** `dragBoundFunc`: a dragged marker is held inside [0, W] x [0, H]. */
  function DragBound(p: Point, d: Dimensions): (r: Point)
    ensures 0.0 <= d.width ==> 0.0 <= r.x <= d.width
    ensures 0.0 <= d.height ==> 0.0 <= r.y <= d.height
  {
    Point(Clamp(p.x, d.width), Clamp(p.y, d.height))
  }

  /** The bound keeps a marker on the image, leaves a position already on
      it alone, and so bounding twice is bounding once. */
  lemma DragBoundClamps(p: Point, d: Dimensions)
    requires 0.0 <= d.width && 0.0 <= d.height
    ensures 0.0 <= DragBound(p, d).x <= d.width && 0.0 <= DragBound(p, d).y <= d.height
    ensures 0.0 <= p.x <= d.width && 0.0 <= p.y <= d.height ==> DragBound(p, d) == p
    ensures DragBound(DragBound(p, d), d) == DragBound(p, d)
  {
  }

  /** A dragged marker's stored coordinates are fractions in [0, 1]. */
  lemma {:induction false} DraggedMarkerStaysOnImage(p: Point, d: Dimensions)
    requires d.width > 0.0 && d.height > 0.0
    ensures var c := Normalize(DragBound(p, d), d);
      0.0 <= c.x <= 1.0 && 0.0 <= c.y <= 1.0
  {
    var q := DragBound(p, d);
    var c := Normalize(q, d);
    DragBoundClamps(p, d);
    FractionInUnit(q.x, d.width);
    FractionInUnit(q.y, d.height);
  }

  /** A length in [0, w] is a fraction in [0, 1] of a positive `w`. */
  lemma FractionInUnit(v: real, w: real)
    requires 0.0 < w && 0.0 <= v <= w
    ensures 0.0 <= v / w <= 1.0
  {
  }

  /** A click is not clamped: a position right of or below the image is
      stored beyond 1, one left of or above it below 0. */
  lemma ClickIsNotClamped(p: Point, d: Dimensions)
    requires d.width > 0.0 && d.height > 0.0
    ensures p.x > d.width ==> Normalize(p, d).x > 1.0
    ensures p.y > d.height ==> Normalize(p, d).y > 1.0
    ensures p.x < 0.0 ==> Normalize(p, d).x < 0.0
    ensures p.y < 0.0 ==> Normalize(p, d).y < 0.0
  {
    FractionOutsideUnit(p.x, d.width);
    FractionOutsideUnit(p.y, d.height);
  }

  /** A length beyond a positive `w` is a fraction beyond 1, a negative one
      a negative fraction. */
  lemma FractionOutsideUnit(v: real, w: real)
    requires 0.0 < w
    ensures v > w ==> v / w > 1.0
    ensures v < 0.0 ==> v / w < 0.0
  {
    var q := v / w;
    assert q * w == v;
    assert (q - 1.0) * w == v - w;
  }

  // ---------------------------------------------------------------------
  // The click's cursor move
  // ---------------------------------------------------------------------

  /** Where handleStageClick moves the cursor: to the render-time index of
      the first part numbered like the first unmapped part after mapping;
      None when no part is unmapped (the cursor stays). */
  function NextCursor(before: seq<Part>, after: seq<Part>): (r: Option<nat>)
    ensures r.Some? ==> r.value < |before|
  {
    var next := FirstUnmapped(after);
    if next.None? then None
    else
      var j := IndexOfPartNumber(before, next.value.partNumber);
      if j >= 0 then Some(j) else None
  }

  /** After a click the cursor moves exactly when some part is still
      unmapped, and it lands no later than that part, on one with its number. */
  lemma {:induction false} ClickCursorFollowsUnmapped(before: seq<Part>, n: int, c: Coordinates)
    ensures var after := ApplyMapping(before, n, c);
      NextCursor(before, after).None? <==> forall j :: 0 <= j < |after| ==> after[j].status != Some(Unmapped)
    ensures var after := ApplyMapping(before, n, c);
      var r := NextCursor(before, after);
      r.Some? ==>
        r.value <= FirstUnmappedIndex(after)
        && before[r.value].partNumber == after[FirstUnmappedIndex(after)].partNumber
  {
    var after := ApplyMapping(before, n, c);
    var k := FirstUnmappedIndex(after);
    if 0 <= k {
      var j := IndexOfPartNumber(before, after[k].partNumber);
      assert before[k].partNumber == after[k].partNumber;
      assert 0 <= j <= k;
    }
  }

  /** With part numbers unique within the view, the cursor lands on the
      first unmapped part itself. */
  lemma {:induction false} ClickCursorLandsOnFirstUnmapped(before: seq<Part>, n: int, c: Coordinates)
    requires UniquePartNumbers(before)
    ensures var after := ApplyMapping(before, n, c);
      var r := NextCursor(before, after);
      r.Some? ==>
        r.value == FirstUnmappedIndex(after)
        && after[r.value].status == Some(Unmapped)
        && forall j :: 0 <= j < r.value ==> after[j].status != Some(Unmapped)
  {
    ClickCursorFollowsUnmapped(before, n, c);
  }

  /** With a repeated part number the cursor can land on a part that is
      already mapped: the first unmapped part shares its number with an
      earlier, mapped one. */
  lemma RepeatedNumberCursorOnMappedPart()
    ensures var before := [
        Part(5, "Bolt", 1, "front", Some(Mapped), Some(Coordinates(0.1, 0.1))),
        Part(5, "Bolt", 1, "front", Some(Unmapped), None),
        Part(6, "Nut", 1, "front", Some(Unmapped), None)];
      var after := ApplyMapping(before, 6, Coordinates(0.5, 0.5));
      NextCursor(before, after) == Some(0) && after[0].status == Some(Mapped)
  {
    var before := [
        Part(5, "Bolt", 1, "front", Some(Mapped), Some(Coordinates(0.1, 0.1))),
        Part(5, "Bolt", 1, "front", Some(Unmapped), None),
        Part(6, "Nut", 1, "front", Some(Unmapped), None)];
    var after := ApplyMapping(before, 6, Coordinates(0.5, 0.5));
    assert after[1] == before[1];
    assert FirstUnmappedIndex(after) == 1;
  }

  /** A click on a part not yet mapped adds one to the mapped count when
      part numbers are unique. */
  lemma {:induction false} ClickMapsOneMorePart(before: seq<Part>, k: nat, c: Coordinates)
    requires UniquePartNumbers(before) && k < |before|
    requires before[k].status != Some(Mapped)
    ensures MappedCount(ApplyMapping(before, before[k].partNumber, c)) == MappedCount(before) + 1
  {
    MappedCountStep(before, ApplyMapping(before, before[k].partNumber, c), k);
  }

  /** After an upload every part is unmapped, so progress restarts at 0
      and the status line names the first part. */
  lemma {:induction false} UploadRestartsProgress(ps: seq<Part>)
    ensures MappedCount(ResetAll(ps)) == 0 && Progress(ResetAll(ps)) == 0
    ensures |ps| > 0 ==> FirstUnmapped(ResetAll(ps)) == Some(ResetAll(ps)[0])
  {
    MappedCountZero(ResetAll(ps));
    ProgressEnds(ResetAll(ps));
  }

  // ---------------------------------------------------------------------
  // Handlers
  // ---------------------------------------------------------------------

  /** The click guard: the selected view is in mapping mode and the cursor
      is on one of its parts. */
  predicate ClickAccepted(mode: ViewMode, ps: seq<Part>, cursor: nat)
  {
    mode == Mapping && cursor < |ps|
  }

  /** handleStageClick: places the part at the cursor where the pointer is,
      then moves the cursor to the first part still unmapped. */
  method HandleStageClick(store: MapperStore, dims: Dimensions, pointer: Point)
    requires store.Valid()
    requires dims.width > 0.0 && dims.height > 0.0
    modifies store
    ensures store.Valid()
    ensures !ClickAccepted(old(store.CurrentViewMode()), old(store.CurrentViewParts()), old(store.CurrentPartIndex())) ==>
      unchanged(store)
    ensures ClickAccepted(old(store.CurrentViewMode()), old(store.CurrentViewParts()), old(store.CurrentPartIndex())) ==>
      var view := old(store.selectedView);
      var before := old(store.CurrentViewParts());
      var after := ApplyMapping(before, before[old(store.CurrentPartIndex())].partNumber, Normalize(pointer, dims));
      && store.partsByView == old(store.partsByView)[view := after]
      && store.viewModes == old(store.viewModes)[view := ModeAfterMapping(after, Mapping)]
      && store.currentPartIndices ==
           (match NextCursor(before, after)
            case Some(j) => old(store.currentPartIndices)[view := j]
            case None => old(store.currentPartIndices))
      && store.views == old(store.views) && store.selectedView == view && store.images == old(store.images)
      && store.urlCounter == old(store.urlCounter) && store.liveUrls == old(store.liveUrls)
      && store.revocations == old(store.revocations)
  {
    if store.CurrentViewMode() != Mapping {
      return;
    }
    var view := store.selectedView;
    var parts := store.CurrentViewParts();
    var cursor := store.CurrentPartIndex();
    if cursor >= |parts| {
      return;
    }
    var c := Normalize(pointer, dims);
    store.UpdatePartMapping(view, parts[cursor].partNumber, c.x, c.y);
    var nextUnmapped := store.NextUnmappedPart();
    if nextUnmapped.Some? {
      var nextIndex := IndexOfPartNumber(parts, nextUnmapped.value.partNumber);
      if nextIndex >= 0 {
        store.SetCurrentPartIndex(view, nextIndex);
      }
    }
  }

  /** handleDragEnd: re-places every part of the selected view numbered
      `partNumber` at the bounded drop position, in any mode; the cursor
      does not move. */
  method HandleDragEnd(store: MapperStore, dims: Dimensions, partNumber: int, dropped: Point)
    requires store.Valid()
    requires dims.width > 0.0 && dims.height > 0.0
    requires store.selectedView in store.partsByView
    modifies store
    ensures store.Valid()
    ensures var view := old(store.selectedView);
      var after := ApplyMapping(old(store.partsByView)[view], partNumber, Normalize(DragBound(dropped, dims), dims));
      && store.partsByView == old(store.partsByView)[view := after]
      && store.viewModes == old(store.viewModes)[view := ModeAfterMapping(after, old(store.viewModes)[view])]
    ensures store.currentPartIndices == old(store.currentPartIndices)
    ensures store.views == old(store.views) && store.selectedView == old(store.selectedView)
    ensures store.images == old(store.images)
    ensures store.urlCounter == old(store.urlCounter) && store.liveUrls == old(store.liveUrls)
    ensures store.revocations == old(store.revocations)
  {
    var node := DragBound(dropped, dims);
    var c := Normalize(node, dims);
    store.UpdatePartMapping(store.selectedView, partNumber, c.x, c.y);
  }

  /** handleImageUpload: with a file and a selected view, binds the file,
      resets the view's parts, puts the cursor on the first part and starts
      mapping; otherwise changes nothing. */
  method HandleImageUpload(store: MapperStore, file: Option<File>)
    requires store.Valid()
    requires file.Some? && store.selectedView != "" ==> store.selectedView in store.partsByView
    modifies store
    ensures store.Valid()
    ensures !(file.Some? && old(store.selectedView) != "") ==> unchanged(store)
    ensures file.Some? && old(store.selectedView) != "" ==>
      var view := old(store.selectedView);
      var url := ObjectUrl(old(store.urlCounter));
      && store.images == old(store.images)[view := ImageState(file, Some(url))]
      && store.urlCounter == old(store.urlCounter) + 1
      && url !in old(store.liveUrls) && url !in old(store.revocations)
      && store.liveUrls == (old(store.liveUrls) - OptionSet(HandleOf(old(store.images), view))) + {url}
      && store.revocations == old(store.revocations) + (if HandleOf(old(store.images), view).Some? then [HandleOf(old(store.images), view).value] else [])
      && store.partsByView == old(store.partsByView)[view := ResetAll(old(store.partsByView)[view])]
      && store.viewModes == old(store.viewModes)[view := Mapping]
      && store.currentPartIndices == old(store.currentPartIndices)[view := 0]
      && store.views == old(store.views) && store.selectedView == view
    ensures old(store.UrlsBalanced()) ==> store.UrlsBalanced()
  {
    if file.Some? && store.selectedView != "" {
      var view := store.selectedView;
      store.SetImage(view, file);
      store.ResetViewMapping(view);
      store.SetCurrentPartIndex(view, 0);
      store.SetViewMode(view, Mapping);
    }
  }

  // ---------------------------------------------------------------------
  // A session
  // ---------------------------------------------------------------------

  /** Two parts of the same view form one group, in catalog order. */
  lemma OneViewCatalog(a: Part, b: Part)
    requires a.view == b.view
    ensures CatalogViews([a, b]) == [a.view]
    ensures CatalogParts([a, b], a.view) == [WithDefaultStatus(a), WithDefaultStatus(b)]
  {
    assert [a, b][..1] == [a];
    assert [a][..0] == [];
    assert CatalogViews([a]) == [a.view];
    assert CatalogParts([a], a.view) == [WithDefaultStatus(a)];
  }

  /** The store holds exactly one view, "front", selected, with these
      parts, mode and cursor. */
  ghost predicate OneViewSession(store: MapperStore, ps: seq<Part>, mode: ViewMode, cursor: nat)
    reads store
  {
    && store.Valid()
    && store.selectedView == "front" && store.views == ["front"]
    && "front" in store.partsByView && store.partsByView["front"] == ps
    && store.viewModes.Keys == {"front"} && store.viewModes["front"] == mode
    && "front" in store.currentPartIndices && store.currentPartIndices["front"] == cursor
  }

  /** Loading the catalog `[a, b]` of view "front" into a new store. */
  method LoadSession(a: Part, b: Part) returns (store: MapperStore)
    requires a.view == "front" && b.view == "front"
    ensures fresh(store)
    ensures OneViewSession(store, [WithDefaultStatus(a), WithDefaultStatus(b)], Initial, 0)
  {
    OneViewCatalog(a, b);
    store := new MapperStore();
    store.InitializePartsData([a, b]);
    assert store.viewModes.Keys == {"front"};
  }

  /** Uploading an image for the one view starts its mapping from scratch. */
  method UploadInSession(store: MapperStore, ghost ps: seq<Part>, ghost mode: ViewMode, ghost cursor: nat)
    requires OneViewSession(store, ps, mode, cursor)
    modifies store
    ensures OneViewSession(store, ResetAll(ps), Mapping, 0)
  {
    HandleImageUpload(store, Some(File(0, "front.png")));
    assert store.viewModes.Keys == {"front"};
  }

  /** A click in the one view, on the part at the cursor. */
  method ClickInSession(store: MapperStore, dims: Dimensions, pointer: Point, ghost ps: seq<Part>, ghost cursor: nat)
    requires OneViewSession(store, ps, Mapping, cursor) && cursor < |ps|
    requires dims.width > 0.0 && dims.height > 0.0
    modifies store
    ensures var after := ApplyMapping(ps, ps[cursor].partNumber, Normalize(pointer, dims));
      OneViewSession(store, after, ModeAfterMapping(after, Mapping),
                     match NextCursor(ps, after) case Some(j) => j case None => cursor)
  {
    assert ClickAccepted(store.CurrentViewMode(), store.CurrentViewParts(), store.CurrentPartIndex());
    HandleStageClick(store, dims, pointer);
    assert store.viewModes.Keys == {"front"};
  }

  /** The two clicks of the session, on values: the first maps the first
      part and sends the cursor to the second; the second completes the view. */
  lemma TwoClicksComplete(ps: seq<Part>, c1: Coordinates, c2: Coordinates)
    requires |ps| == 2 && ps[0].partNumber != ps[1].partNumber
    requires ps[0].status == Some(Unmapped) && ps[1].status == Some(Unmapped)
    ensures var first := ApplyMapping(ps, ps[0].partNumber, c1);
      && NextCursor(ps, first) == Some(1)
      && ModeAfterMapping(first, Mapping) == Mapping
      && first[1] == ps[1]
    ensures var first := ApplyMapping(ps, ps[0].partNumber, c1);
      var second := ApplyMapping(first, first[1].partNumber, c2);
      && AllMapped(second)
      && second[0].coordinates == Some(c1) && second[1].coordinates == Some(c2)
      && NextCursor(first, second) == None
      && ModeAfterMapping(second, Mapping) == Complete
  {
    var first := ApplyMapping(ps, ps[0].partNumber, c1);
    assert first[1] == ps[1];
    assert FirstUnmappedIndex(first) == 1;
    assert !AllMapped(first);
  }

  /** The catalog of the session: view "front" with a bolt and a nut. */
  function SessionCatalog(): seq<Part>
  {
    [Part(1, "Bolt", 1, "front", None, None), Part(2, "Nut", 1, "front", None, None)]
  }

  /** The first click of the session, at a quarter of the width and half
      the height: the bolt is placed, the cursor moves to the nut and the
      status line names it. */
  method FirstClickOfSession(store: MapperStore, ghost restarted: seq<Part>) returns (cursor: nat, line: string)
    requires restarted == ResetAll([WithDefaultStatus(SessionCatalog()[0]), WithDefaultStatus(SessionCatalog()[1])])
    requires OneViewSession(store, restarted, Mapping, 0)
    modifies store
    ensures OneViewSession(store, ApplyMapping(restarted, 1, Coordinates(0.25, 0.5)), Mapping, 1)
    ensures cursor == 1 && line == PartLine(restarted[1].partName)
  {
    TwoClicksComplete(restarted, Coordinates(0.25, 0.5), Coordinates(0.75, 0.25));
    var dims := Dimensions(200.0, 100.0);
    assert Normalize(Point(50.0, 50.0), dims) == Coordinates(0.25, 0.5);
    ClickInSession(store, dims, Point(50.0, 50.0), restarted, 0);
    cursor := store.CurrentPartIndex();
    line := StatusMessage(store.selectedView, store.CurrentViewMode(), store.CurrentViewParts(), cursor);
  }

  /** The second click of the session places the nut and completes the view. */
  method SecondClickOfSession(store: MapperStore, ghost restarted: seq<Part>)
    requires restarted == ResetAll([WithDefaultStatus(SessionCatalog()[0]), WithDefaultStatus(SessionCatalog()[1])])
    requires OneViewSession(store, ApplyMapping(restarted, 1, Coordinates(0.25, 0.5)), Mapping, 1)
    modifies store
    ensures OneViewSession(store, ApplyMapping(ApplyMapping(restarted, 1, Coordinates(0.25, 0.5)), 2, Coordinates(0.75, 0.25)),
                           Complete, 1)
  {
    TwoClicksComplete(restarted, Coordinates(0.25, 0.5), Coordinates(0.75, 0.25));
    var dims := Dimensions(200.0, 100.0);
    assert Normalize(Point(150.0, 25.0), dims) == Coordinates(0.75, 0.25);
    ClickInSession(store, dims, Point(150.0, 25.0), ApplyMapping(restarted, 1, Coordinates(0.25, 0.5)), 1);
  }

  /** Exporting the one view once it is complete. */
  method ExportSession(store: MapperStore, ghost ps: seq<Part>) returns (exported: Option<ExportData>)
    requires OneViewSession(store, ps, Complete, 1)
    ensures exported.Some? && |exported.value.views| == 1 && exported.value.views[0].viewName == "front"
  {
    assert forall v :: v in store.viewModes ==> store.viewModes[v] == Complete;
    exported := store.Export("2026-01-01T00:00:00.000Z");
  }

  /** A catalog with one view of two parts, an image upload and two
      clicks: after the first click the cursor is on the second part and the
      status line names it; after the second both parts are mapped where
      they were clicked, the view is complete and the export succeeds. */
  method TwoPartSession() returns (cursorAfterFirst: nat, lineAfterFirst: string, finalParts: seq<Part>,
                                   finalMode: ViewMode, exported: Option<ExportData>)
    ensures cursorAfterFirst == 1
    ensures lineAfterFirst == PartLine("Nut")
    ensures |finalParts| == 2 && AllMapped(finalParts)
    ensures finalParts[0].coordinates == Some(Coordinates(0.25, 0.5))
    ensures finalParts[1].coordinates == Some(Coordinates(0.75, 0.25))
    ensures finalMode == Complete
    ensures exported.Some? && |exported.value.views| == 1 && exported.value.views[0].viewName == "front"
  {
    var catalog := SessionCatalog();
    var store := LoadSession(catalog[0], catalog[1]);
    ghost var loaded := [WithDefaultStatus(catalog[0]), WithDefaultStatus(catalog[1])];
    UploadInSession(store, loaded, Initial, 0);
    ghost var restarted := ResetAll(loaded);
    TwoClicksComplete(restarted, Coordinates(0.25, 0.5), Coordinates(0.75, 0.25));

    cursorAfterFirst, lineAfterFirst := FirstClickOfSession(store, restarted);
    assert restarted[1].partName == "Nut";
    SecondClickOfSession(store, restarted);
    finalParts := store.CurrentViewParts();
    finalMode := store.CurrentViewMode();
    exported := ExportSession(store, finalParts);
  }
}
