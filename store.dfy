/** The mapper store (src/store/store.ts): one global object whose actions
    replace its per-view records. The browser's object-URL registry, which
    `setImage` and `cleanupImageUrls` talk to, is folded in as a counter
    that hands out fresh handles, a ghost set of the handles still live and
    a ghost log of every revocation. */
module Store {
  import opened Interfaces
  import opened StoreSpec

  /** The grouping initializePartsData computes: the catalog's distinct
      views in first-seen order, and for each exactly its parts, in catalog
      order, with their default status. */
  ghost predicate GroupedAs(parts: seq<Part>, views: seq<string>, partsByView: map<string, seq<Part>>)
  {
    && views == CatalogViews(parts) && NoDuplicates(views)
    && (forall v :: v in partsByView <==> v in views)
    && (forall v :: v in partsByView ==> partsByView[v] == CatalogParts(parts, v))
  }

  /** The records initializePartsData gives every listed view, and no other:
      no image, mode initial, cursor 0. */
  ghost predicate FreshRecords(views: seq<string>, images: map<string, ImageState>, viewModes: map<string, ViewMode>,
                         currentPartIndices: map<string, nat>)
  {
    && (forall v :: (v in images <==> v in views) && (v in viewModes <==> v in views))
    && (forall v :: v in currentPartIndices <==> v in views)
    && (forall v :: v in images ==> images[v] == ImageState(None, None))
    && (forall v :: v in viewModes ==> viewModes[v] == Initial)
    && (forall v :: v in currentPartIndices ==> currentPartIndices[v] == 0)
  }

  /** The grouping loop of initializePartsData: walks the catalog once,
      opening a group (and listing the view) at a view's first part and
      appending each part, with its default status, to its view's group. */
  method GroupByView(parts: seq<Part>) returns (views: seq<string>, partsByView: map<string, seq<Part>>)
    ensures GroupedAs(parts, views, partsByView)
  {
    partsByView := map[];
    views := [];
    var i := 0;
    while i < |parts|
      invariant 0 <= i <= |parts|
      invariant views == CatalogViews(parts[..i]) && NoDuplicates(views)
      invariant forall v :: v in partsByView <==> v in views
      invariant forall v :: v in partsByView ==> partsByView[v] == CatalogParts(parts[..i], v)
    {
      var part := parts[i];
      assert parts[..i + 1][..i] == parts[..i];
      CatalogPartsBelongToView(parts[..i], part.view);
      if part.view !in partsByView {
        partsByView := partsByView[part.view := []];
        views := views + [part.view];
      }
      partsByView := partsByView[part.view := partsByView[part.view] + [WithDefaultStatus(part)]];
      i := i + 1;
    }
    assert parts[..|parts|] == parts;
  }

  /** The second loop of initializePartsData: every listed view gets an
      empty image binding, mode initial and cursor 0, and nothing else gets an entry. */
  method FreshViewRecords(views: seq<string>)
    returns (images: map<string, ImageState>, viewModes: map<string, ViewMode>, currentPartIndices: map<string, nat>)
    ensures FreshRecords(views, images, viewModes, currentPartIndices)
  {
    images, viewModes, currentPartIndices := map[], map[], map[];
    var j := 0;
    while j < |views|
      invariant 0 <= j <= |views|
      invariant forall v :: (v in images <==> v in views[..j]) && (v in viewModes <==> v in views[..j])
      invariant forall v :: v in currentPartIndices <==> v in views[..j]
      invariant forall v :: v in images ==> images[v] == ImageState(None, None)
      invariant forall v :: v in viewModes ==> viewModes[v] == Initial
      invariant forall v :: v in currentPartIndices ==> currentPartIndices[v] == 0
    {
      assert views[..j + 1] == views[..j] + [views[j]];
      images := images[views[j] := ImageState(None, None)];
      viewModes := viewModes[views[j] := Initial];
      currentPartIndices := currentPartIndices[views[j] := 0];
      j := j + 1;
    }
    assert views[..|views|] == views;
  }

  /** Each view is listed once, has a parts list exactly when it is listed,
      and has an image, a mode and a cursor entry. */
  ghost predicate RecordsAgree(views: seq<string>, partsByView: map<string, seq<Part>>, images: map<string, ImageState>,
                               viewModes: map<string, ViewMode>, currentPartIndices: map<string, nat>)
  {
    && NoDuplicates(views)
    && (forall v :: v in partsByView <==> v in views)
    && (forall v :: v in partsByView ==> v in images && v in viewModes && v in currentPartIndices)
  }

  /** The records initializePartsData builds agree with one another. */
  lemma FreshStoreAgrees(parts: seq<Part>, views: seq<string>, partsByView: map<string, seq<Part>>,
                         images: map<string, ImageState>, viewModes: map<string, ViewMode>,
                         currentPartIndices: map<string, nat>)
    requires GroupedAs(parts, views, partsByView)
    requires FreshRecords(views, images, viewModes, currentPartIndices)
    ensures RecordsAgree(views, partsByView, images, viewModes, currentPartIndices)
    ensures forall k :: k in images ==> images[k].objectUrl.None?
  {
  }

  class MapperStore {
    var views: seq<string>
    var partsByView: map<string, seq<Part>>
    var selectedView: string
    var images: map<string, ImageState>
    var viewModes: map<string, ViewMode>
    var currentPartIndices: map<string, nat>

    /** The next object URL `URL.createObjectURL` hands out. */
    var urlCounter: nat
    /** Object URLs created and not yet revoked. */
    ghost var liveUrls: set<ObjectUrl>
    /** Every `URL.revokeObjectURL` call, in order. */
    ghost var revocations: seq<ObjectUrl>

    /** The store invariant: each listed view once, a parts list exactly for
        the listed views, an image, mode and cursor entry for each, and every
        object URL ever seen below the allocator's counter. */
    ghost predicate Valid()
      reads this
    {
      && RecordsAgree(views, partsByView, images, viewModes, currentPartIndices)
      && UrlsBelowCounter()
    }

    /** Every object URL ever seen, live, bound or revoked, was handed out
        before the allocator's counter. */
    ghost predicate UrlsBelowCounter()
      reads this
    {
      && (forall u :: u in liveUrls ==> u.id < urlCounter)
      && (forall k :: k in images && images[k].objectUrl.Some? ==> images[k].objectUrl.value.id < urlCounter)
      && (forall i :: 0 <= i < |revocations| ==> revocations[i].id < urlCounter)
    }

    /** Release discipline: the live object URLs are exactly those bound to
        a view, and no URL is bound to two views. */
    ghost predicate UrlsBalanced()
      reads this
    {
      liveUrls == BoundUrls(images) && DistinctHandles(images)
    }

    /** The store as Zustand creates it: no views, nothing selected. */
    constructor ()
      ensures Valid() && UrlsBalanced()
      ensures views == [] && partsByView == map[] && selectedView == ""
      ensures images == map[] && viewModes == map[] && currentPartIndices == map[]
      ensures liveUrls == {} && revocations == []
    {
      views := [];
      partsByView := map[];
      selectedView := "";
      images := map[];
      viewModes := map[];
      currentPartIndices := map[];
      urlCounter := 0;
      liveUrls := {};
      revocations := [];
    }

    /** setSelectedView: any string is accepted. */
    method SetSelectedView(view: string)
      requires Valid()
      modifies this
      ensures Valid()
      ensures selectedView == view
      ensures views == old(views) && partsByView == old(partsByView) && images == old(images)
      ensures viewModes == old(viewModes) && currentPartIndices == old(currentPartIndices)
      ensures urlCounter == old(urlCounter) && liveUrls == old(liveUrls) && revocations == old(revocations)
    {
      selectedView := view;
    }

    /** initializePartsData: groups the catalog by view in first-seen order
        and replaces every per-view record; nothing of the prior state is kept
        except the object-URL registry. */
    method InitializePartsData(parts: seq<Part>)
      requires Valid()
      modifies this
      ensures Valid()
      ensures GroupedAs(parts, views, partsByView)
      ensures FreshRecords(views, images, viewModes, currentPartIndices)
      ensures selectedView == if |views| > 0 then views[0] else ""
      ensures urlCounter == old(urlCounter) && liveUrls == old(liveUrls) && revocations == old(revocations)
      ensures UrlsBalanced() <==> liveUrls == {}
      ensures CurrentViewParts() == (if |views| > 0 then CatalogParts(parts, views[0]) else [])
      ensures CurrentViewMode() == Initial && CurrentPartIndex() == 0 && CurrentViewImage().None?
    {
      var vs, grouped := GroupByView(parts);
      var imgs, modes, indices := FreshViewRecords(vs);
      FreshStoreAgrees(parts, vs, grouped, imgs, modes, indices);
      Install(vs, grouped, imgs, modes, indices);
    }

    /** The single `set` of initializePartsData: every per-view record is
        replaced, and the first view (or none) is selected. */
    method Install(vs: seq<string>, grouped: map<string, seq<Part>>, imgs: map<string, ImageState>,
                   modes: map<string, ViewMode>, indices: map<string, nat>)
      requires RecordsAgree(vs, grouped, imgs, modes, indices)
      requires forall k :: k in imgs ==> imgs[k].objectUrl.None?
      requires UrlsBelowCounter()
      modifies this
      ensures Valid()
      ensures views == vs && partsByView == grouped && images == imgs
      ensures viewModes == modes && currentPartIndices == indices
      ensures selectedView == if |vs| > 0 then vs[0] else ""
      ensures urlCounter == old(urlCounter) && liveUrls == old(liveUrls) && revocations == old(revocations)
      ensures BoundUrls(images) == {} && DistinctHandles(images)
    {
      views, partsByView, images, viewModes, currentPartIndices := vs, grouped, imgs, modes, indices;
      selectedView := if |vs| > 0 then vs[0] else "";
    }

    /** setImage: revokes the view's previous object URL if there is one,
        binds the new file with a fresh URL (or clears the binding), and puts
        the view back to initial. Parts and cursor are left alone. */
    method SetImage(view: string, file: Option<File>)
      requires Valid()
      modifies this
      ensures Valid()
      ensures views == old(views) && partsByView == old(partsByView) && selectedView == old(selectedView)
      ensures currentPartIndices == old(currentPartIndices)
      ensures viewModes == old(viewModes)[view := Initial]
      ensures images == old(images)[view := ImageState(file, if file.Some? then Some(ObjectUrl(old(urlCounter))) else None)]
      ensures urlCounter == old(urlCounter) + (if file.Some? then 1 else 0)
      ensures ObjectUrl(old(urlCounter)) !in old(liveUrls) && ObjectUrl(old(urlCounter)) !in old(revocations)
      ensures revocations == old(revocations) + (if HandleOf(old(images), view).Some? then [HandleOf(old(images), view).value] else [])
      ensures liveUrls == (old(liveUrls) - OptionSet(HandleOf(old(images), view))) + OptionSet(images[view].objectUrl)
      ensures old(UrlsBalanced()) ==> UrlsBalanced()
    {
      BindImage(view, file);
      viewModes := viewModes[view := Initial];
    }

    /** The object-URL half of setImage: release the old handle, allocate
        a new one for a file, and store the pair under the view. */
    method BindImage(view: string, file: Option<File>)
      requires UrlsBelowCounter()
      modifies this`images, this`urlCounter, this`liveUrls, this`revocations
      ensures UrlsBelowCounter()
      ensures images == old(images)[view := ImageState(file, if file.Some? then Some(ObjectUrl(old(urlCounter))) else None)]
      ensures urlCounter == old(urlCounter) + (if file.Some? then 1 else 0)
      ensures ObjectUrl(old(urlCounter)) !in old(liveUrls) && ObjectUrl(old(urlCounter)) !in old(revocations)
      ensures revocations == old(revocations) + (if HandleOf(old(images), view).Some? then [HandleOf(old(images), view).value] else [])
      ensures liveUrls == (old(liveUrls) - OptionSet(HandleOf(old(images), view))) + OptionSet(images[view].objectUrl)
      ensures old(UrlsBalanced()) ==> UrlsBalanced()
    {
      ghost var before := images;
      ghost var counter := urlCounter;
      var stale := HandleOf(images, view);
      if stale.Some? {
        RevokeObjectUrl(stale.value);
      }
      var url: Option<ObjectUrl> := None;
      if file.Some? {
        var created := CreateObjectUrl();
        url := Some(created);
      }
      var img := ImageState(file, url);
      RebindKeepsBalance(before, old(liveUrls), view, img, counter);
      images := images[view := img];
    }

    /** `URL.revokeObjectURL`: the handle stops being live; the call is logged. */
    method RevokeObjectUrl(u: ObjectUrl)
      requires UrlsBelowCounter()
      requires u.id < urlCounter
      modifies this`liveUrls, this`revocations
      ensures UrlsBelowCounter()
      ensures liveUrls == old(liveUrls) - {u}
      ensures revocations == old(revocations) + [u]
    {
      liveUrls := liveUrls - {u};
      revocations := revocations + [u];
    }

    /** `URL.createObjectURL`: a handle never handed out before, now live. */
    method CreateObjectUrl() returns (u: ObjectUrl)
      requires UrlsBelowCounter()
      modifies this`urlCounter, this`liveUrls
      ensures UrlsBelowCounter()
      ensures u.id == old(urlCounter) && urlCounter == old(urlCounter) + 1
      ensures liveUrls == old(liveUrls) + {u}
    {
      u := ObjectUrl(urlCounter);
      urlCounter := urlCounter + 1;
      liveUrls := liveUrls + {u};
    }

    /** cleanupImageUrls: revokes the object URL of every image entry. The
        entries themselves are kept. */
    method CleanupImageUrls()
      requires Valid()
      modifies this
      ensures Valid()
      ensures views == old(views) && partsByView == old(partsByView) && selectedView == old(selectedView)
      ensures images == old(images) && viewModes == old(viewModes) && currentPartIndices == old(currentPartIndices)
      ensures urlCounter == old(urlCounter)
      ensures liveUrls == old(liveUrls) - BoundUrls(images)
      ensures old(revocations) <= revocations
      ensures forall u :: u in revocations[|old(revocations)|..] <==> u in BoundUrls(images)
      ensures old(UrlsBalanced()) ==> liveUrls == {} && NoDuplicates(revocations[|old(revocations)|..])
    {
      var pending := images.Keys;
      ghost var start := |revocations|;
      while pending != {}
        invariant pending <= images.Keys
        invariant UrlsBelowCounter()
        invariant start == |old(revocations)| && old(revocations) <= revocations
        invariant liveUrls == old(liveUrls) - BoundUrlsOn(images, images.Keys - pending)
        invariant forall u :: u in revocations[start..] <==> u in BoundUrlsOn(images, images.Keys - pending)
        invariant old(UrlsBalanced()) ==> NoDuplicates(revocations[start..])
        modifies this`liveUrls, this`revocations
        decreases pending
      {
        var k :| k in pending;
        BoundUrlsOnAdd(images, images.Keys - pending, k);
        assert (images.Keys - (pending - {k})) == (images.Keys - pending) + {k};
        if images[k].objectUrl.Some? {
          var u := images[k].objectUrl.value;
          ghost var prev := revocations;
          RevokeObjectUrl(u);
          assert revocations[start..] == prev[start..] + [u];
        }
        pending := pending - {k};
      }
      assert images.Keys - pending == images.Keys;
    }

    /** updatePartMapping: maps every part of `view` numbered `partNumber`
        at (x, y), then marks the view complete if all its parts are mapped.
        Other views are untouched. */
    method UpdatePartMapping(view: string, partNumber: int, x: real, y: real)
      requires Valid()
      requires view in partsByView
      modifies this
      ensures Valid()
      ensures partsByView == old(partsByView)[view := ApplyMapping(old(partsByView)[view], partNumber, Coordinates(x, y))]
      ensures viewModes == old(viewModes)[view := ModeAfterMapping(partsByView[view], old(viewModes)[view])]
      ensures views == old(views) && selectedView == old(selectedView) && images == old(images)
      ensures currentPartIndices == old(currentPartIndices)
      ensures urlCounter == old(urlCounter) && liveUrls == old(liveUrls) && revocations == old(revocations)
    {
      var updated := ApplyMapping(partsByView[view], partNumber, Coordinates(x, y));
      partsByView := partsByView[view := updated];
      viewModes := viewModes[view := ModeAfterMapping(updated, viewModes[view])];
    }

    /** updatePartStatus: parts of `view` numbered `partNumber` take `status`;
        the mode is not recomputed. */
    method UpdatePartStatus(view: string, partNumber: int, status: MarkerStatus)
      requires Valid()
      requires view in partsByView
      modifies this
      ensures Valid()
      ensures partsByView == old(partsByView)[view := ApplyStatus(old(partsByView)[view], partNumber, status)]
      ensures views == old(views) && selectedView == old(selectedView) && images == old(images)
      ensures viewModes == old(viewModes) && currentPartIndices == old(currentPartIndices)
      ensures urlCounter == old(urlCounter) && liveUrls == old(liveUrls) && revocations == old(revocations)
    {
      partsByView := partsByView[view := ApplyStatus(partsByView[view], partNumber, status)];
    }

    /** removePartMapping: parts of `view` numbered `partNumber` go back to
        unmapped without coordinates; the mode is not recomputed. */
    method RemovePartMapping(view: string, partNumber: int)
      requires Valid()
      requires view in partsByView
      modifies this
      ensures Valid()
      ensures partsByView == old(partsByView)[view := ClearMapping(old(partsByView)[view], partNumber)]
      ensures views == old(views) && selectedView == old(selectedView) && images == old(images)
      ensures viewModes == old(viewModes) && currentPartIndices == old(currentPartIndices)
      ensures urlCounter == old(urlCounter) && liveUrls == old(liveUrls) && revocations == old(revocations)
    {
      partsByView := partsByView[view := ClearMapping(partsByView[view], partNumber)];
    }

    /** setViewMode: writes one view's mode, for any view name. */
    method SetViewMode(view: string, mode: ViewMode)
      requires Valid()
      modifies this
      ensures Valid()
      ensures viewModes == old(viewModes)[view := mode]
      ensures views == old(views) && partsByView == old(partsByView) && selectedView == old(selectedView)
      ensures images == old(images) && currentPartIndices == old(currentPartIndices)
      ensures urlCounter == old(urlCounter) && liveUrls == old(liveUrls) && revocations == old(revocations)
    {
      viewModes := viewModes[view := mode];
    }

    /** setCurrentPartIndex: writes one view's cursor, without a bounds check. */
    method SetCurrentPartIndex(view: string, index: nat)
      requires Valid()
      modifies this
      ensures Valid()
      ensures currentPartIndices == old(currentPartIndices)[view := index]
      ensures views == old(views) && partsByView == old(partsByView) && selectedView == old(selectedView)
      ensures images == old(images) && viewModes == old(viewModes)
      ensures urlCounter == old(urlCounter) && liveUrls == old(liveUrls) && revocations == old(revocations)
    {
      currentPartIndices := currentPartIndices[view := index];
    }

    /** resetViewMapping: every part of `view` unmapped without coordinates,
        mode initial, cursor 0. The image binding is untouched. */
    method ResetViewMapping(view: string)
      requires Valid()
      requires view in partsByView
      modifies this
      ensures Valid()
      ensures partsByView == old(partsByView)[view := ResetAll(old(partsByView)[view])]
      ensures viewModes == old(viewModes)[view := Initial]
      ensures currentPartIndices == old(currentPartIndices)[view := 0]
      ensures views == old(views) && selectedView == old(selectedView) && images == old(images)
      ensures urlCounter == old(urlCounter) && liveUrls == old(liveUrls) && revocations == old(revocations)
    {
      partsByView := partsByView[view := ResetAll(partsByView[view])];
      viewModes := viewModes[view := Initial];
      currentPartIndices := currentPartIndices[view := 0];
    }

    /** enterEditMode: puts one view back into mapping, keeping its placements. */
    method EnterEditMode(view: string)
      requires Valid()
      modifies this
      ensures Valid()
      ensures viewModes == old(viewModes)[view := Mapping]
      ensures views == old(views) && partsByView == old(partsByView) && selectedView == old(selectedView)
      ensures images == old(images) && currentPartIndices == old(currentPartIndices)
      ensures urlCounter == old(urlCounter) && liveUrls == old(liveUrls) && revocations == old(revocations)
    {
      viewModes := viewModes[view := Mapping];
    }

    // -------------------------------------------------------------------
    // Selectors
    // -------------------------------------------------------------------

    /** getCurrentViewImage: the selected view's object URL, null when there is none. */
    function CurrentViewImage(): (r: Option<ObjectUrl>)
      reads this
      ensures selectedView !in images ==> r.None?
      ensures selectedView in images ==> r == images[selectedView].objectUrl
    {
      HandleOf(images, selectedView)
    }

    /** getCurrentViewFile: the selected view's file, null when there is none. */
    function CurrentViewFile(): (r: Option<File>)
      reads this
      ensures selectedView !in images ==> r.None?
      ensures selectedView in images ==> r == images[selectedView].file
    {
      if selectedView in images then images[selectedView].file else None
    }

    /** getCurrentViewParts: the selected view's parts, empty for an unknown view. */
    function CurrentViewParts(): (r: seq<Part>)
      reads this
      ensures selectedView !in partsByView ==> r == []
      ensures selectedView in partsByView ==> r == partsByView[selectedView]
    {
      if selectedView in partsByView then partsByView[selectedView] else []
    }

    /** getCurrentViewMode: the selected view's mode, initial when it has none. */
    function CurrentViewMode(): (r: ViewMode)
      reads this
      ensures selectedView !in viewModes ==> r == Initial
      ensures selectedView in viewModes ==> r == viewModes[selectedView]
    {
      if selectedView in viewModes then viewModes[selectedView] else Initial
    }

    /** getCurrentPartIndex: the selected view's cursor, 0 when it has none. */
    function CurrentPartIndex(): (r: nat)
      reads this
      ensures selectedView !in currentPartIndices ==> r == 0
      ensures selectedView in currentPartIndices ==> r == currentPartIndices[selectedView]
    {
      if selectedView in currentPartIndices then currentPartIndices[selectedView] else 0
    }

    /** getNextUnmappedPart: the first unmapped part of the selected view. */
    function NextUnmappedPart(): (r: Option<Part>)
      reads this
      ensures r.Some? ==> r.value.status == Some(Unmapped) && r.value in CurrentViewParts()
      ensures r.None? <==> forall j :: 0 <= j < |CurrentViewParts()| ==> CurrentViewParts()[j].status != Some(Unmapped)
      ensures r.Some? ==> r.value == CurrentViewParts()[FirstUnmappedIndex(CurrentViewParts())]
    {
      FirstUnmapped(CurrentViewParts())
    }

    /** exportData: null unless every recorded mode is complete; otherwise a
        snapshot with one entry per view, in view order. */
    function Export(exportedAt: string): (r: Option<ExportData>)
      reads this
      requires Valid()
      ensures r.None? <==> exists v :: v in viewModes && viewModes[v] != Complete
      ensures r.Some? ==> forall v :: v in views ==> viewModes[v] == Complete
      ensures r.Some? ==> r.value.metadata == ExportMetadata(exportedAt, |views|)
      ensures r.Some? ==> |r.value.views| == |views|
      ensures r.Some? ==> forall i :: 0 <= i < |views| ==>
        r.value.views[i].viewName == views[i]
        && r.value.views[i].imageFileName == ImageFileName(images[views[i]])
        && r.value.views[i].parts == ExportParts(partsByView[views[i]])
    {
      if !AllComplete(viewModes) then None
      else Some(ExportData(ExportMetadata(exportedAt, |views|), ExportViews(views, images, partsByView)))
    }
  }
}
