/** The pure part of the mapper store (src/store/store.ts): the per-view
    transforms that the actions apply with `.map`, the completeness test,
    the selectors' searches, the grouping that `initializePartsData`
    computes, and the pieces of the export snapshot. */
module StoreSpec {
  import opened Interfaces

  predicate NoDuplicates<T(==)>(s: seq<T>)
  {
    forall i, j :: 0 <= i < j < |s| ==> s[i] != s[j]
  }

  /** Within a view no two parts share a part number. */
  predicate UniquePartNumbers(ps: seq<Part>)
  {
    forall i, j :: 0 <= i < j < |ps| ==> ps[i].partNumber != ps[j].partNumber
  }

  // ---------------------------------------------------------------------
  // Catalog grouping (initializePartsData)
  // ---------------------------------------------------------------------

  /** A catalog part as stored: a missing status becomes unmapped. */
  function WithDefaultStatus(p: Part): (q: Part)
    ensures q.status == (if p.status.Some? then p.status else Some(Unmapped))
    ensures q.(status := p.status) == p
  {
    p.(status := Some(if p.status.Some? then p.status.value else Unmapped))
  }

  /** The distinct view names of a catalog, in order of first appearance. */
  function CatalogViews(ps: seq<Part>): (vs: seq<string>)
    ensures |vs| <= |ps|
  {
    if ps == [] then []
    else
      var vs := CatalogViews(ps[..|ps| - 1]);
      if ps[|ps| - 1].view in vs then vs else vs + [ps[|ps| - 1].view]
  }

  /** The parts of view `v`, in catalog order, with their default status. */
  function CatalogParts(ps: seq<Part>, v: string): (r: seq<Part>)
    ensures |r| <= |ps|
  {
    if ps == [] then []
    else
      CatalogParts(ps[..|ps| - 1], v)
      + (if ps[|ps| - 1].view == v then [WithDefaultStatus(ps[|ps| - 1])] else [])
  }

  /** The view list holds each view name of the catalog exactly once, and nothing else. */
  lemma {:induction false} CatalogViewsAreDistinctViews(ps: seq<Part>)
    ensures NoDuplicates(CatalogViews(ps))
    ensures forall v :: v in CatalogViews(ps) <==> exists i :: 0 <= i < |ps| && ps[i].view == v
  {
    if ps != [] {
      var init := ps[..|ps| - 1];
      CatalogViewsAreDistinctViews(init);
      forall v
        ensures v in CatalogViews(ps) <==> exists i :: 0 <= i < |ps| && ps[i].view == v
      {
        if v in CatalogViews(init) {
          var i :| 0 <= i < |init| && init[i].view == v;
          assert ps[i].view == v;
        }
        if exists i :: 0 <= i < |ps| && ps[i].view == v {
          var i :| 0 <= i < |ps| && ps[i].view == v;
          if i < |ps| - 1 {
            assert init[i].view == v;
          }
        }
      }
    }
  }

  /** First-seen order: the views of every catalog prefix are a prefix of
      the catalog's views, so a view listed earlier appeared earlier. */
  lemma {:induction false} CatalogViewsFirstSeenOrder(ps: seq<Part>, j: nat)
    requires j <= |ps|
    ensures CatalogViews(ps[..j]) <= CatalogViews(ps)
  {
    if j < |ps| {
      var init := ps[..|ps| - 1];
      assert init[..j] == ps[..j];
      CatalogViewsFirstSeenOrder(init, j);
    } else {
      assert ps[..j] == ps;
    }
  }

  /** A view's group holds only parts of that view, each with a status,
      and it is empty exactly when the view does not occur in the catalog. */
  lemma {:induction false} CatalogPartsBelongToView(ps: seq<Part>, v: string)
    ensures forall k :: 0 <= k < |CatalogParts(ps, v)| ==>
      CatalogParts(ps, v)[k].view == v && CatalogParts(ps, v)[k].status.Some?
    ensures CatalogParts(ps, v) == [] <==> v !in CatalogViews(ps)
  {
    if ps != [] {
      CatalogPartsBelongToView(ps[..|ps| - 1], v);
    }
  }

  /** Every catalog part lands in its view's group, with its status defaulted. */
  lemma CatalogPartsKeepEveryPart(ps: seq<Part>, i: nat)
    requires i < |ps|
    ensures WithDefaultStatus(ps[i]) in CatalogParts(ps, ps[i].view)
  {
    var v := ps[i].view;
    var pre := ps[..i + 1];
    assert pre[..|pre| - 1] == ps[..i];
    assert CatalogParts(pre, v) == CatalogParts(ps[..i], v) + [WithDefaultStatus(ps[i])];
    CatalogPartsPrefix(ps, i + 1, v);
    var whole := CatalogParts(ps, v);
    assert whole[|CatalogParts(pre, v)| - 1] == WithDefaultStatus(ps[i]);
  }

  /** The groups keep catalog order: a prefix's group is a prefix of the group. */
  lemma {:induction false} CatalogPartsPrefix(ps: seq<Part>, j: nat, v: string)
    requires j <= |ps|
    ensures CatalogParts(ps[..j], v) <= CatalogParts(ps, v)
  {
    if j < |ps| {
      var init := ps[..|ps| - 1];
      assert init[..j] == ps[..j];
      CatalogPartsPrefix(init, j, v);
    } else {
      assert ps[..j] == ps;
    }
  }

  // ---------------------------------------------------------------------
  // Per-view part transforms
  // ---------------------------------------------------------------------

  /** The `.map` of updatePartMapping: every part numbered `n` becomes
      mapped at `c`; every other part is left as it was. */
  function ApplyMapping(ps: seq<Part>, n: int, c: Coordinates): (r: seq<Part>)
    ensures |r| == |ps|
    ensures forall i :: 0 <= i < |ps| && ps[i].partNumber == n ==>
      r[i] == ps[i].(status := Some(Mapped), coordinates := Some(c))
    ensures forall i :: 0 <= i < |ps| && ps[i].partNumber != n ==> r[i] == ps[i]
  {
    if ps == [] then []
    else
      (if ps[0].partNumber == n then [ps[0].(status := Some(Mapped), coordinates := Some(c))] else [ps[0]])
      + ApplyMapping(ps[1..], n, c)
  }

  /** Mapping the same part again overwrites: only the last position counts. */
  lemma {:induction false} RemappingOverwrites(ps: seq<Part>, n: int, c1: Coordinates, c2: Coordinates)
    ensures ApplyMapping(ApplyMapping(ps, n, c1), n, c2) == ApplyMapping(ps, n, c2)
  {
    if ps != [] {
      RemappingOverwrites(ps[1..], n, c1, c2);
      assert ApplyMapping(ps, n, c1)[1..] == ApplyMapping(ps[1..], n, c1);
    }
  }

  /** The `.map` of updatePartStatus: parts numbered `n` take status `s`. */
  function ApplyStatus(ps: seq<Part>, n: int, s: MarkerStatus): (r: seq<Part>)
    ensures |r| == |ps|
    ensures forall i :: 0 <= i < |ps| && ps[i].partNumber == n ==> r[i] == ps[i].(status := Some(s))
    ensures forall i :: 0 <= i < |ps| && ps[i].partNumber != n ==> r[i] == ps[i]
  {
    if ps == [] then []
    else
      (if ps[0].partNumber == n then [ps[0].(status := Some(s))] else [ps[0]])
      + ApplyStatus(ps[1..], n, s)
  }

  /** The `.map` of removePartMapping: parts numbered `n` go back to unmapped, without coordinates. */
  function ClearMapping(ps: seq<Part>, n: int): (r: seq<Part>)
    ensures |r| == |ps|
    ensures forall i :: 0 <= i < |ps| && ps[i].partNumber == n ==>
      r[i] == ps[i].(status := Some(Unmapped), coordinates := None)
    ensures forall i :: 0 <= i < |ps| && ps[i].partNumber != n ==> r[i] == ps[i]
  {
    if ps == [] then []
    else
      (if ps[0].partNumber == n then [ps[0].(status := Some(Unmapped), coordinates := None)] else [ps[0]])
      + ClearMapping(ps[1..], n)
  }

  /** Removing a mapping undoes placing it: a part that was unmapped
      without coordinates is restored exactly. */
  lemma {:induction false} ClearUndoesMapping(ps: seq<Part>, n: int, c: Coordinates)
    requires forall i :: 0 <= i < |ps| && ps[i].partNumber == n ==>
      ps[i].status == Some(Unmapped) && ps[i].coordinates == None
    ensures ClearMapping(ApplyMapping(ps, n, c), n) == ps
  {
    if ps != [] {
      ClearUndoesMapping(ps[1..], n, c);
      assert ApplyMapping(ps, n, c)[1..] == ApplyMapping(ps[1..], n, c);
    }
  }

  /** The `.map` of resetViewMapping: every part unmapped, without coordinates. */
  function ResetAll(ps: seq<Part>): (r: seq<Part>)
    ensures |r| == |ps|
    ensures forall i :: 0 <= i < |ps| ==> r[i] == ps[i].(status := Some(Unmapped), coordinates := None)
  {
    if ps == [] then [] else [ps[0].(status := Some(Unmapped), coordinates := None)] + ResetAll(ps[1..])
  }

  /** `.every(p => p.status === "mapped")`. */
  predicate AllMapped(ps: seq<Part>)
  {
    forall i :: 0 <= i < |ps| ==> ps[i].status == Some(Mapped)
  }

  /** The view mode after updatePartMapping: complete once every part is
      mapped, otherwise unchanged; so it never leaves complete. */
  function ModeAfterMapping(ps: seq<Part>, mode: ViewMode): (r: ViewMode)
    ensures r == Complete <==> AllMapped(ps) || mode == Complete
    ensures r != mode ==> r == Complete
  {
    if AllMapped(ps) then Complete else mode
  }

  /** Placing every part of a view by number makes it all mapped. */
  lemma {:induction false} MappingEveryNumberCompletes(ps: seq<Part>, n: int, c: Coordinates)
    requires forall i :: 0 <= i < |ps| && ps[i].partNumber != n ==> ps[i].status == Some(Mapped)
    ensures AllMapped(ApplyMapping(ps, n, c))
    ensures ModeAfterMapping(ApplyMapping(ps, n, c), Mapping) == Complete
  {
  }

  // ---------------------------------------------------------------------
  // Searches used by the selectors and the click handler
  // ---------------------------------------------------------------------

  /** `findIndex(p => p.status === "unmapped")`: the first unmapped part, or -1. */
  function FirstUnmappedIndex(ps: seq<Part>): (k: int)
    ensures -1 <= k < |ps|
    ensures 0 <= k ==> ps[k].status == Some(Unmapped)
    ensures forall j :: 0 <= j < |ps| && (k < 0 || j < k) ==> ps[j].status != Some(Unmapped)
  {
    if ps == [] then -1
    else if ps[0].status == Some(Unmapped) then 0
    else
      var k := FirstUnmappedIndex(ps[1..]);
      if k < 0 then -1 else k + 1
  }

  /** `find(p => p.status === "unmapped")`. */
  function FirstUnmapped(ps: seq<Part>): (r: Option<Part>)
    ensures r.None? <==> forall j :: 0 <= j < |ps| ==> ps[j].status != Some(Unmapped)
    ensures r.Some? ==> r.value.status == Some(Unmapped) && r.value == ps[FirstUnmappedIndex(ps)]
  {
    var k := FirstUnmappedIndex(ps);
    if k < 0 then None else Some(ps[k])
  }

  /** `findIndex(p => p.partNumber === n)`: the first part numbered `n`, or -1. */
  function IndexOfPartNumber(ps: seq<Part>, n: int): (k: int)
    ensures -1 <= k < |ps|
    ensures 0 <= k ==> ps[k].partNumber == n
    ensures forall j :: 0 <= j < |ps| && (k < 0 || j < k) ==> ps[j].partNumber != n
  {
    if ps == [] then -1
    else if ps[0].partNumber == n then 0
    else
      var k := IndexOfPartNumber(ps[1..], n);
      if k < 0 then -1 else k + 1
  }

  // ---------------------------------------------------------------------
  // Export snapshot pieces
  // ---------------------------------------------------------------------

  /** `state.images[view].file?.name || null`: an empty file name exports as null. */
  function ImageFileName(img: ImageState): (r: Option<string>)
    ensures r.Some? <==> img.file.Some? && img.file.value.name != ""
    ensures r.Some? ==> r.value == img.file.value.name
  {
    if img.file.Some? && img.file.value.name != "" then Some(img.file.value.name) else None
  }

  /** The parts of one view, copied in stored order. */
  function ExportParts(ps: seq<Part>): (r: seq<ExportPart>)
    ensures |r| == |ps|
    ensures forall i :: 0 <= i < |ps| ==>
      r[i].partNumber == ps[i].partNumber && r[i].partName == ps[i].partName
      && r[i].coordinates == ps[i].coordinates && r[i].status == ps[i].status
  {
    if ps == [] then [] else [ExportPart(ps[0].partNumber, ps[0].partName, ps[0].coordinates, ps[0].status)] + ExportParts(ps[1..])
  }

  /** One export entry per view, in the order of `vs`. */
  function ExportViews(vs: seq<string>, images: map<string, ImageState>, partsByView: map<string, seq<Part>>): (r: seq<ExportView>)
    requires forall v :: v in vs ==> v in images && v in partsByView
    ensures |r| == |vs|
    ensures forall i :: 0 <= i < |vs| ==>
      r[i] == ExportView(vs[i], ImageFileName(images[vs[i]]), ExportParts(partsByView[vs[i]]))
  {
    if vs == [] then []
    else
      [ExportView(vs[0], ImageFileName(images[vs[0]]), ExportParts(partsByView[vs[0]]))]
      + ExportViews(vs[1..], images, partsByView)
  }

  /** `Object.values(viewModes).every(mode => mode === "complete")`. */
  predicate AllComplete(viewModes: map<string, ViewMode>)
  {
    forall v :: v in viewModes ==> viewModes[v] == Complete
  }

  // ---------------------------------------------------------------------
  // Object-URL bookkeeping
  // ---------------------------------------------------------------------

  /** The object URL bound to `view`, if any. */
  function HandleOf(images: map<string, ImageState>, view: string): (r: Option<ObjectUrl>)
    ensures view !in images ==> r.None?
    ensures view in images ==> r == images[view].objectUrl
  {
    if view in images then images[view].objectUrl else None
  }

  function OptionSet<T>(o: Option<T>): set<T>
  {
    if o.Some? then {o.value} else {}
  }

  /** The object URLs bound to the views in `ks`. */
  ghost function BoundUrlsOn(images: map<string, ImageState>, ks: set<string>): set<ObjectUrl>
  {
    set k | k in ks && k in images && images[k].objectUrl.Some? :: images[k].objectUrl.value
  }

  ghost function BoundUrls(images: map<string, ImageState>): set<ObjectUrl>
  {
    BoundUrlsOn(images, images.Keys)
  }

  /** No object URL is bound to two views. */
  ghost predicate DistinctHandles(images: map<string, ImageState>)
  {
    forall k1, k2 :: k1 in images && k2 in images && k1 != k2 && images[k1].objectUrl.Some? ==>
      images[k1].objectUrl != images[k2].objectUrl
  }

  lemma BoundUrlsOnAdd(images: map<string, ImageState>, ks: set<string>, k: string)
    ensures BoundUrlsOn(images, ks + {k}) == BoundUrlsOn(images, ks) + OptionSet(HandleOf(images, k))
  {
  }

  /** Release discipline survives rebinding one view to a URL newer than
      every bound one, once the view's old URL is dropped from the live set. */
  lemma RebindKeepsBalance(images: map<string, ImageState>, live: set<ObjectUrl>, view: string, img: ImageState, counter: nat)
    requires forall k :: k in images && images[k].objectUrl.Some? ==> images[k].objectUrl.value.id < counter
    requires img.objectUrl.Some? ==> img.objectUrl.value.id == counter
    ensures live == BoundUrls(images) && DistinctHandles(images) ==>
      (live - OptionSet(HandleOf(images, view))) + OptionSet(img.objectUrl) == BoundUrls(images[view := img])
      && DistinctHandles(images[view := img])
  {
    if live == BoundUrls(images) && DistinctHandles(images) {
      BoundUrlsUpdate(images, view, img);
      FreshBindingKeepsHandlesDistinct(images, view, img, counter);
    }
  }

  /** Binding a URL newer than every bound one keeps the bindings distinct. */
  lemma FreshBindingKeepsHandlesDistinct(images: map<string, ImageState>, view: string, img: ImageState, counter: nat)
    requires DistinctHandles(images)
    requires forall k :: k in images && images[k].objectUrl.Some? ==> images[k].objectUrl.value.id < counter
    requires img.objectUrl.Some? ==> img.objectUrl.value.id == counter
    ensures DistinctHandles(images[view := img])
  {
    var after := images[view := img];
    forall k1, k2 | k1 in after && k2 in after && k1 != k2 && after[k1].objectUrl.Some?
      ensures after[k1].objectUrl != after[k2].objectUrl
    {
      if k1 == view {
        if after[k2].objectUrl.Some? { assert images[k2].objectUrl.value.id < counter; }
      } else if k2 == view {
        assert images[k1].objectUrl.value.id < counter;
      }
    }
  }

  /** Rebinding one view replaces its handle in the bound set and nothing else. */
  lemma BoundUrlsUpdate(images: map<string, ImageState>, view: string, img: ImageState)
    requires DistinctHandles(images)
    ensures BoundUrls(images[view := img]) == (BoundUrls(images) - OptionSet(HandleOf(images, view))) + OptionSet(img.objectUrl)
  {
    var after := images[view := img];
    forall u
      ensures u in BoundUrls(after) <==> u in (BoundUrls(images) - OptionSet(HandleOf(images, view))) + OptionSet(img.objectUrl)
    {
      if u in BoundUrls(after) {
        var k :| k in after && after[k].objectUrl == Some(u);
        if k != view {
          assert images[k].objectUrl == Some(u);
          assert u in BoundUrls(images);
          assert u !in OptionSet(HandleOf(images, view));
        }
      }
      if u in BoundUrls(images) - OptionSet(HandleOf(images, view)) {
        var k :| k in images && images[k].objectUrl == Some(u);
        assert k != view;
        assert after[k].objectUrl == Some(u);
      }
      if u in OptionSet(img.objectUrl) {
        assert after[view].objectUrl == Some(u);
      }
    }
  }
}
