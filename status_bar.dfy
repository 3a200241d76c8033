/** The status bar's derived figures (src/components/StatusBar.tsx): the
    mapped count, the rounded progress percentage, the status line, the
    mode colour and when the progress widget shows. All of them are pure
    functions of the selected view's records. */
module StatusBar {
  import opened Interfaces
  import opened StoreSpec

  /** `filter(p => p.status === "mapped").length`. */
  function MappedCount(ps: seq<Part>): (n: nat)
    ensures n <= |ps|
  {
    if ps == [] then 0
    else MappedCount(ps[..|ps| - 1]) + (if ps[|ps| - 1].status == Some(Mapped) then 1 else 0)
  }

  /** The count reaches the number of parts exactly when every part is mapped. */
  lemma {:induction false} MappedCountFull(ps: seq<Part>)
    ensures MappedCount(ps) == |ps| <==> AllMapped(ps)
  {
    if ps != [] {
      var init := ps[..|ps| - 1];
      MappedCountFull(init);
      if AllMapped(ps) {
        assert AllMapped(init) by {
          forall i | 0 <= i < |init| ensures init[i].status == Some(Mapped) {
            assert init[i] == ps[i];
          }
        }
      }
      if MappedCount(ps) == |ps| {
        assert MappedCount(init) == |init| && ps[|ps| - 1].status == Some(Mapped);
        forall i | 0 <= i < |ps| ensures ps[i].status == Some(Mapped) {
          if i < |init| {
            assert ps[i] == init[i];
          }
        }
      }
    }
  }

  /** The count is zero exactly when no part is mapped. */
  lemma {:induction false} MappedCountZero(ps: seq<Part>)
    ensures MappedCount(ps) == 0 <==> forall i :: 0 <= i < |ps| ==> ps[i].status != Some(Mapped)
  {
    if ps != [] {
      var init := ps[..|ps| - 1];
      MappedCountZero(init);
      assert forall i :: 0 <= i < |init| ==> init[i] == ps[i];
    }
  }

  /** Only the status of each part matters to the count: two part lists
      that agree on which positions are mapped have the same count. */
  lemma {:induction false} MappedCountByStatus(ps: seq<Part>, qs: seq<Part>)
    requires |ps| == |qs|
    requires forall i :: 0 <= i < |ps| ==> (ps[i].status == Some(Mapped) <==> qs[i].status == Some(Mapped))
    ensures MappedCount(ps) == MappedCount(qs)
  {
    if ps != [] {
      var n := |ps| - 1;
      MappedCountByStatus(ps[..n], qs[..n]);
    }
  }

  /** Mapping one more part, and changing no other part's mapped flag,
      raises the count by exactly one. */
  lemma {:induction false} MappedCountStep(ps: seq<Part>, qs: seq<Part>, k: nat)
    requires |ps| == |qs| && k < |ps|
    requires ps[k].status != Some(Mapped) && qs[k].status == Some(Mapped)
    requires forall i :: 0 <= i < |ps| && i != k ==> (ps[i].status == Some(Mapped) <==> qs[i].status == Some(Mapped))
    ensures MappedCount(qs) == MappedCount(ps) + 1
  {
    var n := |ps| - 1;
    if k == n {
      MappedCountByStatus(ps[..n], qs[..n]);
    } else {
      MappedCountStep(ps[..n], qs[..n], k);
    }
  }

  /** `Math.round(m / t * 100)` on exact rationals: the nearest integer,
      halves rounded up, which is floor((200 m + t) / (2 t)). */
  function RoundedPercent(m: nat, t: nat): (r: nat)
    requires 0 < t
    ensures 2 * t * r <= 200 * m + t < 2 * t * (r + 1)
  {
    (200 * m + t) / (2 * t)
  }

  /** The percentage is 0 for no mapped part, 100 for all of them, and in
      between never below 0 nor above 100. */
  lemma {:induction false} RoundedPercentBounds(m: nat, t: nat)
    requires 0 < t && m <= t
    ensures RoundedPercent(m, t) <= 100
    ensures m == 0 ==> RoundedPercent(m, t) == 0
    ensures m == t ==> RoundedPercent(m, t) == 100
  {
    var r := RoundedPercent(m, t);
    ScaledOrder(2 * t, r, 101);
    if m == 0 {
      ScaledOrder(2 * t, r, 1);
    }
    if m == t {
      ScaledOrder(2 * t, r, 100);
      ScaledOrder(2 * t, 100, r + 1);
    }
  }

  /** Multiplying by a positive factor keeps the order of two naturals. */
  lemma ScaledOrder(c: nat, a: nat, b: nat)
    requires 0 < c
    ensures c * a < c * b <==> a < b
  {
  }

  /** `progress`: 0 for a view without parts, otherwise the rounded share of mapped parts. */
  function Progress(ps: seq<Part>): (r: nat)
    ensures r <= 100
  {
    if |ps| > 0 then
      RoundedPercentBounds(MappedCount(ps), |ps|);
      RoundedPercent(MappedCount(ps), |ps|)
    else 0
  }

  /** Progress is 0 with no parts or none mapped, and 100 once every part of a
      non-empty view is mapped. */
  lemma ProgressEnds(ps: seq<Part>)
    ensures |ps| == 0 ==> Progress(ps) == 0
    ensures (forall i :: 0 <= i < |ps| ==> ps[i].status != Some(Mapped)) ==> Progress(ps) == 0
    ensures |ps| > 0 && AllMapped(ps) ==> Progress(ps) == 100
  {
    MappedCountFull(ps);
    MappedCountZero(ps);
    if |ps| > 0 {
      RoundedPercentBounds(MappedCount(ps), |ps|);
    }
  }

  /** Rounding lets the bar read 100 before the last part is mapped: with
      all parts but one mapped it reads 100 exactly when there are at least
      200 parts (199 of 200 is 99.5 percent). */
  lemma {:induction false} ProgressRoundsUpNearTheEnd(t: nat)
    requires 0 < t
    ensures RoundedPercent(t - 1, t) == 100 <==> 200 <= t
  {
    var r := RoundedPercent(t - 1, t);
    if 200 <= t {
      ScaledOrder(2 * t, r, 101);
      ScaledOrder(2 * t, 99, r);
    } else {
      ScaledOrder(2 * t, r, 100);
    }
  }

  /** The three status-line branches of mapping mode. */
  datatype MappingLine = NamesPart | ReadyToContinue | AllPartsMapped

  /** Which mapping-mode line shows: the part at the cursor while the
      cursor is on a part, otherwise whether an unmapped part remains. */
  function MappingLineOf(ps: seq<Part>, cursor: nat): (l: MappingLine)
    ensures l == NamesPart <==> cursor < |ps|
    ensures l == AllPartsMapped <==> cursor >= |ps| && forall j :: 0 <= j < |ps| ==> ps[j].status != Some(Unmapped)
  {
    if cursor < |ps| then NamesPart
    else if FirstUnmapped(ps).Some? then ReadyToContinue
    else AllPartsMapped
  }

  /** The mapping-mode line shown when the cursor is past the last part but
      a part is still unmapped. Written as two literals: the verifier reads
      the characters of short literals only. */
  const ReadyLine: string := "Ready to continue mapping" + " - Click on next location"

  /** The mapping-mode line that names the part at the cursor. */
  function PartLine(partName: string): (r: string)
    ensures |r| == |partName| + 10
    ensures r[..9] == "Mapping {" && r[9..|r| - 1] == partName && r[|r| - 1] == '}'
  {
    "Mapping {" + partName + "}"
  }

  /** `getStatusMessage`: the line shown after "Status: ". */
  function StatusMessage(selectedView: string, mode: ViewMode, ps: seq<Part>, cursor: nat): (r: string)
    ensures selectedView == "" ==> r == "No view selected"
    ensures selectedView != "" && mode == Initial ==> r == "Upload an image to begin"
    ensures selectedView != "" && mode == Complete ==> r == "Mapping complete"
    ensures selectedView != "" && mode == Mapping && cursor < |ps| ==> r == PartLine(ps[cursor].partName)
  {
    if selectedView == "" then "No view selected"
    else
      match mode
      case Initial => "Upload an image to begin"
      case Mapping =>
        (match MappingLineOf(ps, cursor)
         case NamesPart => PartLine(ps[cursor].partName)
         case ReadyToContinue => ReadyLine
         case AllPartsMapped => "All parts mapped!")
      case Complete => "Mapping complete"
  }

  /** The line tells the states apart: "All parts mapped!" is shown only in
      mapping mode, with a view selected, the cursor past the last part and
      no part left unmapped; "Ready to continue" only when one is left. */
  lemma StatusMessageIdentifiesState(selectedView: string, mode: ViewMode, ps: seq<Part>, cursor: nat)
    ensures StatusMessage(selectedView, mode, ps, cursor) == "All parts mapped!" <==>
      selectedView != "" && mode == Mapping && cursor >= |ps| && forall j :: 0 <= j < |ps| ==> ps[j].status != Some(Unmapped)
    ensures StatusMessage(selectedView, mode, ps, cursor) == ReadyLine <==>
      selectedView != "" && mode == Mapping && cursor >= |ps| && exists j :: 0 <= j < |ps| && ps[j].status == Some(Unmapped)
  {
    var r := StatusMessage(selectedView, mode, ps, cursor);
    if selectedView != "" && mode == Mapping {
      match MappingLineOf(ps, cursor)
      case NamesPart =>
        assert r[0] == 'M';
        assert ReadyLine[0] == 'R';
      case ReadyToContinue =>
        var k := FirstUnmappedIndex(ps);
        assert 0 <= k < |ps| && ps[k].status == Some(Unmapped);
      case AllPartsMapped =>
    }
  }

  /** `getModeColor`: one theme colour per mode. */
  function ModeColor(mode: ViewMode): (r: string)
    ensures mode == Initial <==> r == "text.disabled"
    ensures mode == Mapping <==> r == "primary.main"
    ensures mode == Complete <==> r == "success.main"
  {
    match mode
    case Initial => "text.disabled"
    case Mapping => "primary.main"
    case Complete => "success.main"
  }

  /** Different modes get different colours, and none gets the fallback
      colour of the unreachable default branch. */
  lemma ModeColorDistinct(m1: ViewMode, m2: ViewMode)
    ensures ModeColor(m1) == ModeColor(m2) <==> m1 == m2
    ensures ModeColor(m1) != "text.secondary"
  {
  }

  /** The progress widget is rendered only in mapping mode for a view with parts. */
  predicate ShowsProgress(mode: ViewMode, ps: seq<Part>)
  {
    mode == Mapping && |ps| > 0
  }

  /** While the widget shows, its figure is a percentage of a non-empty view,
      and it reads 100 whenever every part is mapped. */
  lemma ShownProgressIsMeaningful(mode: ViewMode, ps: seq<Part>)
    requires ShowsProgress(mode, ps)
    ensures Progress(ps) == RoundedPercent(MappedCount(ps), |ps|)
    ensures AllMapped(ps) ==> Progress(ps) == 100
  {
    ProgressEnds(ps);
  }
}
