/**
 * Properties of the slider control's selection rules, stated over the pure
 * functions the class's methods are proved against.
 */
module SelectionProperties {
  import opened Wrappers
  import opened MarkerSelection

  /** A loop whose filter keeps no index selects nothing. */
  lemma {:induction false} NothingChosenSelectsNothing(ms: MarkerIndex, lo: int, hi: int, f: Filter)
    requires forall x :: !Chosen(ms, f, x)
    ensures Pick(ms, lo, hi, f) == []
    decreases hi - lo
  {
    if lo <= hi {
      NothingChosenSelectsNothing(ms, lo, hi - 1, f);
    }
  }

  /** Cumulative mode shows exactly the existing markers from `minValue` up to
      the current index, in ascending order. */
  lemma CumulativeShowsPrefix(ms: MarkerIndex, minV: int, maxV: int, ui: Ui)
    ensures var sel := SlideSelection(ms, minV, maxV, CumulativeMode, ui);
      && sel.Some?
      && (forall x :: x in sel.value <==> minV <= x <= ui.value && Present(ms, x))
      && Ascending(sel.value)
  {
    PickMembers(ms, minV, ui.value, AnyMarker);
    PickAscending(ms, minV, ui.value, AnyMarker);
  }

  /** Range mode shows the existing markers between the two handles, and
      nothing when the lower handle is above the upper one. */
  lemma RangeShowsBetweenHandles(ms: MarkerIndex, minV: int, maxV: int, lo: int, hi: int, value: int)
    ensures var sel := SlideSelection(ms, minV, maxV, RangeMode, Ui(value, Some((lo, hi))));
      && sel.Some?
      && (forall x :: x in sel.value <==> lo <= x <= hi && Present(ms, x))
      && (lo > hi ==> sel.value == [])
  {
    PickMembers(ms, lo, hi, AnyMarker);
  }

  /** Follow mode shows the existing markers of the `w` indices ending at the
      current one; indices below 0 hold no marker, so near the start the
      window is shorter, and `minValue` plays no part. */
  lemma FollowShowsWindow(ms: MarkerIndex, minV: int, maxV: int, w: int, ui: Ui)
    requires w > 0
    ensures var sel := SlideSelection(ms, minV, maxV, FollowMode(w), ui);
      && sel.Some?
      && (forall x :: x in sel.value <==> ui.value - w + 1 <= x <= ui.value && Present(ms, x))
      && (forall x :: x in sel.value ==> 0 <= x)
      && |sel.value| <= w
  {
    PickMembers(ms, ui.value - w + 1, ui.value, AnyMarker);
  }

  /** Every `rangechanged` payload lists existing markers in strictly
      ascending index order, each once. */
  lemma SelectionAscending(ms: MarkerIndex, minV: int, maxV: int, mode: Mode, ui: Ui)
    ensures var sel := SlideSelection(ms, minV, maxV, mode, ui);
      sel.Some? ==> Ascending(sel.value) && forall x :: x in sel.value ==> Present(ms, x)
  {
    var lo, hi, f;
    match mode {
      case RangeMode =>
        if ui.values.None? {
          return;
        }
        lo, hi, f := ui.values.value.0, ui.values.value.1, AnyMarker;
      case FollowMode(w) =>
        lo, hi, f := ui.value - w + 1, ui.value, AnyMarker;
      case SameDateMode =>
        lo, hi, f := minV, maxV, SameOptionsTime(ReferenceTime(At(ms, ui.value)));
      case CumulativeMode =>
        lo, hi, f := minV, ui.value, AnyMarker;
    }
    assert SlideSelection(ms, minV, maxV, mode, ui) == Some(Pick(ms, lo, hi, f));
    PickAscending(ms, lo, hi, f);
    PickMembers(ms, lo, hi, f);
  }

  /** Same-date mode shows the existing markers of `[minValue, maxValue]`
      that have `options` whose time equals, under `==`, the reference time
      of the marker at the current index. */
  lemma SameDateShowsEqualOptionsTime(ms: MarkerIndex, minV: int, maxV: int, ui: Ui)
    ensures var sel := SlideSelection(ms, minV, maxV, SameDateMode, ui);
      var reference := ReferenceTime(At(ms, ui.value));
      && sel.Some?
      && forall x :: x in sel.value <==>
           minV <= x <= maxV && Present(ms, x) && At(ms, x).value.hasOptions && At(ms, x).value.optionsTime == reference
  {
    PickMembers(ms, minV, maxV, SameOptionsTime(ReferenceTime(At(ms, ui.value))));
  }

  /** The reference time is read from the feature when the current marker
      has one, but only `options` times are compared: when no marker carries
      a time in its `options` (layers built from GeoJSON) and the current
      marker's feature time is set, same-date mode shows nothing at all. */
  lemma SameDateIgnoresFeatureTimes(ms: MarkerIndex, minV: int, maxV: int, ui: Ui)
    requires forall i :: 0 <= i < |ms| && ms[i].Some? ==> ms[i].value.optionsTime.None?
    requires ReferenceTime(At(ms, ui.value)).Some?
    ensures SlideSelection(ms, minV, maxV, SameDateMode, ui) == Some([])
  {
    NothingChosenSelectsNothing(ms, minV, maxV, SameOptionsTime(ReferenceTime(At(ms, ui.value))));
  }

  /** A marker without a feature whose `options` hold its time belongs to
      its own same-date group when it lies in `[minValue, maxValue]`. */
  lemma SameDateKeepsCurrent(ms: MarkerIndex, minV: int, maxV: int, ui: Ui)
    requires Present(ms, ui.value) && minV <= ui.value <= maxV
    requires !At(ms, ui.value).value.hasFeature && At(ms, ui.value).value.hasOptions
    ensures ui.value in SlideSelection(ms, minV, maxV, SameDateMode, ui).value
  {
    PickMembers(ms, minV, maxV, SameOptionsTime(ReferenceTime(At(ms, ui.value))));
  }

  /** With no marker at all, every mode selects nothing. */
  lemma EmptyIndexShowsNothing(minV: int, maxV: int, mode: Mode, ui: Ui)
    ensures forall i :: !Present([], i)
    ensures var sel := SlideSelection([], minV, maxV, mode, ui);
      sel.Some? ==> sel.value == []
  {
    match mode
    case RangeMode =>
      if ui.values.Some? {
        NothingChosenSelectsNothing([], ui.values.value.0, ui.values.value.1, AnyMarker);
      }
    case FollowMode(w) =>
      NothingChosenSelectsNothing([], ui.value - w + 1, ui.value, AnyMarker);
    case SameDateMode =>
      NothingChosenSelectsNothing([], minV, maxV, SameOptionsTime(None));
    case CumulativeMode =>
      NothingChosenSelectsNothing([], minV, ui.value, AnyMarker);
  }

  /** After a slide the map holds exactly the selection, provided every
      marker it held lay in the cleared range `[minValue, maxValue]`. */
  lemma SlideShowsExactlySelection(shown: set<int>, ms: MarkerIndex, minV: int, maxV: int, s: seq<int>)
    requires forall x :: x in shown ==> minV <= x <= maxV && Present(ms, x)
    ensures ShownAfterSlide(shown, ms, minV, maxV, Some(s)) == Elems(s)
  {
    var c := Cleared(ms, minV, maxV);
    ClearedMembers(ms, minV, maxV);
    forall x | x in shown
      ensures x in c
    {
    }
    assert shown - c == {};
  }

  /** A slide from a map holding only existing markers of `[minValue,
      maxValue]` leaves exactly the selection on it, nothing after the
      range TypeError, and still only existing markers. */
  lemma SlideLeavesExactlySelection(shown: set<int>, ms: MarkerIndex, minV: int, maxV: int, mode: Mode, ui: Ui)
    requires forall x :: x in shown ==> minV <= x <= maxV && Present(ms, x)
    ensures var sel := SlideSelection(ms, minV, maxV, mode, ui);
      var after := ShownAfterSlide(shown, ms, minV, maxV, sel);
      && after == (if sel.Some? then Elems(sel.value) else {})
      && forall x :: x in after ==> Present(ms, x)
  {
    var sel := SlideSelection(ms, minV, maxV, mode, ui);
    SelectionAscending(ms, minV, maxV, mode, ui);
    if sel.Some? {
      SlideShowsExactlySelection(shown, ms, minV, maxV, sel.value);
    } else {
      ClearedMembers(ms, minV, maxV);
      forall x | x in shown
        ensures x in Cleared(ms, minV, maxV)
      {
      }
      assert shown - Cleared(ms, minV, maxV) == {};
    }
  }

  /** Repeating a slide with the same position leaves the map's markers as
      the first one left them. */
  lemma RepeatedSlideKeepsMap(shown: set<int>, ms: MarkerIndex, minV: int, maxV: int, sel: Option<seq<int>>)
    ensures var once := ShownAfterSlide(shown, ms, minV, maxV, sel);
      ShownAfterSlide(once, ms, minV, maxV, sel) == once
  {
    var once := ShownAfterSlide(shown, ms, minV, maxV, sel);
    var twice := ShownAfterSlide(once, ms, minV, maxV, sel);
    var c := Cleared(ms, minV, maxV);
    match sel
    case None =>
      assert twice == once - c;
    case Some(s) =>
      assert twice == (shown - c + Elems(s)) - c + Elems(s);
  }

  /** A refit is requested exactly when `rezoom` is truthy, the mode is not
      same-date and the selection is not empty, and it is capped at `rezoom`. */
  lemma RefitPolicy(mode: Mode, rezoom: Option<int>, shown: seq<int>)
    ensures var r := RefitRequest(rezoom, BoundsGroup(mode, shown));
      && (r.Some? <==> RezoomOn(rezoom) && mode != SameDateMode && shown != [])
      && (r.Some? ==> r == rezoom)
  {
    ElemsEmpty(shown);
  }

  /** The layers of a group extracted by `onAdd` occupy exactly the indices
      `0..n-1`, which the clearing range `[0, max(0, n-1)]` covers; with an
      empty group no index holds a marker. */
  lemma ExtractedIndexIsDense(ms: MarkerIndex)
    requires forall i :: 0 <= i < |ms| ==> ms[i].Some?
    ensures forall i :: Present(ms, i) <==> 0 <= i < |ms|
    ensures var top := if |ms| > 1 then |ms| - 1 else 0;
      forall x :: x in Cleared(ms, 0, top) <==> 0 <= x < |ms|
  {
    ClearedMembers(ms, 0, if |ms| > 1 then |ms| - 1 else 0);
  }

  /** `_openPopup` is left as it was by `_openPopups(shown)` when no marker
      of `shown` has a popup. */
  lemma {:induction false} NoPopupKeepsOpenPopup(ms: MarkerIndex, shown: seq<int>, prior: Option<nat>)
    requires forall k :: 0 <= k < |shown| ==> PopupOf(ms, shown[k]).None?
    ensures LastPopup(ms, shown, prior) == prior
    decreases |shown|
  {
    if shown != [] {
      var n := |shown| - 1;
      assert shown[..n + 1] == shown;
      OpenStep(ms, shown, n, prior);
      assert forall j :: 0 <= j < n ==> shown[..n][j] == shown[j];
      NoPopupKeepsOpenPopup(ms, shown[..n], prior);
    }
  }

  /** `_openPopup` after `_openPopups(shown)` is the popup of the last marker
      of `shown` that has one. */
  lemma {:induction false} LastPopupIsLastWithPopup(ms: MarkerIndex, shown: seq<int>, prior: Option<nat>, k: int)
    requires 0 <= k < |shown| && PopupOf(ms, shown[k]).Some?
    requires forall j :: k < j < |shown| ==> PopupOf(ms, shown[j]).None?
    ensures LastPopup(ms, shown, prior) == PopupOf(ms, shown[k])
    decreases |shown|
  {
    var n := |shown| - 1;
    assert shown[..n + 1] == shown;
    OpenStep(ms, shown, n, prior);
    if k < n {
      var front := shown[..n];
      assert forall j :: 0 <= j < n ==> front[j] == shown[j];
      LastPopupIsLastWithPopup(ms, front, prior, k);
    }
  }

  /** The initial pass of `startSlider` shows what a cumulative slide to the
      start index would show, whatever the mode. */
  lemma InitialPassIsCumulative(ms: MarkerIndex, minV: int, maxV: int, indexStart: int)
    ensures SlideSelection(ms, minV, maxV, CumulativeMode, Ui(indexStart, None)) == Some(InitialSelection(ms, minV, indexStart))
  {
  }

  /** The initial pass shows only existing markers. */
  lemma InitialPassShowsExisting(ms: MarkerIndex, minV: int, indexStart: int)
    ensures forall x :: x in Elems(InitialSelection(ms, minV, indexStart)) ==> Present(ms, x)
  {
    PickMembers(ms, minV, indexStart, AnyMarker);
  }

  /** A plain marker whose `options` carry the time `t`. */
  function OptionsMarker(t: string): Marker
  {
    Marker(false, None, true, Some(t), None)
  }

  /** In range mode the initial pass starts at `minValue` rather than at the
      lower handle: with two markers and both handles on index 1, the initial
      pass shows both markers where a slide to the same handles shows one. */
  lemma InitialRangePassIgnoresLowerHandle()
    ensures var ms := [Some(OptionsMarker("a")), Some(OptionsMarker("b"))];
      var values := Some([1, 1]);
      var indexStart := StartIndex(true, values, 0, 1, None);
      && InitialSelection(ms, 0, indexStart) == [0, 1]
      && SlideSelection(ms, 0, 1, RangeMode, Ui(1, Some((1, 1)))) == Some([1])
  {
    var ms := [Some(OptionsMarker("a")), Some(OptionsMarker("b"))];
    assert Pick(ms, 0, 0, AnyMarker) == [0];
    assert Pick(ms, 0, 1, AnyMarker) == [0, 1];
    assert Pick(ms, 1, 0, AnyMarker) == [];
    assert Pick(ms, 1, 1, AnyMarker) == [1];
  }

  /** A follow window of 3 at index 5 over ten markers at 0..9 shows 3, 4
      and 5; at index 1 it shows only 0 and 1. */
  lemma FollowWindowExamples(ms: MarkerIndex)
    requires |ms| == 10 && forall i :: 0 <= i < 10 ==> ms[i].Some?
    ensures SlideSelection(ms, 0, 9, FollowMode(3), Ui(5, None)) == Some([3, 4, 5])
    ensures SlideSelection(ms, 0, 9, FollowMode(3), Ui(1, None)) == Some([0, 1])
  {
    assert Pick(ms, 3, 2, AnyMarker) == [];
    assert Pick(ms, 3, 3, AnyMarker) == [3];
    assert Pick(ms, 3, 4, AnyMarker) == [3, 4];
    assert Pick(ms, 3, 5, AnyMarker) == [3, 4, 5];
    assert Pick(ms, -1, -1, AnyMarker) == [];
    assert Pick(ms, -1, 0, AnyMarker) == [0];
    assert Pick(ms, -1, 1, AnyMarker) == [0, 1];
  }

  /** Handles on 2 and 5 over ten markers at 0..9 show indices 2 to 5. */
  lemma RangeExample(ms: MarkerIndex)
    requires |ms| == 10 && forall i :: 0 <= i < 10 ==> ms[i].Some?
    ensures SlideSelection(ms, 0, 9, RangeMode, Ui(5, Some((2, 5)))) == Some([2, 3, 4, 5])
  {
    assert Pick(ms, 2, 1, AnyMarker) == [];
    assert Pick(ms, 2, 2, AnyMarker) == [2];
    assert Pick(ms, 2, 3, AnyMarker) == [2, 3];
    assert Pick(ms, 2, 4, AnyMarker) == [2, 3, 4];
    assert Pick(ms, 2, 5, AnyMarker) == [2, 3, 4, 5];
  }

  /** With times A, A, B, A in the `options` of the markers at 0..3,
      same-date mode at index 0 shows 0, 1 and 3. */
  lemma SameDateExample(ms: MarkerIndex)
    requires |ms| == 4
    requires ms[0] == Some(OptionsMarker("A")) && ms[1] == Some(OptionsMarker("A"))
    requires ms[2] == Some(OptionsMarker("B")) && ms[3] == Some(OptionsMarker("A"))
    ensures SlideSelection(ms, 0, 3, SameDateMode, Ui(0, None)) == Some([0, 1, 3])
  {
    var a := SameOptionsTime(Some("A"));
    assert Pick(ms, 0, -1, a) == [];
    assert Pick(ms, 0, 0, a) == [0];
    assert Pick(ms, 0, 1, a) == [0, 1];
    assert Pick(ms, 0, 2, a) == [0, 1];
    assert Pick(ms, 0, 3, a) == [0, 1, 3];
  }

  /** On the same markers, same-date mode at index 2 shows only 2. */
  lemma SameDateSingletonExample(ms: MarkerIndex)
    requires |ms| == 4
    requires ms[0] == Some(OptionsMarker("A")) && ms[1] == Some(OptionsMarker("A"))
    requires ms[2] == Some(OptionsMarker("B")) && ms[3] == Some(OptionsMarker("A"))
    ensures SlideSelection(ms, 0, 3, SameDateMode, Ui(2, None)) == Some([2])
  {
    var b := SameOptionsTime(Some("B"));
    assert Pick(ms, 0, -1, b) == [];
    assert Pick(ms, 0, 0, b) == [];
    assert Pick(ms, 0, 1, b) == [];
    assert Pick(ms, 0, 2, b) == [2];
    assert Pick(ms, 0, 3, b) == [2];
  }

  /** With an undefined reference time (the current marker's feature has
      no time) `undefined == undefined` holds, so every marker whose
      `options` lack a time matches: two such GeoJSON layers both show. */
  lemma UndefinedReferenceMatchesUntimed(ms: MarkerIndex)
    requires |ms| == 2
    requires ms[0] == Some(Marker(true, None, true, None, None)) && ms[1] == ms[0]
    ensures SlideSelection(ms, 0, 1, SameDateMode, Ui(0, None)) == Some([0, 1])
  {
    var u := SameOptionsTime(None);
    assert Pick(ms, 0, -1, u) == [];
    assert Pick(ms, 0, 0, u) == [0];
    assert Pick(ms, 0, 1, u) == [0, 1];
  }

  /** Outside same-date mode the marker at the current index is among the
      markers shown, provided it lies in the range the mode scans. */
  lemma CurrentMarkerShown(ms: MarkerIndex, minV: int, maxV: int, mode: Mode, ui: Ui)
    requires mode != SameDateMode
    requires Present(ms, CurrentIndex(mode == RangeMode, ui))
    requires mode == RangeMode ==> ui.values.Some? && ui.values.value.0 <= ui.values.value.1
    requires mode.FollowMode? ==> mode.window > 0
    requires mode == CumulativeMode ==> minV <= ui.value
    ensures var sel := SlideSelection(ms, minV, maxV, mode, ui);
      sel.Some? && CurrentIndex(mode == RangeMode, ui) in sel.value
  {
  }

  /** The initial pass of `startSlider` shows the existing markers from
      `minValue` up to `values[1]` in range mode when that entry exists and
      up to `maxValue` otherwise; outside range mode up to `value`, and only
      the marker at `minValue` when `value` is undefined or null. */
  lemma InitialPassBounds(ms: MarkerIndex, range: bool, values: Option<seq<int>>, minV: int, maxV: int, value: Option<int>)
    ensures var s := InitialSelection(ms, minV, StartIndex(range, values, minV, maxV, value));
      var top := if range then (if values.Some? && |values.value| >= 2 then values.value[1] else maxV)
                 else (if value.Some? then value.value else minV);
      forall x :: x in s <==> minV <= x <= top && Present(ms, x)
    ensures !range && value.None? ==>
      InitialSelection(ms, minV, StartIndex(range, values, minV, maxV, value)) == if Present(ms, minV) then [minV] else []
  {
    PickMembers(ms, minV, StartIndex(range, values, minV, maxV, value), AnyMarker);
    assert Pick(ms, minV, minV - 1, AnyMarker) == [];
  }

  /** The time written into the timestamp box and the same-date reference
      time agree: the box is written exactly when the reference time is
      truthy, and then with that time. */
  lemma TimestampSource(m: Marker)
    ensures LabelTime(m).Some? <==> Truthy(ReferenceTime(Some(m)))
    ensures LabelTime(m).Some? ==> LabelTime(m) == ReferenceTime(Some(m))
  {
  }
}
