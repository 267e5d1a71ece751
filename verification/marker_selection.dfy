/**
 * The decisions of the Leaflet slider control as pure functions: which marker
 * indices a slide shows in each mode, which time the timestamp label shows,
 * which popups are opened and whether the viewport is refitted.
 *
 * The control keeps its markers in a JavaScript array indexed from 0; reading
 * it at a negative index, past its end or at a hole yields `undefined`.  The
 * model keeps that array as a sequence of optional markers and reads it
 * through `At`, which answers `None` outside the sequence.
 */
module MarkerSelection {
  import opened Wrappers

  /** A marker layer as the control sees it, with the configured time
      attribute already looked up in both of the places the control reads it. */
  datatype Marker = Marker(
    hasFeature: bool,             // `feature !== undefined` (layers built from GeoJSON)
    featureTime: Option<string>,  // `feature.properties[timeAttribute]`
    hasOptions: bool,             // the layer has an `options` object
    optionsTime: Option<string>,  // `options[timeAttribute]`
    popup: Option<nat>)           // the popup bound to the layer, by identity

  /** The `markers` array of the control's options. */
  type MarkerIndex = seq<Option<Marker>>

  /** JavaScript truthiness of a time value: defined and not the empty string. */
  predicate Truthy(t: Option<string>)
  {
    t.Some? && t.value != ""
  }

  /** `markers[i]`: the marker stored at `i`, or `None` (undefined) when there is none. */
  function At(ms: MarkerIndex, i: int): (o: Option<Marker>)
    ensures o.Some? ==> 0 <= i < |ms| && ms[i] == o
    ensures 0 <= i < |ms| ==> o == ms[i]
  {
    if 0 <= i < |ms| then ms[i] else None
  }

  /** `!!markers[i]`: a marker exists at index `i`. */
  predicate Present(ms: MarkerIndex, i: int)
  {
    At(ms, i).Some?
  }

  /** The time the slide callback writes into the timestamp box for the
      marker at the current index, `None` when it writes nothing: a layer
      with a feature is labelled by `feature.properties[timeAttribute]`
      when that is truthy, and a layer without one by
      `options[timeAttribute]` when `options` exist and that is truthy. */
  function LabelTime(m: Marker): Option<string>
  {
    if m.hasFeature then
      if Truthy(m.featureTime) then m.featureTime else None
    else if m.hasOptions && Truthy(m.optionsTime) then m.optionsTime
    else None
  }

  /** The same-date reference time `currentTime`: the feature's time when
      the marker has a feature, otherwise `options && options[timeAttribute]`;
      undefined when there is no marker at the current index. */
  function ReferenceTime(o: Option<Marker>): Option<string>
  {
    match o
    case None => None
    case Some(m) =>
      if m.hasFeature then m.featureTime
      else if m.hasOptions then m.optionsTime
      else None
  }

  /** The default `extractTimestamp`: the empty string for a falsy time, the
      time itself otherwise. */
  function ExtractTimestamp(t: Option<string>): (r: string)
    ensures Truthy(t) ==> r == t.value
    ensures r == "" <==> !Truthy(t)
  {
    if !Truthy(t) then "" else t.value
  }

  /** The test a loop applies to an existing marker before showing it: every
      marker, or (same-date mode) only those whose `options` time equals the
      reference under `==`. */
  datatype Filter = AnyMarker | SameOptionsTime(reference: Option<string>)

  predicate Keeps(f: Filter, m: Marker)
  {
    match f
    case AnyMarker => true
    case SameOptionsTime(t) => m.hasOptions && m.optionsTime == t
  }

  /** The loop `for (i = lo; i <= hi; i++) if (markers[i] && ...)` keeps `i`. */
  predicate Chosen(ms: MarkerIndex, f: Filter, i: int)
  {
    Present(ms, i) && Keeps(f, At(ms, i).value)
  }

  predicate Ascending(s: seq<int>)
  {
    forall a, b :: 0 <= a < b < |s| ==> s[a] < s[b]
  }

  /** The indices, in ascending order, that a loop from `lo` up to and
      including `hi` keeps (see `PickMembers` and `PickAscending`). */
  function Pick(ms: MarkerIndex, lo: int, hi: int, f: Filter): (r: seq<int>)
    ensures |r| <= if lo <= hi then hi - lo + 1 else 0
    decreases hi - lo
  {
    if lo > hi then []
    else Pick(ms, lo, hi - 1, f) + (if Chosen(ms, f, hi) then [hi] else [])
  }

  /** A loop keeps exactly the indices of `[lo, hi]` its filter keeps. */
  lemma {:induction false} PickMembers(ms: MarkerIndex, lo: int, hi: int, f: Filter)
    ensures forall x :: x in Pick(ms, lo, hi, f) <==> lo <= x <= hi && Chosen(ms, f, x)
    decreases hi - lo
  {
    if lo <= hi {
      PickMembers(ms, lo, hi - 1, f);
    }
  }

  /** A loop keeps its indices in strictly ascending order, so none twice. */
  lemma {:induction false} PickAscending(ms: MarkerIndex, lo: int, hi: int, f: Filter)
    ensures Ascending(Pick(ms, lo, hi, f))
    decreases hi - lo
  {
    if lo <= hi {
      var front := Pick(ms, lo, hi - 1, f);
      PickAscending(ms, lo, hi - 1, f);
      PickMembers(ms, lo, hi - 1, f);
      assert forall k :: 0 <= k < |front| ==> front[k] in front;
    }
  }

  /** The set of a sequence's elements. */
  function Elems(s: seq<int>): set<int>
  {
    set x | x in s
  }

  /** A sequence and its set of elements are empty together. */
  lemma ElemsEmpty(s: seq<int>)
    ensures Elems(s) == {} <==> s == []
  {
    if s != [] {
      assert s[0] in Elems(s);
    }
  }

  /** The four display modes, in the order the slide callback tries them. */
  datatype Mode = RangeMode | FollowMode(window: int) | SameDateMode | CumulativeMode

  /** Range first, then a positive `follow`, then `sameDate`, else cumulative. */
  function ModeOf(range: bool, follow: int, sameDate: bool): (r: Mode)
    ensures r == RangeMode <==> range
    ensures r.FollowMode? <==> !range && follow > 0
    ensures r.FollowMode? ==> r.window == follow
    ensures r == SameDateMode <==> !range && follow <= 0 && sameDate
    ensures r == CumulativeMode <==> !range && follow <= 0 && !sameDate
  {
    if range then RangeMode
    else if follow > 0 then FollowMode(follow)
    else if sameDate then SameDateMode
    else CumulativeMode
  }

  /** What the slider widget hands to the slide callback: `ui.value` and,
      when it is an array, `ui.values` as the pair `(values[0], values[1])`. */
  datatype Ui = Ui(value: int, values: Option<(int, int)>)

  /** `currentIndex`: the upper handle in range mode when `ui.values` is an
      array, `ui.value` otherwise. */
  function CurrentIndex(range: bool, ui: Ui): int
  {
    if range && ui.values.Some? then ui.values.value.1 else ui.value
  }

  /** The markers a slide shows, in the order it pushes them (the
      `rangechanged` payload); `None` when the range branch reads
      `ui.values[0]` of a missing array and the callback throws. */
  function SlideSelection(ms: MarkerIndex, minV: int, maxV: int, mode: Mode, ui: Ui): (r: Option<seq<int>>)
    ensures r.None? <==> mode == RangeMode && ui.values.None?
  {
    match mode
    case RangeMode =>
      if ui.values.None? then None
      else Some(Pick(ms, ui.values.value.0, ui.values.value.1, AnyMarker))
    case FollowMode(w) =>
      Some(Pick(ms, ui.value - w + 1, ui.value, AnyMarker))
    case SameDateMode =>
      Some(Pick(ms, minV, maxV, SameOptionsTime(ReferenceTime(At(ms, ui.value)))))
    case CumulativeMode =>
      Some(Pick(ms, minV, ui.value, AnyMarker))
  }

  /** The markers the clearing loop removes from the map: every existing
      marker with an index in `[minV, maxV]`. */
  function Cleared(ms: MarkerIndex, minV: int, maxV: int): set<int>
  {
    Elems(Pick(ms, minV, maxV, AnyMarker))
  }

  lemma ClearedMembers(ms: MarkerIndex, minV: int, maxV: int)
    ensures forall x :: x in Cleared(ms, minV, maxV) <==> minV <= x <= maxV && Present(ms, x)
  {
    PickMembers(ms, minV, maxV, AnyMarker);
  }

  /** The map's marker layers after a slide that found a marker at the
      current index: the cleared ones are gone, the selected ones are on. */
  function ShownAfterSlide(shown: set<int>, ms: MarkerIndex, minV: int, maxV: int, sel: Option<seq<int>>): set<int>
  {
    match sel
    case None => shown - Cleared(ms, minV, maxV)
    case Some(s) => shown - Cleared(ms, minV, maxV) + Elems(s)
  }

  /** The markers added to the bounds group `fg`: all shown ones, except in
      same-date mode, whose loop never adds to it. */
  function BoundsGroup(mode: Mode, shown: seq<int>): set<int>
  {
    if mode == SameDateMode then {} else Elems(shown)
  }

  /** `rezoom` is truthy: set and not zero. */
  predicate RezoomOn(rezoom: Option<int>)
  {
    rezoom.Some? && rezoom.value != 0
  }

  /** The `maxZoom` of the `fitBounds` request a slide makes, if any: only
      when `rezoom` is truthy and the bounds of `fg` are valid, that is, `fg`
      holds at least one marker. */
  function RefitRequest(rezoom: Option<int>, bounds: set<int>): Option<int>
  {
    if RezoomOn(rezoom) && bounds != {} then rezoom else None
  }

  /** The calls the control makes on popups. */
  datatype PopupCall = CloseMapPopup | OpenMarkerPopup(popup: nat)

  /** `markers[i].getPopup()` for an existing marker, `None` otherwise. */
  function PopupOf(ms: MarkerIndex, i: int): Option<nat>
  {
    if Present(ms, i) then At(ms, i).value.popup else None
  }

  /** The `openPopup` calls `_openPopups` makes for `shown`: one per marker
      that has a popup, in list order. */
  function OpenCalls(ms: MarkerIndex, shown: seq<int>): (r: seq<PopupCall>)
    ensures |r| <= |shown|
  {
    if shown == [] then []
    else
      OpenCalls(ms, shown[..|shown| - 1]) +
      match PopupOf(ms, shown[|shown| - 1])
      case Some(p) => [OpenMarkerPopup(p)]
      case None => []
  }

  /** `_openPopup` after `_openPopups(shown)`: the popup opened last, or the
      previous value when no marker of `shown` has a popup. */
  function LastPopup(ms: MarkerIndex, shown: seq<int>, prior: Option<nat>): Option<nat>
  {
    var calls := OpenCalls(ms, shown);
    if calls == [] then prior
    else match calls[|calls| - 1]
      case OpenMarkerPopup(p) => Some(p)
      case CloseMapPopup => prior
  }

  /** Opening the popups of one more marker: its popup, if it has one, is
      opened after the others and becomes `_openPopup`. */
  lemma OpenStep(ms: MarkerIndex, shown: seq<int>, k: int, prior: Option<nat>)
    requires 0 <= k < |shown|
    ensures OpenCalls(ms, shown[..k + 1]) ==
      OpenCalls(ms, shown[..k]) + match PopupOf(ms, shown[k]) { case Some(p) => [OpenMarkerPopup(p)] case None => [] }
    ensures LastPopup(ms, shown[..k + 1], prior) ==
      match PopupOf(ms, shown[k]) { case Some(p) => Some(p) case None => LastPopup(ms, shown[..k], prior) }
  {
    assert shown[..k + 1][..k] == shown[..k];
  }

  /** The positions of `shown` whose marker has a popup. */
  function PopupPositions(ms: MarkerIndex, shown: seq<int>): set<int>
  {
    set k | 0 <= k < |shown| && PopupOf(ms, shown[k]).Some?
  }

  /** `_openPopups(shown)` makes only `openPopup` calls on markers, and
      opens a popup exactly when some listed marker has it. */
  lemma {:induction false} OpenCallsMembers(ms: MarkerIndex, shown: seq<int>)
    ensures forall c :: c in OpenCalls(ms, shown) ==> c.OpenMarkerPopup?
    ensures forall p: nat :: OpenMarkerPopup(p) in OpenCalls(ms, shown) <==>
      exists k :: 0 <= k < |shown| && PopupOf(ms, shown[k]) == Some(p)
    decreases |shown|
  {
    if shown != [] {
      var n := |shown| - 1;
      var front := shown[..n];
      assert shown[..n + 1] == shown;
      OpenStep(ms, shown, n, None);
      OpenCallsMembers(ms, front);
      var tail := if PopupOf(ms, shown[n]).Some? then [OpenMarkerPopup(PopupOf(ms, shown[n]).value)] else [];
      assert OpenCalls(ms, shown) == OpenCalls(ms, front) + tail;
      forall p: nat
        ensures OpenMarkerPopup(p) in OpenCalls(ms, shown) <==>
          exists k :: 0 <= k < |shown| && PopupOf(ms, shown[k]) == Some(p)
      {
        if OpenMarkerPopup(p) in OpenCalls(ms, front) {
          var k :| 0 <= k < n && PopupOf(ms, front[k]) == Some(p);
          assert front[k] == shown[k];
        }
        if exists k :: 0 <= k < |shown| && PopupOf(ms, shown[k]) == Some(p) {
          var k :| 0 <= k < |shown| && PopupOf(ms, shown[k]) == Some(p);
          if k < n {
            assert front[k] == shown[k];
          }
        }
      }
    }
  }

  /** `_openPopups(shown)` makes one `openPopup` call per listed marker that
      has a popup. */
  lemma {:induction false} OpenCallsCount(ms: MarkerIndex, shown: seq<int>)
    ensures |OpenCalls(ms, shown)| == |PopupPositions(ms, shown)|
    decreases |shown|
  {
    if shown != [] {
      var n := |shown| - 1;
      var front := shown[..n];
      assert shown[..n + 1] == shown;
      OpenStep(ms, shown, n, None);
      OpenCallsCount(ms, front);
      assert forall j :: 0 <= j < n ==> front[j] == shown[j];
      assert n !in PopupPositions(ms, front);
      if PopupOf(ms, shown[n]).Some? {
        assert PopupPositions(ms, shown) == PopupPositions(ms, front) + {n};
      } else {
        assert PopupPositions(ms, shown) == PopupPositions(ms, front);
      }
    }
  }

  /** The calls for the first `k` listed markers come before those for the
      rest: `_openPopups` opens popups in list order. */
  lemma {:induction false} OpenCallsInListOrder(ms: MarkerIndex, shown: seq<int>, k: int)
    requires 0 <= k <= |shown|
    ensures OpenCalls(ms, shown[..k]) <= OpenCalls(ms, shown)
    decreases |shown| - k
  {
    if k < |shown| {
      OpenStep(ms, shown, k, None);
      OpenCallsInListOrder(ms, shown, k + 1);
    } else {
      assert shown[..k] == shown;
    }
  }

  /** `index_start` before `showAllOnStart` is applied: in range mode
      `values[1]` when `values` is an array with a second entry, otherwise
      `maxValue`; else `value` unless undefined or null, otherwise `minValue`. */
  function StartIndex(range: bool, values: Option<seq<int>>, minV: int, maxV: int, value: Option<int>): int
  {
    if range then
      if values.Some? && |values.value| >= 2 then values.value[1] else maxV
    else
      if value.Some? then value.value else minV
  }

  /** The initial pass of `startSlider`: every existing marker from
      `minValue` up to `index_start`, whatever the mode. */
  function InitialSelection(ms: MarkerIndex, minV: int, indexStart: int): seq<int>
  {
    Pick(ms, minV, indexStart, AnyMarker)
  }
}
