/**
 * The Leaflet slider control (`L.Control.Slider`) as a class.  The options
 * the control never rewrites are constants; the options it rewrites (the
 * marker array, the bounds and the handle positions) and the state of its
 * collaborators are fields:
 *   - `onMap`: the marker indices whose layers are on the map;
 *   - `labelText`, `labelShown`: the timestamp box's HTML and visibility;
 *   - `openPopup`: the `_openPopup` field;
 *   - `popupLog`: the calls made to close the map's popup and to open a
 *     marker's popup, in order;
 *   - `events`: the payload of every `rangechanged` event fired, as indices;
 *   - `refits`: the `maxZoom` of every `fitBounds` request.
 */
module SliderControl {
  import opened Wrappers
  import opened MarkerSelection
  import SelectionProperties

  /** The options a caller may pass to the control. */
  datatype Config = Config(
    minValue: int,
    maxValue: int,
    value: Option<int>,
    values: Option<seq<int>>,
    range: bool,
    follow: int,
    sameDate: bool,
    showAllOnStart: bool,
    rezoom: Option<int>,
    showPopups: bool)

  /** The control's default options. */
  function DefaultConfig(): Config
  {
    Config(0, 100, Some(0), None, false, 0, false, false, None, true)
  }

  /** Under the default options a slide is cumulative, never refits and
      opens popups, and the initial pass ends at index 0. */
  lemma DefaultsAreCumulative()
    ensures var c := DefaultConfig();
      && ModeOf(c.range, c.follow, c.sameDate) == CumulativeMode
      && !RezoomOn(c.rezoom)
      && c.showPopups
      && StartIndex(c.range, c.values, c.minValue, c.maxValue, c.value) == 0
  {
  }

  class Slider {
    const range: bool
    const follow: int
    const sameDate: bool
    const showAllOnStart: bool
    const rezoom: Option<int>
    const showPopups: bool

    var markers: MarkerIndex
    var minValue: int
    var maxValue: int
    var value: Option<int>
    var values: Option<seq<int>>

    /** `onAdd` has run: the map, the slider box and the timestamp box exist. */
    var mounted: bool
    /** `startSlider` got past its guard and registered the slide callback. */
    var started: bool

    var onMap: set<int>
    var labelText: string
    var labelShown: bool
    var openPopup: Option<nat>
    var popupLog: seq<PopupCall>
    var events: seq<seq<int>>
    var refits: seq<int>

    /** The slide callback is registered only on a mounted control; every
        existing marker lies in `[minValue, maxValue]`, the range a slide
        clears; and the map shows only existing markers. */
    ghost predicate Valid()
      reads this
    {
      && (started ==> mounted)
      && (forall i :: Present(markers, i) ==> minValue <= i <= maxValue)
      && (forall x :: x in onMap ==> Present(markers, x))
    }

    /** The display mode the slide callback uses. */
    function ActiveMode(): Mode
    {
      ModeOf(range, follow, sameDate)
    }

    /** `initialize`: the options are merged in; nothing is mounted yet. */
    constructor (cfg: Config)
      ensures Valid() && !mounted && !started
      ensures range == cfg.range && follow == cfg.follow && sameDate == cfg.sameDate
      ensures showAllOnStart == cfg.showAllOnStart && rezoom == cfg.rezoom && showPopups == cfg.showPopups
      ensures minValue == cfg.minValue && maxValue == cfg.maxValue
      ensures value == cfg.value && values == cfg.values
      ensures markers == [] && onMap == {}
      ensures labelText == "" && !labelShown && openPopup.None?
      ensures popupLog == [] && events == [] && refits == []
    {
      range, follow, sameDate := cfg.range, cfg.follow, cfg.sameDate;
      showAllOnStart, rezoom, showPopups := cfg.showAllOnStart, cfg.rezoom, cfg.showPopups;
      minValue, maxValue := cfg.minValue, cfg.maxValue;
      value, values := cfg.value, cfg.values;
      markers := [];
      mounted, started := false, false;
      onMap := {};
      labelText, labelShown := "", false;
      openPopup := None;
      popupLog, events, refits := [], [], [];
    }

    /** `onAdd(map)`: `layer` holds the layers of the `layer` option in
        `eachLayer` order, or `None` when that option has no `eachLayer`;
        `shown` is the set of positions in `layer` whose layers the map
        already displays.  A fresh, empty and hidden timestamp box is built. */
    method OnAdd(layer: Option<seq<Marker>>, shown: set<int>)
      requires !mounted && !started
      requires forall x :: x in shown ==> layer.Some? && 0 <= x < |layer.value|
      modifies this`mounted, this`onMap, this`markers, this`minValue, this`maxValue, this`value
      modifies this`labelText, this`labelShown
      ensures Valid() && mounted && !started && onMap == shown
      ensures labelText == "" && !labelShown
      ensures layer.None? ==> markers == [] && minValue == old(minValue) && maxValue == old(maxValue) && value == old(value)
      ensures layer.Some? ==> |markers| == |layer.value| && forall i :: 0 <= i < |markers| ==> markers[i] == Some(layer.value[i])
      ensures layer.Some? ==> minValue == 0 && maxValue == (if |layer.value| > 1 then |layer.value| - 1 else 0)
      ensures layer.Some? ==> value == if old(value).None? then Some(maxValue) else old(value)
    {
      mounted := true;
      labelText, labelShown := "", false;
      onMap := shown;
      markers := [];
      if layer.Some? {
        var layers := layer.value;
        var idx := 0;
        while idx < |layers|
          modifies this`markers
          invariant 0 <= idx <= |layers|
          invariant |markers| == idx
          invariant forall i :: 0 <= i < idx ==> markers[i] == Some(layers[i])
        {
          markers := markers + [Some(layers[idx])];
          idx := idx + 1;
        }
        minValue := 0;
        maxValue := if idx - 1 > 0 then idx - 1 else 0;
        if value.None? {
          value := Some(maxValue);
        }
      }
    }

    /** `clearTimestamp`: empties and hides the timestamp box, if it exists. */
    method ClearTimestamp()
      modifies this`labelText, this`labelShown
      ensures mounted ==> labelText == "" && !labelShown
      ensures !mounted ==> labelText == old(labelText) && labelShown == old(labelShown)
    {
      if mounted {
        labelText, labelShown := "", false;
      }
    }

    /** `closePopup`: closes the map's popup, if there is a map, and forgets `_openPopup`. */
    method ClosePopup()
      modifies this`popupLog, this`openPopup
      ensures openPopup.None?
      ensures popupLog == old(popupLog) + if mounted then [CloseMapPopup] else []
    {
      if mounted {
        popupLog := popupLog + [CloseMapPopup];
      }
      openPopup := None;
    }

    /** The popup state after `_openPopups(shown)` from the log `log0` and
        the `_openPopup` value `open0`: nothing happens when popups are off;
        otherwise the map's popup is closed (when there is a map), the popups
        of `shown` are opened in order and `_openPopup` is the last of them. */
    ghost predicate PopupsOpenedFor(log0: seq<PopupCall>, open0: Option<nat>, shown: seq<int>)
      reads this
    {
      if showPopups then
        && popupLog == log0 + (if mounted then [CloseMapPopup] else []) + OpenCalls(markers, shown)
        && openPopup == LastPopup(markers, shown, open0)
      else popupLog == log0 && openPopup == open0
    }

    /** `_openPopups(shown)`: unless popups are off, closes the map's popup
        and then opens the popup of every marker of `shown` that has one, in
        list order. */
    method OpenPopups(shown: seq<int>)
      modifies this`popupLog, this`openPopup
      ensures PopupsOpenedFor(old(popupLog), old(openPopup), shown)
    {
      if !showPopups {
        return;
      }
      if mounted {
        popupLog := popupLog + [CloseMapPopup];
      }
      ghost var before := popupLog;
      var k := 0;
      while k < |shown|
        invariant 0 <= k <= |shown|
        invariant popupLog == before + OpenCalls(markers, shown[..k])
        invariant openPopup == LastPopup(markers, shown[..k], old(openPopup))
      {
        OpenStep(markers, shown, k, old(openPopup));
        match PopupOf(markers, shown[k]) {
          case Some(p) =>
            popupLog := popupLog + [OpenMarkerPopup(p)];
            openPopup := Some(p);
          case None =>
        }
        k := k + 1;
      }
      assert shown[..|shown|] == shown;
    }

    /** The clearing loop of the slide callback: removes every existing
        marker with an index in `[minValue, maxValue]` from the map. */
    method ClearMarkers()
      modifies this`onMap
      ensures onMap == old(onMap) - Cleared(markers, minValue, maxValue)
    {
      var i := minValue;
      while i <= maxValue
        invariant minValue <= i && (i <= maxValue + 1 || i == minValue)
        invariant forall x :: x in onMap <==> x in old(onMap) && !(minValue <= x < i && Present(markers, x))
        decreases maxValue - i
      {
        if Present(markers, i) {
          onMap := onMap - {i};
        }
        i := i + 1;
      }
      ghost var gone := Cleared(markers, minValue, maxValue);
      ClearedMembers(markers, minValue, maxValue);
      assert forall x :: x in onMap <==> x in old(onMap) - gone;
    }

    /** One showing loop of the slide callback (and of the initial pass):
        from `lo` up to `hi`, every marker the filter keeps is pushed to the
        payload, added to the map and, when `toBounds`, to the bounds group. */
    method ShowPicked(lo: int, hi: int, f: Filter, toBounds: bool) returns (shown: seq<int>, bounds: set<int>)
      modifies this`onMap
      ensures shown == Pick(markers, lo, hi, f)
      ensures onMap == old(onMap) + Elems(shown)
      ensures bounds == if toBounds then Elems(shown) else {}
    {
      shown, bounds := [], {};
      var i := lo;
      while i <= hi
        invariant lo <= i && (i <= hi + 1 || i == lo)
        invariant shown == Pick(markers, lo, i - 1, f)
        invariant forall x :: x in onMap <==> x in old(onMap) || x in shown
        invariant forall x :: x in bounds <==> toBounds && x in shown
        decreases hi - i
      {
        if Chosen(markers, f, i) {
          shown := shown + [i];
          onMap := onMap + {i};
          if toBounds {
            bounds := bounds + {i};
          }
        }
        i := i + 1;
      }
      ghost var added := Elems(shown);
      assert forall x :: x in onMap <==> x in old(onMap) + added;
      assert forall x :: x in bounds <==> x in (if toBounds then added else {});
    }

    /** `startSlider`: `sliderAvailable` says whether the jQuery UI slider
        can be built.  Past the guard it applies `showAllOnStart`, registers
        the slide callback and shows every existing marker from `minValue`
        up to the start index, then opens their popups and fires
        `rangechanged` with them. */
    method StartSlider(sliderAvailable: bool)
      requires Valid()
      modifies this`value, this`values, this`started, this`onMap, this`popupLog, this`openPopup, this`events
      ensures Valid()
      ensures !(mounted && sliderAvailable) ==>
        && started == old(started) && value == old(value) && values == old(values)
        && onMap == old(onMap) && popupLog == old(popupLog) && openPopup == old(openPopup) && events == old(events)
      ensures mounted && sliderAvailable ==>
        var indexStart := if showAllOnStart then maxValue else StartIndex(range, old(values), minValue, maxValue, old(value));
        var initial := InitialSelection(markers, minValue, indexStart);
        && started
        && onMap == old(onMap) + Elems(initial)
        && events == old(events) + [initial]
        && PopupsOpenedFor(old(popupLog), old(openPopup), initial)
      ensures mounted && sliderAvailable && showAllOnStart && range ==>
        values == Some([minValue, maxValue]) && value == old(value)
      ensures mounted && sliderAvailable && showAllOnStart && !range ==>
        value == Some(maxValue) && values == old(values)
      ensures mounted && sliderAvailable && !showAllOnStart ==>
        value == old(value) && values == old(values)
    {
      var indexStart := StartIndex(range, values, minValue, maxValue, value);
      if !(mounted && sliderAvailable) {
        return;
      }
      if showAllOnStart {
        if range {
          values := Some([minValue, maxValue]);
        } else {
          value := Some(maxValue);
        }
        indexStart := maxValue;
      }
      started := true;
      var _ := ShowInitialPass(indexStart);
    }

    /** The initial pass of `startSlider`: shows every existing marker from
        `minValue` up to `indexStart`, opens their popups and fires
        `rangechanged` with them. */
    method ShowInitialPass(indexStart: int) returns (initial: seq<int>)
      requires Valid()
      modifies this`onMap, this`popupLog, this`openPopup, this`events
      ensures Valid()
      ensures initial == InitialSelection(markers, minValue, indexStart)
      ensures onMap == old(onMap) + Elems(initial)
      ensures events == old(events) + [initial]
      ensures PopupsOpenedFor(old(popupLog), old(openPopup), initial)
    {
      var bounds;
      initial, bounds := ShowPicked(minValue, indexStart, AnyMarker, false);
      SelectionProperties.InitialPassShowsExisting(markers, minValue, indexStart);
      if showPopups {
        OpenPopups(initial);
      }
      events := events + [initial];
    }

    /** The four-way branch of the slide callback, tried in the order range,
        follow window, same date, cumulative: shows the markers of the active
        mode and returns them with the bounds group they were added to;
        `None` when the range branch reads `ui.values[0]` of a missing array
        (a TypeError), after which nothing is shown. */
    method ShowSelection(ui: Ui) returns (shown: Option<seq<int>>, bounds: set<int>)
      modifies this`onMap
      ensures shown == SlideSelection(markers, minValue, maxValue, ActiveMode(), ui)
      ensures onMap == old(onMap) + if shown.Some? then Elems(shown.value) else {}
      ensures bounds == if shown.Some? then BoundsGroup(ActiveMode(), shown.value) else {}
    {
      var cur := CurrentIndex(range, ui);
      var picked: seq<int>;
      if range {
        if ui.values.None? {
          return None, {};
        }
        picked, bounds := ShowPicked(ui.values.value.0, ui.values.value.1, AnyMarker, true);
      } else if follow > 0 {
        picked, bounds := ShowPicked(cur - follow + 1, cur, AnyMarker, true);
      } else if sameDate {
        var currentTime := ReferenceTime(At(markers, cur));
        picked, bounds := ShowPicked(minValue, maxValue, SameOptionsTime(currentTime), false);
      } else {
        picked, bounds := ShowPicked(minValue, cur, AnyMarker, true);
      }
      shown := Some(picked);
    }

    /** The timestamp update of the slide callback for the marker at the
        current index: the box is shown with `extractTimestamp(time)` when
        the time the callback reads is truthy and left as it is otherwise. */
    method ShowTimestamp(m: Marker)
      modifies this`labelText, this`labelShown
      ensures LabelTime(m).Some? ==> labelShown && labelText == ExtractTimestamp(LabelTime(m))
      ensures LabelTime(m).None? ==> labelShown == old(labelShown) && labelText == old(labelText)
    {
      if m.hasFeature {
        if Truthy(m.featureTime) {
          labelShown := true;
          labelText := ExtractTimestamp(m.featureTime);
        }
      } else if m.hasOptions && Truthy(m.optionsTime) {
        labelShown := true;
        labelText := ExtractTimestamp(m.optionsTime);
      }
    }

    /** The re-render of the slide callback once a marker was found at the
        current index: clear, show the active mode's selection, open its
        popups and fire `rangechanged`.  `thrown` reports the TypeError of the
        range branch; `bounds` is the bounds group `fg`. */
    method Render(ui: Ui) returns (thrown: bool, bounds: set<int>)
      requires mounted
      modifies this`onMap, this`popupLog, this`openPopup, this`events
      ensures var sel := SlideSelection(markers, minValue, maxValue, ActiveMode(), ui);
        && thrown == sel.None?
        && onMap == ShownAfterSlide(old(onMap), markers, minValue, maxValue, sel)
        && events == (if sel.Some? then old(events) + [sel.value] else old(events))
        && bounds == (if sel.Some? then BoundsGroup(ActiveMode(), sel.value) else {})
        && if sel.Some? then PopupsOpenedFor(old(popupLog), old(openPopup), sel.value)
           else popupLog == old(popupLog) && openPopup == old(openPopup)
    {
      ClearMarkers();
      var shown;
      shown, bounds := ShowSelection(ui);
      if shown.None? {
        return true, bounds;
      }
      thrown := false;
      if showPopups {
        OpenPopups(shown.value);
      }
      events := events + [shown.value];
    }

    /** The slide callback.  When a marker exists at the current index it
        updates the timestamp box, clears every marker layer of
        `[minValue, maxValue]`, shows the selection of the active mode, opens
        its popups and fires `rangechanged`; then, if `rezoom` is set and the
        bounds group is not empty, it requests a refit.  `thrown` is set when
        the range branch reads `ui.values[0]` of a missing array. */
    method Slide(ui: Ui) returns (thrown: bool)
      requires Valid() && started
      modifies this`onMap, this`labelText, this`labelShown, this`popupLog, this`openPopup, this`events, this`refits
      ensures Valid()
      ensures var cur := CurrentIndex(range, ui);
        var sel := SlideSelection(markers, minValue, maxValue, ActiveMode(), ui);
        && thrown == (Present(markers, cur) && sel.None?)
        && onMap == (if Present(markers, cur) then ShownAfterSlide(old(onMap), markers, minValue, maxValue, sel) else old(onMap))
        && events == (if Present(markers, cur) && sel.Some? then old(events) + [sel.value] else old(events))
      ensures var sel := SlideSelection(markers, minValue, maxValue, ActiveMode(), ui);
        Present(markers, CurrentIndex(range, ui)) ==> onMap == if sel.Some? then Elems(sel.value) else {}
      ensures var cur := CurrentIndex(range, ui);
        var t := ReferenceTime(At(markers, cur));
        if Present(markers, cur) && Truthy(t) then labelShown && labelText == ExtractTimestamp(t)
        else labelShown == old(labelShown) && labelText == old(labelText)
      ensures var cur := CurrentIndex(range, ui);
        var sel := SlideSelection(markers, minValue, maxValue, ActiveMode(), ui);
        if Present(markers, cur) && sel.Some? then PopupsOpenedFor(old(popupLog), old(openPopup), sel.value)
        else popupLog == old(popupLog) && openPopup == old(openPopup)
      ensures var cur := CurrentIndex(range, ui);
        var sel := SlideSelection(markers, minValue, maxValue, ActiveMode(), ui);
        var bounds := if Present(markers, cur) && sel.Some? then BoundsGroup(ActiveMode(), sel.value) else {};
        refits == old(refits) + match RefitRequest(rezoom, bounds) { case Some(z) => [z] case None => [] }
    {
      thrown := false;
      var cur := CurrentIndex(range, ui);
      var bounds: set<int> := {};
      var here := At(markers, cur);
      if here.Some? {
        ShowTimestamp(here.value);
        SelectionProperties.TimestampSource(here.value);
        thrown, bounds := Render(ui);
        SelectionProperties.SlideLeavesExactlySelection(old(onMap), markers, minValue, maxValue, ActiveMode(), ui);
        if thrown {
          return;
        }
      }
      match RefitRequest(rezoom, bounds) {
        case Some(z) => refits := refits + [z];
        case None =>
      }
    }
  }
}
