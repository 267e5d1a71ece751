# Leaflet slider control: temporal marker selection

This project models the core of `L.Control.Slider` (`js/SliderControl.js`), a
Leaflet control that lets a user scrub a one- or two-handle slider over a
time-ordered list of map markers. On every slide, the control does four things:

- It decides which markers are visible.
- It updates a timestamp label.
- It reopens popups.
- It fires a `rangechanged` event, and it may refit the viewport.

There are four display modes, tried in this order:

1. **Range** shows the markers between the two handles.
2. **Follow window** shows the last `follow` indices up to the handle.
3. **Same date** shows the markers whose `options` time equals the current marker's time.
4. **Cumulative** shows everything from `minValue` up to the handle.

The model has four files:

- `wrappers.dfy`: `Option`, which stands for JavaScript's `undefined`/`null`.
- `marker_selection.dfy` (module `MarkerSelection`): the decisions as pure
  functions.
  - `Pick` is the shape every `for (i = lo; i <= hi; i++) if (markers[i] ...)`
    loop of the control takes.
  - `SlideSelection` is the slide callback's four-way branch.
  - `Cleared` is the clearing loop.
  - `OpenCalls`/`LastPopup` describe `_openPopups`.
  - `StartIndex`/`InitialSelection` describe `startSlider`.
  - `RefitRequest` decides the refit.
- `slider_control.dfy` (module `SliderControl`): the class `Slider`.
  - The options the control never rewrites are constants.
  - The options it rewrites (`markers`, `minValue`, `maxValue`, `value`,
    `values`) are fields.
  - The collaborators' state is also held in fields:
    - `onMap`: the marker indices on the map.
    - `labelText`/`labelShown`: the label.
    - `openPopup`: the popup stored as `_openPopup`.
    - `popupLog`: the close and open calls on popups.
    - `events`: the `rangechanged` payloads.
    - `refits`: the `maxZoom` of each `fitBounds` request.
  - Each method is proved against the pure functions, and its frame names
    exactly the fields it may change.
- `selection_properties.dfy` (module `SelectionProperties`): lemmas stating what each mode
  shows, the payload order, idempotence of a repeated slide, the refit policy,
  the popup rule, the initial pass, and the worked examples (follow window,
  range, same date).

A marker record holds:

- whether it has a GeoJSON `feature`, and that feature's time;
- whether it has `options`, and the `options` time;
- its popup.

The configured `timeAttribute` is already applied to both times. Times are
`Option<string>`, so `undefined == undefined` holds as it does in JavaScript.

On these points the model follows the code:

- In follow mode the window is cut off only by the ends of the marker
  array. It is not clamped at `minValue`.
- In range mode, when the lower handle is above the upper handle, the
  selection is empty. The handles are not swapped.
- Same-date mode compares only `options[timeAttribute]`, using `==`, against a
  reference time. That reference comes from `feature.properties` when the
  current marker has a feature. So GeoJSON markers, which have no `options`
  time, never match a defined reference time (`SameDateIgnoresFeatureTimes`).
  When the reference time is undefined, `undefined == undefined` makes every
  marker whose `options` lack a time match (`UndefinedReferenceMatchesUntimed`).
  Same-date markers are never added to the bounds group, so this mode never
  refits.
- When no marker exists at the current index, the label is left as it is. No
  layer is removed or added and no event fires.
- A slide does not diff against the previous selection. It removes every
  existing marker in `[minValue, maxValue]` and re-adds the selection. The
  resulting map is the same on a repeat (`RepeatedSlideKeepsMap`).
- `onAdd` on an empty layer group sets `maxValue = 0`, not `-1`.
- The initial pass of `startSlider` shows every existing marker from
  `minValue` up to the start index, whatever the mode. In range mode it
  therefore ignores the lower handle (`InitialRangePassIgnoresLowerHandle`).

## Model

| member | source | states |
|---|---|---|
| `MarkerSelection.ExtractTimestamp` | js/SliderControl.js:250-255 | the default formatter returns the time unchanged when it is truthy and `''` exactly when it is falsy |
| `MarkerSelection.Pick` | js/SliderControl.js:187-193 | a showing loop over `[lo, hi]` keeps at most one index per position of the range, and none when `lo > hi` |
| `MarkerSelection.PickMembers` | js/SliderControl.js:179-185 | a showing loop keeps exactly the indices of `[lo, hi]` holding a marker that passes its test |
| `MarkerSelection.PickAscending` | js/SliderControl.js:208-214 | a showing loop pushes indices in strictly ascending order, so none twice |
| `MarkerSelection.ModeOf` | js/SliderControl.js:175-215 | mode precedence: range if `range`, else follow window if `follow > 0`, else same date if `sameDate`, else cumulative (each as an if-and-only-if) |
| `MarkerSelection.SlideSelection` | js/SliderControl.js:175-178 | the branch fails (a TypeError) exactly in range mode when `ui.values` is not an array |
| `MarkerSelection.ClearedMembers` | js/SliderControl.js:172-174 | the clearing loop removes exactly the existing markers with index in `[minValue, maxValue]` |
| `MarkerSelection.OpenCalls` | js/SliderControl.js:272-277 | `_openPopups` opens at most one popup per listed marker |
| `MarkerSelection.OpenCallsMembers` | js/SliderControl.js:272-277 | `_openPopups` makes only `openPopup` calls on markers, and opens popup `p` iff some listed marker has popup `p` |
| `MarkerSelection.OpenCallsCount` | js/SliderControl.js:272-277 | one `openPopup` call per listed marker that has a popup |
| `MarkerSelection.OpenCallsInListOrder` | js/SliderControl.js:272-277 | the calls for the first `k` listed markers are a prefix of all the calls: popups open in list order |
| `SelectionProperties.CumulativeShowsPrefix` | js/SliderControl.js:207-215 | cumulative mode shows exactly the existing markers with `minValue <= i <= ui.value`, ascending |
| `SelectionProperties.RangeShowsBetweenHandles` | js/SliderControl.js:175-185 | range mode shows exactly the existing markers between `values[0]` and `values[1]`, and nothing when `values[0] > values[1]` |
| `SelectionProperties.FollowShowsWindow` | js/SliderControl.js:186-193 | follow mode shows exactly the existing markers in `[cur - follow + 1, cur]`; none has a negative index; at most `follow` of them |
| `SelectionProperties.SelectionAscending` | js/SliderControl.js:220-222 | every `rangechanged` payload lists existing markers in strictly ascending index order |
| `SelectionProperties.SameDateShowsEqualOptionsTime` | js/SliderControl.js:194-206 | same-date mode shows exactly the existing markers of `[minValue, maxValue]` that have `options` whose time `==` the reference time |
| `SelectionProperties.SameDateIgnoresFeatureTimes` | js/SliderControl.js:196-205 | with a defined reference time and no marker carrying an `options` time, same-date mode shows nothing |
| `SelectionProperties.SameDateKeepsCurrent` | js/SliderControl.js:196-205 | a feature-less marker with `options` in `[minValue, maxValue]` belongs to its own same-date group |
| `SelectionProperties.EmptyIndexShowsNothing` | js/SliderControl.js:142 | with no markers no index holds one, and every mode selects nothing |
| `SelectionProperties.SlideShowsExactlySelection` | js/SliderControl.js:172-215 | when every marker on the map lies in `[minValue, maxValue]`, the map after a slide holds exactly the selection |
| `SelectionProperties.SlideLeavesExactlySelection` | js/SliderControl.js:172-215 | from a map of existing markers of `[minValue, maxValue]`, a slide leaves exactly the selection (nothing after the range TypeError), all existing markers |
| `SelectionProperties.RepeatedSlideKeepsMap` | js/SliderControl.js:172-215 | repeating a slide at the same position leaves the map's markers unchanged |
| `SelectionProperties.RefitPolicy` | js/SliderControl.js:224-231 | a refit is requested iff `rezoom` is truthy, the mode is not same-date and the selection is non-empty; its `maxZoom` is `rezoom` |
| `SelectionProperties.ExtractedIndexIsDense` | js/SliderControl.js:58-66 | extracted layers occupy exactly indices `0..n-1`, and the clearing range `[0, max(0, n-1)]` covers exactly those |
| `SelectionProperties.NoPopupKeepsOpenPopup` | js/SliderControl.js:272-277 | `_openPopup` is unchanged when no listed marker has a popup |
| `SelectionProperties.LastPopupIsLastWithPopup` | js/SliderControl.js:272-277 | `_openPopup` ends as the popup of the last listed marker that has one |
| `SelectionProperties.InitialPassIsCumulative` | js/SliderControl.js:236-243 | the initial pass shows what a cumulative slide to the start index shows |
| `SelectionProperties.InitialPassShowsExisting` | js/SliderControl.js:236-243 | the initial pass shows only existing markers |
| `SelectionProperties.InitialRangePassIgnoresLowerHandle` | js/SliderControl.js:101-109 | in range mode the initial pass starts at `minValue`: handles `[1, 1]` over two markers show both initially but one on a slide |
| `SelectionProperties.FollowWindowExamples` | js/SliderControl.js:186-193 | window 3 over ten markers shows `[3, 4, 5]` at 5 and `[0, 1]` at 1 |
| `SelectionProperties.RangeExample` | js/SliderControl.js:175-185 | handles on 2 and 5 over ten markers show `[2, 3, 4, 5]` |
| `SelectionProperties.SameDateExample` | js/SliderControl.js:194-206 | times A, A, B, A: same-date at index 0 shows `[0, 1, 3]` |
| `SelectionProperties.SameDateSingletonExample` | js/SliderControl.js:194-206 | times A, A, B, A: same-date at index 2 shows `[2]` |
| `SelectionProperties.UndefinedReferenceMatchesUntimed` | js/SliderControl.js:196-202 | with an undefined reference time, two GeoJSON layers whose `options` carry no time both show |
| `SelectionProperties.CurrentMarkerShown` | js/SliderControl.js:140 | outside same-date mode, the marker at `currentIndex` (the upper handle in range mode, `ui.value` otherwise) is shown when it lies in the scanned range |
| `SelectionProperties.InitialPassBounds` | js/SliderControl.js:101-112 | `index_start` is `values[1]` (range, entry present), else `maxValue` (range), else `value`, else `minValue`; the initial pass shows exactly the existing markers from `minValue` to it, only the one at `minValue` when `value` is undefined |
| `SelectionProperties.TimestampSource` | js/SliderControl.js:144-200 | the time written into the box (`LabelTime`, js 144-161) and the same-date reference (`ReferenceTime`, js 196-200) agree: the box is written exactly when the reference is truthy, and then with that time |
| `SliderControl.DefaultsAreCumulative` | js/SliderControl.js:4-20 | under the default options a slide is cumulative, never refits, opens popups, and the initial pass ends at index 0 |
| `SliderControl.Slider.constructor` | js/SliderControl.js:4-28 | `initialize`: options merged in, nothing mounted, no marker shown, label empty and hidden |
| `SliderControl.Slider.OnAdd` | js/SliderControl.js:30-70 | `markers` reset; with an `eachLayer` group its layers fill indices `0..n-1` in order, `minValue = 0`, `maxValue = max(0, n-1)`, `value` defaults to `maxValue` only when undefined or null; otherwise bounds and value kept; the timestamp box starts empty and hidden; the control must not be mounted; establishes the invariant that every marker lies in `[minValue, maxValue]` and the map shows only existing markers |
| `SliderControl.Slider.ClearTimestamp` | js/SliderControl.js:257-262 | empties and hides the label when it exists, otherwise no change |
| `SliderControl.Slider.ClosePopup` | js/SliderControl.js:280-284 | closes the map's popup when there is a map; `_openPopup` becomes null |
| `SliderControl.Slider.OpenPopups` | js/SliderControl.js:264-278 | nothing when popups are off; else closes the map popup, opens the listed markers' popups in order, `_openPopup` the last opened |
| `SliderControl.Slider.ClearMarkers` | js/SliderControl.js:171-174 | the map loses exactly the existing markers of `[minValue, maxValue]` |
| `SliderControl.Slider.ShowPicked` | js/SliderControl.js:179-185 | the loop's payload is `Pick(lo, hi)`, those markers are added to the map, and to the bounds group only when asked |
| `SliderControl.Slider.ShowInitialPass` | js/SliderControl.js:235-247 | shows exactly `InitialSelection` up to `indexStart`, opens its popups, fires one `rangechanged` with it, and keeps the invariant |
| `SliderControl.Slider.StartSlider` | js/SliderControl.js:96-248 | no change when unmounted or the widget is unavailable; else applies `showAllOnStart` to `value`/`values`, adds the existing markers of `[minValue, index_start]`, opens their popups, fires `rangechanged` with them |
| `SliderControl.Slider.ShowSelection` | js/SliderControl.js:175-215 | shows the active mode's selection; the bounds group is the selection except in same-date mode |
| `SliderControl.Slider.ShowTimestamp` | js/SliderControl.js:143-167 | the label is shown with `extractTimestamp(time)` iff the time the callback reads (the feature's for a layer with one, else the `options` time) is truthy, else untouched |
| `SliderControl.Slider.Render` | js/SliderControl.js:169-222 | clear, show the selection, reopen popups, fire `rangechanged`; reports the range-branch TypeError |
| `SliderControl.Slider.Slide` | js/SliderControl.js:136-232 | absent marker at the current index: no layer, popup, event or label change and no refit; else the map holds exactly the mode's selection (nothing after the range TypeError), the payload is that selection, popups and label as above, and a refit with `maxZoom = rezoom` only per `RefitRequest`; keeps the invariant |

## Left out

- OnAdd: the markers the map already shows must be layers of the extracted group, since `onMap` tracks only the control's own markers; when the `layer` option has no `eachLayer` there are none.
- DOM construction and teardown in `onAdd`/`onRemove` (js/SliderControl.js:36-49, 76-94): plumbing with no decisions. `onRemove` is not modelled, so once mounted the control stays mounted, and `OnAdd` applies only to a control that is not mounted (Leaflet removes a mounted control before adding it again).
- Marker: a feature whose `properties` is null or missing makes the slide callback throw a TypeError at js/SliderControl.js:145, before any layer is cleared; every modelled feature has a properties object, so this exception path is not modelled.
- The jQuery UI widget, its `min`/`max`/`step` configuration and its availability probe: availability is a boolean parameter of `StartSlider`, and the slide callback is the method `Slide` taking `ui.value`/`ui.values`.
- Registering and removing the map's `mouseup` listener that calls `clearTimestamp`: event wiring.
- `L.Mixin.Events`: `fire` is an append to `events`; subscribers are not modelled.
- `console.error` messages: logging only.
- Bounds geometry (`getBounds`, `isValid`, `fitBounds`): floating-point LatLng math in Leaflet. "Bounds valid" is modelled as "the bounds group is non-empty".
- A user-supplied `extractTimestamp`: only the default formatter is modelled.
- The `timeAttribute` lookup: each marker record carries the two times already read under that key.
- The `markers` option passed by a caller: `onAdd` discards it before any slide can run.
- A `maxValue` explicitly set to `undefined`: `maxValue` is always an integer, so the `minValue` fallback for `index_start` in range mode is not modelled.
- Non-integer or non-numeric slider values, and JavaScript's loose-equality coercions between numbers and strings: positions are integers and times are `Option<string>`.
- `onMap` tracks only the control's marker layers; the map's other layers are not modelled.
- The factory aliases and the demo script at the end of the file.
