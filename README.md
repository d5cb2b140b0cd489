# logo-finder: the marker game and the tip rotation, in Dafny

logo-finder is a browser game. The player pans a main map and a minimap that
follows it, looking for the one real marker among decoys. A compass points
toward the nearest marker that has not been found yet, and a hint box cycles
through seven tips. This project models the two pieces of logic in it that
change state:

- `markers.dfy`, module `Markers`: the value side of the map screen. It covers
  the marker list and the click that sets a marker's `found` flag. It also
  covers the pipeline that picks the compass target: drop the found markers,
  map each remaining one to its distance from the viewport centre, and take
  `indexOf(Math.min(...distances))`. `Math.min` of no numbers is positive
  infinity (datatype `Extended`), and `indexOf` gives -1 when no position
  holds that value. The pipeline is proved to pick the nearest unfound marker
  (`IsNearestUnfound`), taking the first in list order on a tie, and to pick
  none exactly when every marker is found.
- `map.dfy`, module `MapComponent`: class `Map` holds the component's state
  (`loaded`, `viewport`, `isMinimapActive`, `minimapViewport`, `markers`,
  `angle`). Its methods are the event handlers and the distance-and-angle
  effect. Each method's contract gives the new state in terms of the old one.
- `tips.dfy`, module `TipsComponent`: class `Tips` holds `tipsIndex` into the
  seven fixed tips. `Tick` is the interval callback. The lemmas prove that
  `k` ticks rotate the index by `k` modulo the number of tips, that the index
  comes back to its start after exactly seven ticks, and that every tip is
  shown exactly once per cycle (`EveryTipShown` and `AtMostOncePerCycle`).

The geodesy library's great-circle distance and bearing are parameters of
type `(Point, Point) -> real`. The model assumes nothing about them. Class
`Map` receives them in its constructor. JavaScript numbers are modelled as
`real`.

Points of the code that the model keeps as they are:

- The distance-and-angle effect runs again only when `viewport` or `loaded`
  changes (`src/components/map/Map.tsx:246`). Clicking a marker does not
  re-aim the compass, although a found marker changes which marker is
  nearest. The compass moves only on the next viewport change. `ClickMarker`
  therefore leaves `angle` alone, and `UpdateAngle` is a separate method. It
  is what runs after `HandleViewportChange`, `HandleMinimapViewportChange`
  and `OnLoad`.
- Markers have no identity field. A marker is known by its position in the
  list.
- The source field `real` of a marker is named `isReal`, because `real` is a
  Dafny keyword.

## Model

| member | source | states |
|---|---|---|
| `Markers.MarkFound` | src/components/map/Map.tsx:203-205 | the clicked list has the same length; entry `i` is found and keeps its latitude, longitude, `real` flag and text; every other entry is unchanged; no found flag is cleared; clicking an already-found marker gives back the same list |
| `Markers.UnfoundAfterClick` | src/components/map/Map.tsx:203-233 | clicking an unfound marker removes exactly one marker from the unfound list; clicking a found one removes none |
| `Markers.Unfound` | src/components/map/Map.tsx:233 | the filtered list is no longer than the original and holds no found marker |
| `Markers.UnfoundPositionsMatch` | src/components/map/Map.tsx:233 | entry `k` of the filtered list is the marker at a valid position of the original list |
| `Markers.UnfoundPositionsIncrease` | src/components/map/Map.tsx:233 | the filter keeps list order: the source positions of the filtered entries increase |
| `Markers.UnfoundPositionsComplete` | src/components/map/Map.tsx:233 | the filter drops no unfound marker |
| `Markers.Distances` | src/components/map/Map.tsx:234-236 | one distance per unfound marker, in order, each measured from the viewer to that marker |
| `Markers.MathMin` | src/components/map/Map.tsx:237 | `Math.min` of no numbers is positive infinity; otherwise it is one of the numbers and no greater than any of them |
| `Markers.IndexOf` | src/components/map/Map.tsx:237 | `indexOf` returns the first position holding the value, or -1 exactly when no position holds it |
| `Markers.ClosestIndex` | src/components/map/Map.tsx:237 | the closest index is -1 exactly for an empty distance list; otherwise it is the first position of a least distance |
| `Markers.Target` | src/components/map/Map.tsx:233-242 | the chosen marker, when there is one, is not found |
| `Markers.FirstMinIsNearestUnfound` | src/components/map/Map.tsx:233-241 | the first least distance of the filtered list belongs to the nearest unfound marker of the whole list, and to the first such marker in list order |
| `Markers.TargetIsNearestUnfound` | src/components/map/Map.tsx:233-242 | no marker is chosen exactly when every marker is found; otherwise the chosen marker is the nearest unfound one, first in list order among equal distances, even when a found marker is closer |
| `Markers.NearestUnfoundIsUnique` | src/components/map/Map.tsx:234-237 | the first-occurrence tie-break makes the nearest unfound marker unique |
| `Markers.NextTargetAfterClick` | src/components/map/Map.tsx:203-237 | after the chosen marker is clicked, the next choice is a different marker and is no nearer |
| `Markers.Aim` | src/components/map/Map.tsx:231-246 | the angle after the distance-and-angle effect has run: the old angle when the map has not loaded or every marker is found; `AimSpec` proves that otherwise it is the bearing to the nearest unfound marker |
| `Markers.AimSpec` | src/components/map/Map.tsx:231-246 | the angle is unchanged before the map has loaded and when every marker is found; otherwise it is the bearing from the viewport centre to the nearest unfound marker |
| `MapComponent.CenteredOn` | src/components/map/Map.tsx:92-96 | spreading a viewport and overriding its latitude and longitude moves the centre and keeps every other setting |
| `MapComponent.InitialMarkersHaveOneTarget` | src/components/map/Map.tsx:133-190 | the game starts with seven markers, none found, and only the first (Sendai) is the real one |
| `MapComponent.Map.constructor` | src/components/map/Map.tsx:56-190 | the initial state: not loaded, minimap inactive, angle 0, both viewports centred on the base location with their zoom and size settings, the seven initial markers |
| `MapComponent.Map.OnLoad` | src/components/map/Map.tsx:260-262 | loading the map sets `loaded` |
| `MapComponent.Map.SetMinimapActive` | src/components/map/Map.tsx:278-283 | entering or leaving the minimap sets or clears `isMinimapActive` |
| `MapComponent.Map.HandleViewportChange` | src/components/map/Map.tsx:89-98 | the main viewport is always replaced; the minimap takes its centre and keeps its other settings when it is inactive, and is untouched when it is active |
| `MapComponent.Map.HandleMinimapViewportChange` | src/components/map/Map.tsx:121-130 | the main viewport always takes the minimap's new centre and keeps its other settings; the minimap viewport is replaced only while it is active |
| `MapComponent.Map.ClickMarker` | src/components/map/Map.tsx:202-206 | the marker list becomes the clicked list, and the unfound count drops by one for a marker not found before |
| `MapComponent.Map.UpdateAngle` | src/components/map/Map.tsx:231-246 | once loaded, the angle becomes the bearing to the nearest unfound marker as seen from the main viewport's centre; before loading or with no unfound marker, it is unchanged |
| `TipsComponent.NextTip` | src/components/tips/Tips.tsx:49-55 | a tick moves the index one place round the circle of tips: up by one below the last tip, back to 0 from the last, always in range |
| `TipsComponent.AfterTicks` | src/components/tips/Tips.tsx:49-55 | after any number of ticks the index is still a valid tip index |
| `TipsComponent.AfterTicksIsRotation` | src/components/tips/Tips.tsx:49-55 | `k` ticks from index `i` lead to `(i + k) mod n` |
| `TipsComponent.FullCycle` | src/components/tips/Tips.tsx:49-55 | after as many ticks as there are tips, the index is back at its start, and not before |
| `TipsComponent.EveryTipShown` | src/components/tips/Tips.tsx:38-55 | every tip is reached within one cycle from any starting tip |
| `TipsComponent.AtMostOncePerCycle` | src/components/tips/Tips.tsx:49-55 | the indices reached in the `n` ticks after any starting tip are pairwise different, so no tip repeats within a cycle |
| `TipsComponent.Tips.constructor` | src/components/tips/Tips.tsx:47 | the index starts at 0 |
| `TipsComponent.Tips.Tick` | src/components/tips/Tips.tsx:49-55 | the interval callback advances the index by `NextTip` and keeps it in `[0, 7)` |
| `TipsComponent.Tips.Shown` | src/components/tips/Tips.tsx:57-60 | `tips[tipsIndex]` is always defined and is one of the tips |

## Left out

- The numeric values of the geodesy library's distance and bearing (haversine and forward azimuth in floating point) are left out. So are the library's bearing range, NaN in `Math.min` and `indexOf`, and the argument limit of the spread in `Math.min(...)`. Distance and bearing are parameters about which nothing is assumed.
- Floating-point rounding of coordinates is left out: numbers are `real`.
- The resize effect that copies the container's width and height into the main viewport (src/components/map/Map.tsx:81-87) is left out. It is layout plumbing driven by the browser.
- Map rendering, the map's own event dispatch, `console.log`, the compass's CSS rotation and the presentation components (Helper, Popin, CustomMarker, PositionMarker, HomePage, App) are left out. They hold no logic beyond rendering.
- React's asynchronous, batched state updates and render cycle are left out. Each handler is one atomic step on the state as it stands when the handler runs. The effect is a separate method (`UpdateAngle`) that the caller runs after a change to `viewport` or `loaded`.
- `useInterval`'s timer scheduling (src/components/tips/Tips.tsx:16-35) and its 10-second delay are left out. Only the tick transition is modelled.
- Viewport settings other than the centre, zoom range, pitch range, size and `dragRotate` are left out. Both handlers copy or keep those fields along with the ones modelled.
