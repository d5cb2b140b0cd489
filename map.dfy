/**
 The state of the map screen and the handlers that change it: the main map's
 viewport, the minimap's viewport kept in step with it, the list of markers
 and the compass angle.
 */
module MapComponent {
  import opened Markers

  /** The camera and size settings of one map. */
  datatype Viewport = Viewport(
    latitude: real, longitude: real, zoom: real,
    minZoom: real, maxZoom: real, minPitch: real, maxPitch: real,
    width: real, height: real, dragRotate: Option<bool>)

  function Center(v: Viewport): Point {
    Point(v.latitude, v.longitude)
  }

  /** `v` and `w` agree on everything but the centre. */
  predicate SameSettings(v: Viewport, w: Viewport) {
    && v.zoom == w.zoom && v.minZoom == w.minZoom && v.maxZoom == w.maxZoom
    && v.minPitch == w.minPitch && v.maxPitch == w.maxPitch
    && v.width == w.width && v.height == w.height && v.dragRotate == w.dragRotate
  }

  /** `v` moved to the centre of `next`, every other setting of `v` kept. */
  function CenteredOn(v: Viewport, next: Viewport): (r: Viewport)
    ensures Center(r) == Center(next)
    ensures SameSettings(r, v)
    ensures Center(v) == Center(next) ==> r == v
  {
    v.(latitude := next.latitude, longitude := next.longitude)
  }

  const BaseLocation := Point(49.71821126434087, -1.9432687434509714)

  const InitialMarkers: seq<Marker> := [
    Marker(38.25342725471286, 140.85597056161862, true, false, "Sosh"),
    Marker(49.69235041316825, -1.9502169526726458, false, false, "plouf"),
    Marker(60.28381951220709, -43.384842033735914, false, false, "brr"),
    Marker(38.88507680175829, -77.04479534149999, false, false, "raté"),
    Marker(-33.204878912888724, -70.81293887483662, false, false, "non plus !"),
    Marker(12.556359886322362, 54.029780730929524, false, false, "Dommage !"),
    Marker(62.03715989584269, 129.74276950415128, false, false, "Loupé !")
  ]

  /** Exactly one of the initial markers is the real one, and none is found. */
  lemma InitialMarkersHaveOneTarget()
    ensures |InitialMarkers| == 7
    ensures forall j | 0 <= j < |InitialMarkers| :: !InitialMarkers[j].found
    ensures forall j | 0 <= j < |InitialMarkers| :: InitialMarkers[j].isReal <==> j == 0
  {
  }

  /** The map screen. `distance` and `bearing` are the geodesy library's
      great-circle distance (in kilometres) and initial bearing (in degrees). */
  class Map {
    const distance: (Point, Point) -> real
    const bearing: (Point, Point) -> real
    var loaded: bool
    var viewport: Viewport
    var isMinimapActive: bool
    var minimapViewport: Viewport
    var markers: seq<Marker>
    var angle: real

    constructor (distance: (Point, Point) -> real, bearing: (Point, Point) -> real)
      ensures this.distance == distance && this.bearing == bearing
      ensures !loaded && !isMinimapActive && angle == 0.0
      ensures viewport == Viewport(BaseLocation.latitude, BaseLocation.longitude, 15.0,
                                   15.0, 15.0, 0.0, 0.0, 0.0, 0.0, Some(false))
      ensures minimapViewport == Viewport(BaseLocation.latitude, BaseLocation.longitude, 1.0,
                                          1.0, 1.0, 0.0, 0.0, 400.0, 200.0, None)
      ensures markers == InitialMarkers
    {
      this.distance := distance;
      this.bearing := bearing;
      loaded := false;
      viewport := Viewport(BaseLocation.latitude, BaseLocation.longitude, 15.0,
                           15.0, 15.0, 0.0, 0.0, 0.0, 0.0, Some(false));
      isMinimapActive := false;
      minimapViewport := Viewport(BaseLocation.latitude, BaseLocation.longitude, 1.0,
                                  1.0, 1.0, 0.0, 0.0, 400.0, 200.0, None);
      markers := InitialMarkers;
      angle := 0.0;
    }

    /** The main map has finished loading. */
    method OnLoad()
      modifies this`loaded
      ensures loaded
    {
      loaded := true;
    }

    /** The pointer entered (`true`) or left (`false`) the minimap. */
    method SetMinimapActive(active: bool)
      modifies this`isMinimapActive
      ensures isMinimapActive == active
    {
      isMinimapActive := active;
    }

    /** The user moved the main map: it takes the new viewport, and the minimap
        follows its centre unless the pointer is on the minimap. */
    method HandleViewportChange(next: Viewport)
      modifies this`viewport, this`minimapViewport
      ensures viewport == next
      ensures !isMinimapActive ==> minimapViewport == CenteredOn(old(minimapViewport), next)
      ensures isMinimapActive ==> minimapViewport == old(minimapViewport)
      ensures !isMinimapActive ==> Center(minimapViewport) == Center(viewport)
    {
      viewport := next;
      if !isMinimapActive {
        minimapViewport := CenteredOn(minimapViewport, next);
      }
    }

    /** The user moved the minimap: the main map always follows its centre,
        and the minimap takes the new viewport only while the pointer is on it. */
    method HandleMinimapViewportChange(next: Viewport)
      modifies this`viewport, this`minimapViewport
      ensures isMinimapActive ==> minimapViewport == next
      ensures !isMinimapActive ==> minimapViewport == old(minimapViewport)
      ensures viewport == CenteredOn(old(viewport), next)
      ensures isMinimapActive ==> Center(minimapViewport) == Center(viewport)
    {
      if isMinimapActive {
        minimapViewport := next;
      }
      viewport := CenteredOn(viewport, next);
    }

    /** Marker `index` was clicked: it is now found, nothing else changes. */
    method ClickMarker(index: nat)
      requires index < |markers|
      modifies this`markers
      ensures markers == MarkFound(old(markers), index)
      ensures |Unfound(markers)| == |Unfound(old(markers))| - (if old(markers)[index].found then 0 else 1)
    {
      UnfoundAfterClick(markers, index);
      markers := MarkFound(markers, index);
    }

    /** The distance and angle effect: once the map is loaded, the compass is
        turned to the bearing of the nearest unfound marker seen from the
        centre of the main map, if there is one. */
    method UpdateAngle()
      modifies this`angle
      ensures angle == Aim(loaded, markers, Center(viewport), distance, bearing, old(angle))
      ensures !loaded || (forall j | 0 <= j < |markers| :: markers[j].found) ==> angle == old(angle)
      ensures loaded && (exists j | 0 <= j < |markers| :: !markers[j].found) ==>
        exists j :: IsNearestUnfound(markers, Center(viewport), distance, j) &&
          angle == bearing(Center(viewport), PositionOf(markers[j]))
    {
      AimSpec(loaded, markers, Center(viewport), distance, bearing, angle);
      if loaded {
        var filtered := Unfound(markers);
        var distances := Distances(filtered, Center(viewport), distance);
        var closestIndex := ClosestIndex(distances);
        if closestIndex != -1 {
          angle := bearing(Center(viewport), PositionOf(filtered[closestIndex]));
        }
      }
    }
  }
}
