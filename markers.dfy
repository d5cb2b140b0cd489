/**
 The marker game of the map screen: the list of markers, the click that marks
 one of them as found, and the choice of the nearest unfound marker that the
 compass points to.

 Great-circle distance and initial bearing are computed by a geodesy library
 in floating point; here they are parameters `dist` and `bearing` of type
 `(Point, Point) -> real`, about which nothing is assumed.
 */
module Markers {

  datatype Option<T> = None | Some(value: T)

  /** A position, in degrees. */
  datatype Point = Point(latitude: real, longitude: real)

  /** One marker of the game; `isReal` tells the hidden target from a decoy. */
  datatype Marker = Marker(latitude: real, longitude: real, isReal: bool, found: bool, text: string)

  function PositionOf(m: Marker): Point {
    Point(m.latitude, m.longitude)
  }

  // ---------------------------------------------------------------------------
  // Clicking a marker

  /** The list after marker `i` was clicked: a copy of the list whose entry `i`
      is a copy of the old entry with `found` set. */
  function MarkFound(ms: seq<Marker>, i: nat): (r: seq<Marker>)
    requires i < |ms|
    ensures |r| == |ms|
    ensures r[i].found
    ensures PositionOf(r[i]) == PositionOf(ms[i]) && r[i].isReal == ms[i].isReal && r[i].text == ms[i].text
    ensures forall j | 0 <= j < |ms| && j != i :: r[j] == ms[j]
    ensures forall j | 0 <= j < |ms| :: ms[j].found ==> r[j].found
    ensures ms[i].found ==> r == ms
  {
    ms[i := ms[i].(found := true)]
  }

  // ---------------------------------------------------------------------------
  // Filtering the found markers out

  /** The markers that are not found yet, in list order. */
  function Unfound(ms: seq<Marker>): (r: seq<Marker>)
    ensures |r| <= |ms|
    ensures forall k | 0 <= k < |r| :: !r[k].found
  {
    if ms == [] then []
    else if ms[0].found then Unfound(ms[1..])
    else [ms[0]] + Unfound(ms[1..])
  }

  /** Every position in `ps` moved one place to the right. */
  function Shifted(ps: seq<nat>): (r: seq<nat>)
    ensures |r| == |ps|
    ensures forall k | 0 <= k < |ps| :: r[k] == ps[k] + 1
  {
    seq(|ps|, k requires 0 <= k < |ps| => ps[k] + 1)
  }

  /** The positions of the unfound markers, in increasing order. */
  function UnfoundPositions(ms: seq<Marker>): (ps: seq<nat>)
    ensures |ps| == |Unfound(ms)|
  {
    if ms == [] then []
    else if ms[0].found then Shifted(UnfoundPositions(ms[1..]))
    else [0] + Shifted(UnfoundPositions(ms[1..]))
  }

  /** Where, in `ms`, each entry of `Unfound(ms)` comes from. */
  lemma {:induction false} UnfoundPositionsMatch(ms: seq<Marker>)
    ensures forall k | 0 <= k < |UnfoundPositions(ms)| ::
      UnfoundPositions(ms)[k] < |ms| && ms[UnfoundPositions(ms)[k]] == Unfound(ms)[k]
  {
    if ms != [] {
      var tail := UnfoundPositions(ms[1..]);
      UnfoundPositionsMatch(ms[1..]);
      forall k | 0 <= k < |tail| ensures tail[k] + 1 < |ms| && ms[tail[k] + 1] == Unfound(ms[1..])[k] {
        assert ms[1..][tail[k]] == ms[tail[k] + 1];
      }
    }
  }

  /** The positions of the unfound markers increase. */
  lemma {:induction false} UnfoundPositionsIncrease(ms: seq<Marker>)
    ensures forall k1, k2 | 0 <= k1 < k2 < |UnfoundPositions(ms)| ::
      UnfoundPositions(ms)[k1] < UnfoundPositions(ms)[k2]
  {
    if ms != [] {
      UnfoundPositionsIncrease(ms[1..]);
    }
  }

  /** Every unfound marker has its position listed. */
  lemma {:induction false} UnfoundPositionsComplete(ms: seq<Marker>)
    ensures forall j | 0 <= j < |ms| && !ms[j].found :: j in UnfoundPositions(ms)
  {
    if ms != [] {
      var tail := UnfoundPositions(ms[1..]);
      var rest := Shifted(tail);
      UnfoundPositionsComplete(ms[1..]);
      forall j | 1 <= j < |ms| && !ms[j].found ensures j in rest {
        assert ms[1..][j - 1] == ms[j];
        var k :| 0 <= k < |tail| && tail[k] == j - 1;
        assert rest[k] == j;
      }
    }
  }

  /** Removing the found markers, then counting, after a click: the click took
      away exactly one marker when the clicked one was not yet found. */
  lemma {:induction false} UnfoundAfterClick(ms: seq<Marker>, i: nat)
    requires i < |ms|
    ensures |Unfound(MarkFound(ms, i))| == |Unfound(ms)| - (if ms[i].found then 0 else 1)
  {
    if i == 0 {
      assert MarkFound(ms, i)[1..] == ms[1..];
    } else {
      assert MarkFound(ms, i)[1..] == MarkFound(ms[1..], i - 1);
      UnfoundAfterClick(ms[1..], i - 1);
    }
  }

  // ---------------------------------------------------------------------------
  // Distances, Math.min and indexOf

  /** The distance from `viewer` to each marker, in list order. */
  function Distances(ms: seq<Marker>, viewer: Point, dist: (Point, Point) -> real): (ds: seq<real>)
    ensures |ds| == |ms|
    ensures forall k | 0 <= k < |ms| :: ds[k] == dist(viewer, PositionOf(ms[k]))
  {
    seq(|ms|, k requires 0 <= k < |ms| => dist(viewer, PositionOf(ms[k])))
  }

  /** A number or positive infinity: what the minimum of no numbers is. */
  datatype Extended = Finite(value: real) | PosInfinity

  function Smaller(a: Extended, b: Extended): Extended {
    match (a, b)
    case (PosInfinity, _) => b
    case (_, PosInfinity) => a
    case (Finite(x), Finite(y)) => if y < x then b else a
  }

  /** The minimum of the numbers, or positive infinity when there are none. */
  function MathMin(ds: seq<real>): (r: Extended)
    ensures r == PosInfinity <==> ds == []
    ensures r.Finite? ==> r.value in ds && forall d | d in ds :: r.value <= d
  {
    if ds == [] then PosInfinity
    else
      var rest := MathMin(ds[1..]);
      assert forall d | d in ds :: d == ds[0] || d in ds[1..];
      Smaller(Finite(ds[0]), rest)
  }

  /** The first position holding `v`, or -1 when no position does. */
  function IndexOf(ds: seq<real>, v: Extended): (r: int)
    ensures -1 <= r < |ds|
    ensures r == -1 <==> forall k | 0 <= k < |ds| :: Finite(ds[k]) != v
    ensures r != -1 ==> Finite(ds[r]) == v && forall k | 0 <= k < r :: Finite(ds[k]) != v
  {
    if ds == [] then -1
    else if Finite(ds[0]) == v then 0
    else
      var k := IndexOf(ds[1..], v);
      assert forall j | 1 <= j < |ds| :: ds[1..][j - 1] == ds[j];
      if k == -1 then -1 else k + 1
  }

  /** `k` is the first position holding the least of the numbers. */
  ghost predicate IsFirstMin(ds: seq<real>, k: int) {
    && 0 <= k < |ds|
    && (forall j | 0 <= j < |ds| :: ds[k] <= ds[j])
    && (forall j | 0 <= j < k :: ds[j] > ds[k])
  }

  /** `indexOf(Math.min(...ds))`: -1 exactly for no numbers, otherwise the
      first position of a least one. */
  function ClosestIndex(ds: seq<real>): (k: int)
    ensures k == -1 <==> ds == []
    ensures k != -1 ==> IsFirstMin(ds, k)
  {
    var least := MathMin(ds);
    var k := IndexOf(ds, least);
    assert k != -1 ==> IsFirstMin(ds, k) by {
      if k != -1 {
        assert ds[k] == least.value && ds[k] in ds;
        assert forall j | 0 <= j < |ds| :: ds[j] in ds;
      }
    }
    assert ds != [] ==> k != -1 by {
      if ds != [] {
        var j :| 0 <= j < |ds| && ds[j] == least.value;
        assert Finite(ds[j]) == least;
      }
    }
    k
  }

  // ---------------------------------------------------------------------------
  // The nearest unfound marker

  /** Marker `j` is unfound, no unfound marker is nearer to `viewer`, and every
      unfound marker before it in the list is strictly farther. */
  ghost predicate IsNearestUnfound(ms: seq<Marker>, viewer: Point, dist: (Point, Point) -> real, j: int) {
    && 0 <= j < |ms|
    && !ms[j].found
    && (forall i | 0 <= i < |ms| && !ms[i].found ::
          dist(viewer, PositionOf(ms[j])) <= dist(viewer, PositionOf(ms[i])))
    && (forall i | 0 <= i < j && !ms[i].found ::
          dist(viewer, PositionOf(ms[i])) > dist(viewer, PositionOf(ms[j])))
  }

  /** The marker the compass is aimed at: drop the found markers, take the
      distance of each remaining one, and pick the one at
      `indexOf(Math.min(...))`, if that index is not -1. */
  function Target(ms: seq<Marker>, viewer: Point, dist: (Point, Point) -> real): (r: Option<Marker>)
    ensures r.Some? ==> !r.value.found
  {
    var filtered := Unfound(ms);
    var k := ClosestIndex(Distances(filtered, viewer, dist));
    if k == -1 then None else Some(filtered[k])
  }

  /** The target is absent exactly when every marker is found, and otherwise it
      is the nearest unfound marker, the first one among equally near ones. */
  lemma TargetIsNearestUnfound(ms: seq<Marker>, viewer: Point, dist: (Point, Point) -> real)
    ensures Target(ms, viewer, dist).None? <==> forall j | 0 <= j < |ms| :: ms[j].found
    ensures Target(ms, viewer, dist).Some? ==>
      exists j :: IsNearestUnfound(ms, viewer, dist, j) && ms[j] == Target(ms, viewer, dist).value
  {
    var ds := Distances(Unfound(ms), viewer, dist);
    var k := ClosestIndex(ds);
    UnfoundPositionsMatch(ms);
    if k != -1 {
      FirstMinIsNearestUnfound(ms, viewer, dist, k);
      assert ms[UnfoundPositions(ms)[k]] == Target(ms, viewer, dist).value;
    } else {
      UnfoundPositionsComplete(ms);
    }
  }

  /** The first least distance among the unfound markers belongs to the
      nearest unfound marker of the whole list. */
  lemma FirstMinIsNearestUnfound(ms: seq<Marker>, viewer: Point, dist: (Point, Point) -> real, k: int)
    requires IsFirstMin(Distances(Unfound(ms), viewer, dist), k)
    ensures k < |UnfoundPositions(ms)| && IsNearestUnfound(ms, viewer, dist, UnfoundPositions(ms)[k])
  {
    var filtered := Unfound(ms);
    var ds := Distances(filtered, viewer, dist);
    var ps := UnfoundPositions(ms);
    UnfoundPositionsMatch(ms);
    UnfoundPositionsIncrease(ms);
    UnfoundPositionsComplete(ms);
    var j := ps[k];
    assert ms[j] == filtered[k];
    assert dist(viewer, PositionOf(ms[j])) == ds[k];
    forall i | 0 <= i < |ms| && !ms[i].found
      ensures ds[k] <= dist(viewer, PositionOf(ms[i]))
      ensures i < j ==> dist(viewer, PositionOf(ms[i])) > ds[k]
    {
      var k' :| 0 <= k' < |ps| && ps[k'] == i;
      assert ms[i] == filtered[k'];
      assert ds[k'] == dist(viewer, PositionOf(ms[i]));
      if i < j {
        assert k' < k;
      }
    }
  }

  /** At most one marker is the nearest unfound one. */
  lemma NearestUnfoundIsUnique(ms: seq<Marker>, viewer: Point, dist: (Point, Point) -> real, j1: int, j2: int)
    requires IsNearestUnfound(ms, viewer, dist, j1) && IsNearestUnfound(ms, viewer, dist, j2)
    ensures j1 == j2
  {
  }

  /** After the nearest unfound marker is clicked, the nearest unfound marker is
      a different one, and no nearer than the clicked one. */
  lemma NextTargetAfterClick(ms: seq<Marker>, viewer: Point, dist: (Point, Point) -> real, j: nat, j': int)
    requires IsNearestUnfound(ms, viewer, dist, j)
    requires IsNearestUnfound(MarkFound(ms, j), viewer, dist, j')
    ensures j' != j
    ensures dist(viewer, PositionOf(ms[j])) <= dist(viewer, PositionOf(ms[j']))
  {
  }

  // ---------------------------------------------------------------------------
  // The compass angle

  /** The compass angle after the distance and angle effect has run: unchanged
      before the map has loaded or when no marker is left, otherwise the
      bearing from `viewer` to the target. */
  function Aim(loaded: bool, ms: seq<Marker>, viewer: Point, dist: (Point, Point) -> real,
               bearing: (Point, Point) -> real, angle: real): (r: real)
    ensures !loaded || (forall j | 0 <= j < |ms| :: ms[j].found) ==> r == angle
  {
    TargetIsNearestUnfound(ms, viewer, dist);
    if !loaded then angle
    else match Target(ms, viewer, dist)
      case None => angle
      case Some(m) => bearing(viewer, PositionOf(m))
  }

  /** What the compass angle becomes: it moves only once the map has loaded and
      while an unfound marker remains, and then it is the bearing to the
      nearest unfound marker. */
  lemma AimSpec(loaded: bool, ms: seq<Marker>, viewer: Point, dist: (Point, Point) -> real,
                bearing: (Point, Point) -> real, angle: real)
    ensures !loaded ==> Aim(loaded, ms, viewer, dist, bearing, angle) == angle
    ensures (forall j | 0 <= j < |ms| :: ms[j].found) ==> Aim(loaded, ms, viewer, dist, bearing, angle) == angle
    ensures loaded && (exists j | 0 <= j < |ms| :: !ms[j].found) ==>
      exists j :: IsNearestUnfound(ms, viewer, dist, j) &&
        Aim(loaded, ms, viewer, dist, bearing, angle) == bearing(viewer, PositionOf(ms[j]))
  {
    TargetIsNearestUnfound(ms, viewer, dist);
  }
}
