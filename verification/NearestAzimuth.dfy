/**
 _nearest_azimuth_indices of src/processors/radar_processor.py: the nearest ray by
 binary search in the sorted azimuths, against the nearest ray on the circle.
 Angles are reals, in degrees.
 */
module NearestAzimuth {

  const TURN := 360.0

  function Abs(x: real): real {
    if x < 0.0 then -x else x
  }

  /** The distance the code computes: the gap, or the rest of the turn if that is less. */
  function Gap(azimuth: real, theta: real): real {
    var d := Abs(azimuth - theta);
    if TURN - d < d then TURN - d else d
  }

  predicate OnDial(x: real) {
    0.0 <= x <= TURN
  }

  /** What an argsort returns: an arrangement of all indices that sorts the rays. */
  ghost predicate Sorts(order: seq<nat>, azimuths: seq<real>) {
    && |order| == |azimuths|
    && (forall i :: 0 <= i < |order| ==> order[i] < |azimuths|)
    && (forall k: nat :: k < |azimuths| ==> k in order)
    && (forall i, j :: 0 <= i <= j < |order| ==> azimuths[order[i]] <= azimuths[order[j]])
  }

  /** The insertion point of `theta`: how many leading entries are below it. */
  function SearchSorted(sorted: seq<real>, theta: real): (pos: nat)
    ensures pos <= |sorted|
    ensures forall i :: 0 <= i < pos ==> sorted[i] < theta
    ensures pos < |sorted| ==> theta <= sorted[pos]
  {
    if sorted == [] || theta <= sorted[0] then 0 else 1 + SearchSorted(sorted[1..], theta)
  }

  function Arranged(azimuths: seq<real>, order: seq<nat>): (sorted: seq<real>)
    requires |order| == |azimuths| && forall i :: 0 <= i < |order| ==> order[i] < |azimuths|
    ensures |sorted| == |order| && forall i :: 0 <= i < |order| ==> sorted[i] == azimuths[order[i]]
  {
    seq(|order|, i requires 0 <= i < |order| => azimuths[order[i]])
  }

  /** The predecessor or the successor of `theta` in sorted order, wrapping, whichever is closer. */
  function Nearest(azimuths: seq<real>, order: seq<nat>, theta: real): (best: nat)
    requires azimuths != [] && Sorts(order, azimuths)
    ensures best < |azimuths|
  {
    var sorted := Arranged(azimuths, order);
    var n := |azimuths|;
    var pos := SearchSorted(sorted, theta);
    var left := if pos == 0 then n - 1 else pos - 1;
    var right := if pos == n then 0 else pos;
    order[if Gap(sorted[right], theta) < Gap(sorted[left], theta) then right else left]
  }

  function NearestIndices(azimuths: seq<real>, order: seq<nat>, thetas: seq<real>): seq<nat>
    requires azimuths != [] && Sorts(order, azimuths)
  {
    seq(|thetas|, i requires 0 <= i < |thetas| => Nearest(azimuths, order, thetas[i]))
  }

  // ------------------------------------------------------------ the simple form

  /** Per-angle argmin over all rays: the first ray of least distance. */
  function ArgMin(azimuths: seq<real>, theta: real): (best: nat)
    requires azimuths != []
    ensures best < |azimuths|
    ensures forall k :: 0 <= k < |azimuths| ==> Gap(azimuths[best], theta) <= Gap(azimuths[k], theta)
  {
    if |azimuths| == 1 then
      0
    else
      var later := ArgMin(azimuths[1..], theta);
      if Gap(azimuths[0], theta) <= Gap(azimuths[later + 1], theta) then
        0
      else
        assert forall k :: 1 <= k < |azimuths| ==> azimuths[k] == azimuths[1..][k - 1];
        later + 1
  }

  /** Of several rays at the least distance the argmin is the first. */
  lemma {:induction false} ArgMinIsFirst(azimuths: seq<real>, theta: real, k: nat)
    requires azimuths != [] && k < ArgMin(azimuths, theta)
    ensures Gap(azimuths[k], theta) > Gap(azimuths[ArgMin(azimuths, theta)], theta)
  {
    if k > 0 {
      ArgMinIsFirst(azimuths[1..], theta, k - 1);
    }
  }

  /** In sorted order, one of the two brackets is at least as close as any other ray. */
  lemma BracketsSuffice(sorted: seq<real>, theta: real, k: nat)
    requires k < |sorted| && OnDial(theta)
    requires forall i :: 0 <= i < |sorted| ==> OnDial(sorted[i])
    requires forall i, j :: 0 <= i <= j < |sorted| ==> sorted[i] <= sorted[j]
    ensures
      var pos := SearchSorted(sorted, theta);
      var left := if pos == 0 then |sorted| - 1 else pos - 1;
      var right := if pos == |sorted| then 0 else pos;
      Gap(sorted[left], theta) <= Gap(sorted[k], theta) || Gap(sorted[right], theta) <= Gap(sorted[k], theta)
  {
    var n := |sorted|;
    var pos := SearchSorted(sorted, theta);
    var left := if pos == 0 then n - 1 else pos - 1;
    var right := if pos == n then 0 else pos;
    if k < pos {
      assert sorted[k] <= sorted[left] < theta;
      assert sorted[0] <= sorted[k];
    } else {
      assert theta <= sorted[right] <= sorted[k] || pos == n;
      assert sorted[k] <= sorted[n - 1];
    }
  }

  /** The chosen ray is at least as close as every ray, in the original order. */
  lemma NearestIsClosest(azimuths: seq<real>, order: seq<nat>, theta: real)
    requires azimuths != [] && Sorts(order, azimuths) && OnDial(theta)
    requires forall i :: 0 <= i < |azimuths| ==> OnDial(azimuths[i])
    ensures forall k :: 0 <= k < |azimuths| ==>
              Gap(azimuths[Nearest(azimuths, order, theta)], theta) <= Gap(azimuths[k], theta)
  {
    var sorted := Arranged(azimuths, order);
    forall k | 0 <= k < |azimuths|
      ensures Gap(azimuths[Nearest(azimuths, order, theta)], theta) <= Gap(azimuths[k], theta)
    {
      var ray: nat := k;
      assert ray in order;
      var i :| 0 <= i < |order| && order[i] == ray;
      BracketsSuffice(sorted, theta, i);
    }
  }

  /**
   The binary search attains the distance of the per-angle argmin for every angle, and
   returns the argmin's own index whenever only one ray is that close.
   */
  lemma NearestRefinesArgMin(azimuths: seq<real>, order: seq<nat>, thetas: seq<real>, m: nat)
    requires azimuths != [] && Sorts(order, azimuths) && m < |thetas| && OnDial(thetas[m])
    requires forall i :: 0 <= i < |azimuths| ==> OnDial(azimuths[i])
    ensures
      var best := ArgMin(azimuths, thetas[m]);
      var fast := NearestIndices(azimuths, order, thetas)[m];
      && Gap(azimuths[fast], thetas[m]) == Gap(azimuths[best], thetas[m])
      && ((forall k :: 0 <= k < |azimuths| && k != best ==>
             Gap(azimuths[k], thetas[m]) != Gap(azimuths[best], thetas[m])) ==> fast == best)
  {
    NearestIsClosest(azimuths, order, thetas[m]);
  }

  /** Between two rays the earlier one is kept unless the later one is strictly closer. */
  lemma TieGoesToPredecessor(azimuths: seq<real>, order: seq<nat>, theta: real, pos: nat)
    requires azimuths != [] && Sorts(order, azimuths) && 0 < pos <= |azimuths|
    requires azimuths[order[pos - 1]] < theta && (pos < |azimuths| ==> theta <= azimuths[order[pos]])
    ensures
      var later := if pos == |azimuths| then order[0] else order[pos];
      Nearest(azimuths, order, theta)
      == if Gap(azimuths[later], theta) < Gap(azimuths[order[pos - 1]], theta) then later else order[pos - 1]
  {
    var sorted := Arranged(azimuths, order);
    var found := SearchSorted(sorted, theta);
    assert found == pos;
  }

  // ----------------------------------------------------------------- the circle

  /** Distance between two angles when `turns` full turns are added to their difference. */
  function Apart(azimuth: real, angle: real, turns: int): real {
    Abs(azimuth - angle + 360.0 * turns as real)
  }

  /** For angles on the dial the code's distance is the least over all numbers of turns. */
  lemma GapIsCircular(azimuth: real, theta: real, turns: int)
    requires OnDial(azimuth) && OnDial(theta)
    ensures Gap(azimuth, theta) <= Apart(azimuth, theta, turns)
    ensures exists t :: Gap(azimuth, theta) == Apart(azimuth, theta, t)
  {
    var d := azimuth - theta;
    if turns >= 1 {
      assert TURN * turns as real >= TURN;
    } else if turns <= -1 {
      assert TURN * turns as real <= -TURN;
    }
    if Gap(azimuth, theta) == Abs(d) {
      assert Apart(azimuth, theta, 0) == Abs(d);
    } else if d >= 0.0 {
      assert Apart(azimuth, theta, -1) == TURN - d;
    } else {
      assert Apart(azimuth, theta, 1) == TURN + d;
    }
  }

  /** np.mod(angle, 360). */
  function Normalised(angle: real): (theta: real)
    ensures 0.0 <= theta < TURN
    ensures theta == angle - TURN * (angle / TURN).Floor as real
  {
    var turns := (angle / TURN).Floor;
    assert turns as real <= angle / TURN < turns as real + 1.0;
    angle - TURN * turns as real
  }

  /**
   End to end, for a pixel at any real bearing: the ray picked for the normalised
   bearing is as close on the circle as any ray can be made by adding whole turns.
   */
  lemma PickedRayIsClosestOnCircle(azimuths: seq<real>, order: seq<nat>, bearing: real, k: nat, turns: int)
    returns (own: int)
    requires azimuths != [] && Sorts(order, azimuths) && k < |azimuths|
    requires forall i :: 0 <= i < |azimuths| ==> OnDial(azimuths[i])
    ensures Apart(azimuths[Nearest(azimuths, order, Normalised(bearing))], bearing, own)
         <= Apart(azimuths[k], bearing, turns)
  {
    var theta := Normalised(bearing);
    var floor := (bearing / TURN).Floor;
    var best := azimuths[Nearest(azimuths, order, theta)];
    NearestIsClosest(azimuths, order, theta);
    GapIsCircular(best, theta, 0);
    var t :| Gap(best, theta) == Apart(best, theta, t);
    own := t + floor;
    assert own as real == t as real + floor as real;
    assert best - theta + TURN * t as real == best - bearing + TURN * own as real;
    GapIsCircular(azimuths[k], theta, turns - floor);
    assert (turns - floor) as real == turns as real - floor as real;
    assert azimuths[k] - theta + TURN * (turns - floor) as real == azimuths[k] - bearing + TURN * turns as real;
  }
}
