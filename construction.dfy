/** Greedy construction of the first solution (`initial_solution`).
    The points are walked in the order given (the shuffle that produces this
    order is the caller's) and placed into trucks one after another, with a
    single "current truck" index that only moves forward. `Construct` is the
    value-level specification of the whole walk, one `Place` per point;
    `InitialSolution` is the in-place procedure over truck objects. */
module Construction {
  import opened Geometry
  import opened Fleet

  /** The state of the walk: every truck's route and capacity field, the
      current truck index, and whether the walk is still going. */
  datatype Build = Build(routes: seq<Route>, capacity: seq<int>, current: nat, ok: bool)

  /** A walk over `n` trucks: one route and one capacity per truck; while the
      walk goes on the current truck exists, and a failed walk has moved its
      index one past the last truck. */
  ghost predicate Consistent(b: Build, n: nat)
  {
    |b.routes| == n && |b.capacity| == n &&
    (b.ok && n > 0 ==> b.current < n) &&
    (!b.ok ==> b.current == n)
  }

  /** Every route emptied, capacity fields kept as they are, truck 0 current:
      a walk that has placed nothing, in which every capacity field is its
      starting capacity minus the (empty) demand of its route. */
  function Start(caps: seq<int>): (b: Build)
    ensures Consistent(b, |caps|) && b.ok && b.current == 0 && b.capacity == caps
    ensures forall j :: 0 <= j < |caps| ==> b.routes[j] == [] && b.capacity[j] == caps[j] - Demand(b.routes[j])
  {
    Build(seq(|caps|, _ => []), caps, 0, true)
  }

  /** Append `p` to truck `c` and deduct its demand from that truck's capacity
      field; nothing is checked. The capacity field plus the route's demand
      stays the same, and no other truck changes. */
  function Load(b: Build, c: nat, p: DeliveryPoint): (b': Build)
    requires c < |b.routes| && c < |b.capacity|
    ensures |b'.routes| == |b.routes| && |b'.capacity| == |b.capacity|
    ensures b'.current == b.current && b'.ok == b.ok
    ensures b'.routes == b.routes[c := b.routes[c] + [p]]
    ensures b'.capacity == b.capacity[c := b'.capacity[c]]
    ensures b'.capacity[c] + Demand(b'.routes[c]) == b.capacity[c] + Demand(b.routes[c])
  {
    assert (b.routes[c] + [p])[..|b.routes[c]|] == b.routes[c];
    b.(routes := b.routes[c := b.routes[c] + [p]],
       capacity := b.capacity[c := b.capacity[c] - p.demand])
  }

  /** One step of the walk. A point that fits the current truck goes there;
      otherwise the index advances and the point goes to the next truck
      without a capacity check, unless there is no next truck, which ends the
      walk in failure. A failed walk takes no more points, and every truck
      keeps its route and capacity field slot. */
  function Place(b: Build, p: DeliveryPoint): (b': Build)
    requires |b.routes| == |b.capacity|
    requires b.ok ==> b.current < |b.routes|
    ensures |b'.routes| == |b.routes| && |b'.capacity| == |b.capacity|
    ensures !b.ok ==> b' == b
  {
    if !b.ok then b
    else if b.capacity[b.current] >= p.demand then Load(b, b.current, p)
    else if b.current + 1 >= |b.routes| then b.(current := b.current + 1, ok := false)
    else Load(b.(current := b.current + 1), b.current + 1, p)
  }

  /** What one step does: the walk fails at this step exactly when the point
      finds the last truck full, and then nothing but the index changes;
      otherwise the point is appended to the current truck if it fits there
      and to the next one if not, and no other route or capacity field
      changes. */
  lemma PlaceStep(b: Build, p: DeliveryPoint)
    requires |b.routes| == |b.capacity|
    requires b.ok
    requires b.current < |b.routes|
    ensures var b' := Place(b, p);
      (!b'.ok <==> OutOfTrucks(b, p)) &&
      (!b'.ok ==> b'.routes == b.routes && b'.capacity == b.capacity && b'.current == |b.routes|) &&
      (b'.ok ==>
        b'.current < |b.routes| &&
        (b'.current == b.current <==> b.capacity[b.current] >= p.demand) &&
        (b'.current != b.current ==> b'.current == b.current + 1) &&
        b'.routes == b.routes[b'.current := b.routes[b'.current] + [p]] &&
        b'.capacity == b.capacity[b'.current := b'.capacity[b'.current]])
  {
  }

  /** The walk over `points`, starting from trucks whose capacity fields are
      `caps`. */
  function Construct(points: seq<DeliveryPoint>, caps: seq<int>): (b: Build)
    requires |points| > 0 ==> |caps| > 0
    ensures Consistent(b, |caps|)
    decreases |points|
  {
    if points == [] then Start(caps)
    else Place(Construct(points[..|points| - 1], caps), points[|points| - 1])
  }

  /** The point `p` does not fit the current truck, and that truck is the last. */
  ghost predicate OutOfTrucks(b: Build, p: DeliveryPoint)
  {
    b.ok && 0 < |b.routes| == |b.capacity| && b.current == |b.routes| - 1 &&
    b.capacity[b.current] < p.demand
  }

  /** Once the walk has failed, the remaining points change nothing. */
  lemma {:induction false} FailureIsFinal(points: seq<DeliveryPoint>, caps: seq<int>, k: nat)
    requires |points| > 0 ==> |caps| > 0
    requires k <= |points|
    requires !Construct(points[..k], caps).ok
    ensures Construct(points, caps) == Construct(points[..k], caps)
    decreases |points|
  {
    if k < |points| {
      var pre := points[..|points| - 1];
      assert pre[..k] == points[..k];
      FailureIsFinal(pre, caps, k);
    } else {
      assert points[..k] == points;
    }
  }

  /** Capacity fields track demand: on every step, whichever branch placed
      the points, a truck's capacity field is its starting capacity minus
      the demand of its route. */
  lemma {:induction false} ConstructTracksCapacity(points: seq<DeliveryPoint>, caps: seq<int>, i: nat)
    requires |points| > 0 ==> |caps| > 0
    requires i < |caps|
    ensures Construct(points, caps).capacity[i] == caps[i] - Demand(Construct(points, caps).routes[i])
    decreases |points|
  {
    if points != [] {
      var pre := points[..|points| - 1];
      var p := points[|points| - 1];
      ConstructTracksCapacity(pre, caps, i);
      var b0, b := Construct(pre, caps), Construct(points, caps);
      assert b == Place(b0, p);
      if b0.ok && b.ok {
        assert b == Load(b0.(current := b.current), b.current, p);
      }
    }
  }


  /** Construction partitions its input. A successful walk leaves the routes,
      laid end to end in truck order, equal to the point sequence: each point
      placed once, in order, each truck holding one contiguous segment. A
      failed walk has placed a proper prefix of it. No truck after the
      current one has been used. */
  lemma {:induction false} ConstructPartitions(points: seq<DeliveryPoint>, caps: seq<int>)
    requires |points| > 0 ==> |caps| > 0
    ensures var b := Construct(points, caps);
      (b.ok ==> Concat(b.routes) == points) &&
      (!b.ok ==> |Concat(b.routes)| < |points| && Concat(b.routes) == points[..|Concat(b.routes)|]) &&
      (forall j :: b.current < j < |caps| ==> b.routes[j] == [])
    decreases |points|
  {
    var b := Construct(points, caps);
    if points == [] {
      EmptyConcat(b.routes);
    } else {
      var pre := points[..|points| - 1];
      var p := points[|points| - 1];
      ConstructPartitions(pre, caps);
      var b0 := Construct(pre, caps);
      assert b == Place(b0, p);
      assert pre + [p] == points;
      if b0.ok && b.ok {
        var c := b.current;
        assert b.routes == b0.routes[c := b0.routes[c] + [p]];
        ConcatAppendAt(b0.routes, c, p);
        assert Concat(b.routes) == points;
      } else if b0.ok {
        assert Concat(b.routes) == pre;
      } else {
        assert b == b0;
        assert points[..|Concat(b.routes)|] == pre[..|Concat(b.routes)|];
      }
    }
  }


  /** Routes that are all empty lay out to nothing. */
  lemma {:induction false} EmptyConcat(rs: seq<Route>)
    requires forall j :: 0 <= j < |rs| ==> rs[j] == []
    ensures Concat(rs) == []
    decreases |rs|
  {
    if rs != [] {
      EmptyConcat(rs[..|rs| - 1]);
    }
  }

  /** A point that finds the last truck full fails the walk. */
  lemma CulpritFailsWalk(points: seq<DeliveryPoint>, caps: seq<int>, k: nat)
    requires |points| > 0 ==> |caps| > 0
    requires k < |points|
    requires OutOfTrucks(Construct(points[..k], caps), points[k])
    ensures !Construct(points, caps).ok
  {
    assert points[..k + 1][..k] == points[..k];
    FailureIsFinal(points, caps, k + 1);
  }

  /** A failed walk has a first point that found the last truck full. */
  lemma {:induction false} FailedWalkHasCulprit(points: seq<DeliveryPoint>, caps: seq<int>)
    requires |points| > 0 ==> |caps| > 0
    requires !Construct(points, caps).ok
    ensures exists k :: 0 <= k < |points| && OutOfTrucks(Construct(points[..k], caps), points[k])
    decreases |points|
  {
    var n := |points|;
    var pre := points[..n - 1];
    if Construct(pre, caps).ok {
      assert OutOfTrucks(Construct(points[..n - 1], caps), points[n - 1]);
    } else {
      FailedWalkHasCulprit(pre, caps);
      var k :| 0 <= k < n - 1 && OutOfTrucks(Construct(pre[..k], caps), pre[k]);
      assert pre[..k] == points[..k];
      assert OutOfTrucks(Construct(points[..k], caps), points[k]);
    }
  }

  /** Construction fails only by running out of trucks: the walk fails
      exactly when some point does not fit the current truck and that truck
      is the last one. */
  lemma ConstructFailsIffOutOfTrucks(points: seq<DeliveryPoint>, caps: seq<int>)
    requires |points| > 0 ==> |caps| > 0
    ensures !Construct(points, caps).ok <==>
      exists k :: 0 <= k < |points| && OutOfTrucks(Construct(points[..k], caps), points[k])
  {
    if !Construct(points, caps).ok {
      FailedWalkHasCulprit(points, caps);
    }
    if exists k :: 0 <= k < |points| && OutOfTrucks(Construct(points[..k], caps), points[k]) {
      var k :| 0 <= k < |points| && OutOfTrucks(Construct(points[..k], caps), points[k]);
      CulpritFailsWalk(points, caps, k);
    }
  }

  /** Every truck after the first that the walk has reached holds at least
      one point, and the capacity left in the truck before it is below the
      demand of that truck's first point. */
  ghost predicate LeftBehindOnlyWhenFull(b: Build)
    requires |b.routes| == |b.capacity|
  {
    forall j :: 0 < j <= b.current && j < |b.routes| ==>
      b.routes[j] != [] && b.capacity[j - 1] < b.routes[j][0].demand
  }

  /** A truck is left behind only because the next point did not fit in it. */
  lemma {:induction false} AbandonedTruckWasFull(points: seq<DeliveryPoint>, caps: seq<int>)
    requires |points| > 0 ==> |caps| > 0
    ensures LeftBehindOnlyWhenFull(Construct(points, caps))
    decreases |points|
  {
    if points != [] {
      var pre := points[..|points| - 1];
      var p := points[|points| - 1];
      AbandonedTruckWasFull(pre, caps);
      ConstructPartitions(pre, caps);
      var b0, b := Construct(pre, caps), Construct(points, caps);
      assert b == Place(b0, p);
      if b0.ok && b.ok {
        var c := b.current;
        assert b == Load(b0.(current := c), c, p);
        forall j | 0 < j <= c && j < |b.routes|
          ensures b.routes[j] != [] && b.capacity[j - 1] < b.routes[j][0].demand
        {
          assert b.capacity[j - 1] == b0.capacity[j - 1];
          if j <= b0.current {
            assert b0.routes[j] != [] && b0.capacity[j - 1] < b0.routes[j][0].demand;
            assert b.routes[j][0] == b0.routes[j][0];
          } else {
            assert b0.routes[j] == [];
            assert b.routes[j] == [p];
          }
        }
      }
    }
  }


  /** The capacity check is skipped on the truck the walk moves to: a point
      heavier than every truck does not by itself make the walk fail while a
      next truck exists. Here it is placed in the second of three trucks,
      and the walk succeeds with a negative capacity field. */
  lemma OversizedPointIsPlacedUnchecked()
    ensures var p := DeliveryPoint(0.0, 0.0, 60);
      var b := Construct([p], [50, 50, 50]);
      b.ok && b.routes == [[], [p], []] && b.capacity == [50, -10, 50]
  {
    var p := DeliveryPoint(0.0, 0.0, 60);
    var b0 := Start([50, 50, 50]);
    assert b0.routes == [[], [], []];
    assert [p][..0] == [];
    assert Construct([p], [50, 50, 50]) == Place(b0, p);
    var b1 := Load(b0.(current := 1), 1, p);
    assert Place(b0, p) == b1;
    assert b0.routes[1] + [p] == [p];
    assert b1.routes == [[], [p], []];
    assert b1.capacity == [50, -10, 50];
  }

  /** Enough capacity in total does not make the walk succeed: three points
      of demand 6 and two trucks of capacity 10. The first point fills truck
      0 to 4, the second moves the walk to truck 1, and the third finds the
      last truck with 4 left, although 18 <= 20. */
  lemma EnoughTotalCapacityCanFail()
    ensures var p := DeliveryPoint(0.0, 0.0, 6);
      var points, caps := [p, p, p], [10, 10];
      Demand(points) <= caps[0] + caps[1] && !Construct(points, caps).ok
  {
    var p := DeliveryPoint(0.0, 0.0, 6);
    var points, caps := [p, p, p], [10, 10];
    assert [p, p, p][..2] == [p, p] && [p, p][..1] == [p] && [p][..0] == [];
    assert Demand([p]) == 6;
    assert Demand([p, p]) == 12;
    var b0 := Start(caps);
    var b1 := Construct(points[..1], caps);
    assert points[..1] == [p];
    assert Construct([p], caps) == Place(Construct([], caps), p);
    assert b1 == Place(b0, p);
    assert b1.ok && b1.current == 0 && b1.capacity == [4, 10];
    var b2 := Construct(points[..2], caps);
    assert points[..2][..1] == points[..1];
    assert b2 == Place(b1, p);
    assert b2.ok && b2.current == 1 && b2.capacity == [4, 4];
    assert OutOfTrucks(b2, points[2]);
    CulpritFailsWalk(points, caps, 2);
  }

  /** Append `p` to truck `c`'s route and deduct its demand from the
      truck's capacity field, in place (the two statements that both branches
      of `initial_solution` end with). */
  method LoadTruck(trucks: seq<Truck>, c: nat, p: DeliveryPoint)
    requires Distinct(trucks) && c < |trucks|
    modifies trucks[c]
    ensures Routes(trucks) == old(Routes(trucks))[c := old(trucks[c].route) + [p]]
    ensures Capacities(trucks) == old(Capacities(trucks))[c := old(trucks[c].capacity) - p.demand]
  {
    trucks[c].route := trucks[c].route + [p];
    trucks[c].capacity := trucks[c].capacity - p.demand;
  }

  /** Empty every truck's route, leaving the capacity fields alone. */
  method ResetRoutes(trucks: seq<Truck>)
    requires Distinct(trucks)
    modifies trucks
    ensures Routes(trucks) == Start(old(Capacities(trucks))).routes
    ensures Capacities(trucks) == old(Capacities(trucks))
  {
    ghost var caps := Capacities(trucks);
    for i := 0 to |trucks|
      invariant forall j :: 0 <= j < i ==> trucks[j].route == []
      invariant forall j :: 0 <= j < |trucks| ==> trucks[j].capacity == caps[j]
    {
      trucks[i].route := [];
    }
  }

  /** One iteration of the walk in `initial_solution`, in place: returns the
      new current-truck index and whether the point was placed. */
  method PlaceNext(trucks: seq<Truck>, current: nat, p: DeliveryPoint) returns (next: nat, placed: bool)
    requires Distinct(trucks) && current < |trucks|
    modifies trucks
    ensures var b := Place(Build(old(Routes(trucks)), old(Capacities(trucks)), current, true), p);
      placed == b.ok && next == b.current && Routes(trucks) == b.routes && Capacities(trucks) == b.capacity
  {
    if trucks[current].capacity >= p.demand {
      LoadTruck(trucks, current, p);
      return current, true;
    }
    next := current + 1;
    if next >= |trucks| {
      return next, false;
    }
    LoadTruck(trucks, next, p);
    placed := true;
  }

  /** `initial_solution`: empty every route, then walk `points`, appending to
      the current truck and deducting from its capacity field in place.
      Returns false when the walk runs past the last truck, leaving the
      trucks partly filled. */
  method InitialSolution(points: seq<DeliveryPoint>, trucks: seq<Truck>) returns (ok: bool)
    requires Distinct(trucks)
    requires |points| > 0 ==> |trucks| > 0
    modifies trucks
    ensures var b := Construct(points, old(Capacities(trucks)));
      ok == b.ok && Routes(trucks) == b.routes && Capacities(trucks) == b.capacity
  {
    ghost var caps := Capacities(trucks);
    ResetRoutes(trucks);
    var current := 0;
    for i := 0 to |points|
      invariant Construct(points[..i], caps) == Build(Routes(trucks), Capacities(trucks), current, true)
    {
      assert points[..i + 1][..i] == points[..i];
      var placed;
      current, placed := PlaceNext(trucks, current, points[i]);
      if !placed {
        FailureIsFinal(points, caps, i + 1);
        return false;
      }
    }
    assert points[..|points|] == points;
    return true;
  }
}
