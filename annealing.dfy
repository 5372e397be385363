/** The search loop (`simulated_annealing`). Each call starts from the fleet
    it is given, at temperature 1.0, and runs a fixed number of iterations:
    draw a neighbour, price it, accept it when it is strictly shorter or when
    the random draw falls below exp((current - new) / temperature), record it
    as the best when it is accepted and strictly shorter than the best so
    far, and cool the temperature by the cooling rate.

    The random choices are inputs: one `Move` and one draw in [0, 1) per
    iteration. The exponential is the parameter `exp`. */
module Annealing {
  import opened Geometry
  import opened Fleet
  import opened Cost
  import opened Neighbor

  datatype Option<T> = None | Some(value: T)

  /** The state of the search between two iterations. `S` is the form a
      solution takes: a fleet of `Truck` objects in the method, its routes
      in the specification. */
  datatype Search<S> = Search(current: S, currentDistance: real, best: S, bestDistance: real, temperature: real)

  /** The acceptance test: a strictly shorter neighbour always, otherwise
      with the probability the draw gives. */
  predicate Accepts(currentDistance: real, newDistance: real, temperature: real, draw: real, exp: real -> real)
    requires temperature > 0.0
    ensures newDistance < currentDistance ==> Accepts(currentDistance, newDistance, temperature, draw, exp)
    ensures newDistance >= currentDistance ==>
      (Accepts(currentDistance, newDistance, temperature, draw, exp) <==> draw < exp((currentDistance - newDistance) / temperature))
  {
    newDistance < currentDistance || draw < exp((currentDistance - newDistance) / temperature)
  }

  /** The temperature after one iteration (`temperature *= cooling_rate`);
      a positive rate keeps it positive. */
  function Cool(temperature: real, coolingRate: real): (t: real)
    requires temperature > 0.0 && coolingRate > 0.0
    ensures t > 0.0
  {
    temperature * coolingRate
  }

  /** The state before the first iteration: the given fleet is the current
      solution, the temperature is 1.0, and when no best solution is handed
      in the current one is the best. */
  function Begin<S>(current: S, currentDistance: real, best: Option<S>, bestDistance: real): (s: Search<S>)
    ensures s.current == current && s.currentDistance == currentDistance && s.temperature == 1.0
    ensures best.None? ==> s.best == current && s.bestDistance == currentDistance
    ensures best.Some? ==> s.best == best.value && s.bestDistance == bestDistance
  {
    match best
    case None => Search(current, currentDistance, current, currentDistance, 1.0)
    case Some(b) => Search(current, currentDistance, b, bestDistance, 1.0)
  }

  /** The decision of one iteration, given the neighbour and its distance:
      an accepted neighbour becomes the current solution, and also the best
      when it is strictly shorter than the best so far; the temperature is
      cooled either way. */
  function Outcome<S>(s: Search<S>, next: S, nextDistance: real, draw: real, exp: real -> real, coolingRate: real): (s': Search<S>)
    requires s.temperature > 0.0 && coolingRate > 0.0
    ensures s'.temperature > 0.0
    ensures s'.current == s.current || s'.current == next
  {
    var cooled := Cool(s.temperature, coolingRate);
    if Accepts(s.currentDistance, nextDistance, s.temperature, draw, exp) then
      if nextDistance < s.bestDistance then Search(next, nextDistance, next, nextDistance, cooled)
      else s.(current := next, currentDistance := nextDistance, temperature := cooled)
    else s.(temperature := cooled)
  }

  /** One iteration on routes: the neighbour the move gives, priced, then
      decided. */
  function Step(s: Search<seq<Route>>, m: Move, draw: real, depot: DeliveryPoint, dist: Metric, exp: real -> real, coolingRate: real): (s': Search<seq<Route>>)
    requires s.temperature > 0.0 && coolingRate > 0.0
    requires ValidMove(Shape(s.current), m)
    ensures Shape(s'.current) == Shape(s.current)
    ensures s'.temperature > 0.0
  {
    var next := SwapStops(s.current, m);
    Outcome(s, next, SolutionCost(next, depot, dist), draw, exp, coolingRate)
  }

  /** What one iteration does: the temperature is multiplied by the cooling
      rate; a rejected neighbour changes nothing else; an accepted one
      becomes the current solution, and becomes the best exactly when it is
      strictly shorter than the best so far. The best distance never grows. */
  lemma StepOutcome(s: Search<seq<Route>>, m: Move, draw: real, depot: DeliveryPoint, dist: Metric, exp: real -> real, coolingRate: real)
    requires s.temperature > 0.0 && coolingRate > 0.0
    requires ValidMove(Shape(s.current), m)
    ensures var s' := Step(s, m, draw, depot, dist, exp, coolingRate);
      var next := SwapStops(s.current, m);
      var nextDistance := SolutionCost(next, depot, dist);
      var accepted := Accepts(s.currentDistance, nextDistance, s.temperature, draw, exp);
      s'.temperature == Cool(s.temperature, coolingRate) &&
      (!accepted ==> s'.current == s.current && s'.currentDistance == s.currentDistance) &&
      (accepted ==> s'.current == next && s'.currentDistance == nextDistance) &&
      (accepted && nextDistance < s.bestDistance ==> s'.best == next && s'.bestDistance == nextDistance) &&
      (!(accepted && nextDistance < s.bestDistance) ==> s'.best == s.best && s'.bestDistance == s.bestDistance) &&
      s'.bestDistance <= s.bestDistance
  {
  }

  /** The iterations in order: `moves[k]` and `draws[k]` are the random
      choices of iteration k. */
  function Run(s: Search<seq<Route>>, moves: seq<Move>, draws: seq<real>,
               depot: DeliveryPoint, dist: Metric, exp: real -> real, coolingRate: real): (r: Search<seq<Route>>)
    requires |draws| == |moves|
    requires s.temperature > 0.0 && coolingRate > 0.0
    requires forall k :: 0 <= k < |moves| ==> ValidMove(Shape(s.current), moves[k])
    ensures Shape(r.current) == Shape(s.current)
    ensures r.temperature > 0.0
    decreases |moves|
  {
    if moves == [] then s
    else
      var n := |moves| - 1;
      Step(Run(s, moves[..n], draws[..n], depot, dist, exp, coolingRate), moves[n], draws[n], depot, dist, exp, coolingRate)
  }

  /** One more iteration extends the run by one `Step`. */
  lemma RunExtends(s: Search<seq<Route>>, moves: seq<Move>, draws: seq<real>, k: nat,
                   depot: DeliveryPoint, dist: Metric, exp: real -> real, coolingRate: real)
    requires |draws| == |moves| && k < |moves|
    requires s.temperature > 0.0 && coolingRate > 0.0
    requires forall j :: 0 <= j < |moves| ==> ValidMove(Shape(s.current), moves[j])
    ensures Run(s, moves[..k + 1], draws[..k + 1], depot, dist, exp, coolingRate)
      == Step(Run(s, moves[..k], draws[..k], depot, dist, exp, coolingRate), moves[k], draws[k], depot, dist, exp, coolingRate)
  {
    assert moves[..k + 1][..k] == moves[..k] && draws[..k + 1][..k] == draws[..k];
  }

  /** `rate` to the power `k`; positive for a positive rate. */
  function Power(rate: real, k: nat): (p: real)
    ensures rate > 0.0 ==> p > 0.0
  {
    if k == 0 then 1.0 else Power(rate, k - 1) * rate
  }

  /** The temperature after `k` coolings. */
  function Cooled(temperature: real, coolingRate: real, k: nat): (t: real)
    requires temperature > 0.0 && coolingRate > 0.0
    ensures t > 0.0
  {
    if k == 0 then temperature else Cool(Cooled(temperature, coolingRate, k - 1), coolingRate)
  }

  /** The temperature depends only on the number of iterations, whatever
      was accepted. */
  lemma {:induction false} RunTemperature(s: Search<seq<Route>>, moves: seq<Move>, draws: seq<real>,
                                          depot: DeliveryPoint, dist: Metric, exp: real -> real, coolingRate: real)
    requires |draws| == |moves|
    requires s.temperature > 0.0 && coolingRate > 0.0
    requires forall k :: 0 <= k < |moves| ==> ValidMove(Shape(s.current), moves[k])
    ensures Run(s, moves, draws, depot, dist, exp, coolingRate).temperature == Cooled(s.temperature, coolingRate, |moves|)
    decreases |moves|
  {
    if moves != [] {
      var n := |moves| - 1;
      RunTemperature(s, moves[..n], draws[..n], depot, dist, exp, coolingRate);
      StepOutcome(Run(s, moves[..n], draws[..n], depot, dist, exp, coolingRate), moves[n], draws[n], depot, dist, exp, coolingRate);
    }
  }

  /** The cooling is geometric: after `k` coolings the temperature is the
      starting one times the cooling rate to the power `k`. */
  lemma {:induction false} CooledIsGeometric(temperature: real, coolingRate: real, k: nat)
    requires temperature > 0.0 && coolingRate > 0.0
    ensures Cooled(temperature, coolingRate, k) == temperature * Power(coolingRate, k)
  {
    if k > 0 {
      CooledIsGeometric(temperature, coolingRate, k - 1);
      var p := Power(coolingRate, k - 1);
      ScaleAgain(temperature, p, coolingRate, Cooled(temperature, coolingRate, k - 1), Cooled(temperature, coolingRate, k));
    }
  }

  /** Scaling by `p` and then by `r` is scaling by `p * r`. */
  lemma ScaleAgain(t: real, p: real, r: real, once: real, twice: real)
    requires once == t * p && twice == once * r
    ensures twice == t * (p * r)
  {
  }

  /** With a cooling rate strictly between 0 and 1 the factor stays in
      (0, 1] and shrinks strictly with every iteration. */
  lemma {:induction false} CoolingFactorShrinks(rate: real, k: nat)
    requires 0.0 < rate < 1.0
    ensures 0.0 < Power(rate, k + 1) < Power(rate, k) <= 1.0
  {
    if k > 0 {
      CoolingFactorShrinks(rate, k - 1);
    }
    var p, q := Power(rate, k), Power(rate, k + 1);
    assert 0.0 < p <= 1.0;
    ScaleDown(p, rate, q);
  }

  /** Scaling a positive number by a factor in (0, 1) shrinks it and keeps
      it positive. */
  lemma ScaleDown(p: real, rate: real, q: real)
    requires p > 0.0 && 0.0 < rate < 1.0 && q == p * rate
    ensures 0.0 < q < p
  {
    var gap := 1.0 - rate;
    assert p * gap > 0.0;
    assert p - q == p * gap;
  }

  /** The best distance never grows: after more iterations it is at most
      what it was after fewer. */
  lemma {:induction false} BestNeverWorsens(s: Search<seq<Route>>, moves: seq<Move>, draws: seq<real>, k: nat,
                                            depot: DeliveryPoint, dist: Metric, exp: real -> real, coolingRate: real)
    requires |draws| == |moves| && k <= |moves|
    requires s.temperature > 0.0 && coolingRate > 0.0
    requires forall j :: 0 <= j < |moves| ==> ValidMove(Shape(s.current), moves[j])
    ensures Run(s, moves, draws, depot, dist, exp, coolingRate).bestDistance
         <= Run(s, moves[..k], draws[..k], depot, dist, exp, coolingRate).bestDistance
    decreases |moves|
  {
    if k == |moves| {
      assert moves[..k] == moves && draws[..k] == draws;
    } else {
      var n := |moves| - 1;
      assert moves[..n][..k] == moves[..k] && draws[..n][..k] == draws[..k];
      BestNeverWorsens(s, moves[..n], draws[..n], k, depot, dist, exp, coolingRate);
      StepOutcome(Run(s, moves[..n], draws[..n], depot, dist, exp, coolingRate), moves[n], draws[n], depot, dist, exp, coolingRate);
    }
  }

  /** What the search keeps true of its state: both distances are the costs
      of their solutions, the best is no longer than the current, both
      solutions deliver exactly the points `stops`, and both give every truck
      the same number of stops. */
  ghost predicate Tracks(s: Search<seq<Route>>, depot: DeliveryPoint, dist: Metric, stops: multiset<DeliveryPoint>)
  {
    s.currentDistance == SolutionCost(s.current, depot, dist) &&
    s.bestDistance == SolutionCost(s.best, depot, dist) &&
    s.bestDistance <= s.currentDistance &&
    multiset(Concat(s.current)) == stops && multiset(Concat(s.best)) == stops &&
    Shape(s.best) == Shape(s.current)
  }

  /** Starting without a best solution establishes `Tracks` for the points
      of the starting fleet. */
  lemma BeginTracks(rs: seq<Route>, depot: DeliveryPoint, dist: Metric, bestDistance: real)
    ensures Tracks(Begin(rs, SolutionCost(rs, depot, dist), None, bestDistance), depot, dist, multiset(Concat(rs)))
  {
  }

  lemma StepKeepsTracks(s: Search<seq<Route>>, m: Move, draw: real, depot: DeliveryPoint, dist: Metric,
                        exp: real -> real, coolingRate: real, stops: multiset<DeliveryPoint>)
    requires s.temperature > 0.0 && coolingRate > 0.0
    requires ValidMove(Shape(s.current), m)
    requires Tracks(s, depot, dist, stops)
    ensures Tracks(Step(s, m, draw, depot, dist, exp, coolingRate), depot, dist, stops)
  {
    SwapKeepsStops(s.current, m);
    StepOutcome(s, m, draw, depot, dist, exp, coolingRate);
  }

  /** Every iteration keeps `Tracks`. */
  lemma {:induction false} RunKeepsTracks(s: Search<seq<Route>>, moves: seq<Move>, draws: seq<real>,
                                          depot: DeliveryPoint, dist: Metric, exp: real -> real, coolingRate: real,
                                          stops: multiset<DeliveryPoint>)
    requires |draws| == |moves|
    requires s.temperature > 0.0 && coolingRate > 0.0
    requires forall k :: 0 <= k < |moves| ==> ValidMove(Shape(s.current), moves[k])
    requires Tracks(s, depot, dist, stops)
    ensures Tracks(Run(s, moves, draws, depot, dist, exp, coolingRate), depot, dist, stops)
    decreases |moves|
  {
    if moves != [] {
      var n := |moves| - 1;
      RunKeepsTracks(s, moves[..n], draws[..n], depot, dist, exp, coolingRate, stops);
      StepKeepsTracks(Run(s, moves[..n], draws[..n], depot, dist, exp, coolingRate), moves[n], draws[n],
                      depot, dist, exp, coolingRate, stops);
    }
  }

  /** The best distance at the end is no longer than any current distance
      the search passed through. */
  lemma BestBoundsEveryVisited(s: Search<seq<Route>>, moves: seq<Move>, draws: seq<real>, k: nat,
                               depot: DeliveryPoint, dist: Metric, exp: real -> real, coolingRate: real,
                               stops: multiset<DeliveryPoint>)
    requires |draws| == |moves| && k <= |moves|
    requires s.temperature > 0.0 && coolingRate > 0.0
    requires forall j :: 0 <= j < |moves| ==> ValidMove(Shape(s.current), moves[j])
    requires Tracks(s, depot, dist, stops)
    ensures Run(s, moves, draws, depot, dist, exp, coolingRate).bestDistance
         <= Run(s, moves[..k], draws[..k], depot, dist, exp, coolingRate).currentDistance
  {
    BestNeverWorsens(s, moves, draws, k, depot, dist, exp, coolingRate);
    RunKeepsTracks(s, moves[..k], draws[..k], depot, dist, exp, coolingRate, stops);
  }

  /** A call without a best solution returns a reassignment of the starting
      fleet's points that gives every truck as many stops as before, whose
      distance is its cost and no longer than the starting fleet's. */
  lemma FreshSearchResult(rs: seq<Route>, moves: seq<Move>, draws: seq<real>, bestDistance: real,
                          depot: DeliveryPoint, dist: Metric, exp: real -> real, coolingRate: real)
    requires |draws| == |moves| && coolingRate > 0.0
    requires forall k :: 0 <= k < |moves| ==> ValidMove(Shape(rs), moves[k])
    ensures var r := Run(Begin(rs, SolutionCost(rs, depot, dist), None, bestDistance), moves, draws, depot, dist, exp, coolingRate);
      multiset(Concat(r.best)) == multiset(Concat(rs)) && Shape(r.best) == Shape(rs) &&
      r.bestDistance == SolutionCost(r.best, depot, dist) && r.bestDistance <= SolutionCost(rs, depot, dist)
  {
    var s := Begin(rs, SolutionCost(rs, depot, dist), None, bestDistance);
    BeginTracks(rs, depot, dist, bestDistance);
    RunKeepsTracks(s, moves, draws, depot, dist, exp, coolingRate, multiset(Concat(rs)));
    BestNeverWorsens(s, moves, draws, 0, depot, dist, exp, coolingRate);
    assert moves[..0] == [] && draws[..0] == [];
  }

  /** A neighbour exactly as long as the current solution is always
      accepted when exp(0) is 1 and the draw lies in [0, 1). */
  lemma SidewaysMoveAccepted(distance: real, temperature: real, draw: real, exp: real -> real)
    requires temperature > 0.0 && 0.0 <= draw < 1.0 && exp(0.0) == 1.0
    ensures Accepts(distance, distance, temperature, draw, exp)
  {
    assert (distance - distance) / temperature == 0.0;
  }

  /** The routes of a state of the search over trucks. */
  function Snapshot(s: Search<seq<Truck>>): Search<seq<Route>>
    reads s.current, s.best
  {
    Search(Routes(s.current), s.currentDistance, Routes(s.best), s.bestDistance, s.temperature)
  }

  /** Deciding on trucks and then reading the routes gives the decision on
      routes. */
  lemma SnapshotOutcome(s: Search<seq<Truck>>, next: seq<Truck>, nextDistance: real, draw: real, exp: real -> real, coolingRate: real)
    requires s.temperature > 0.0 && coolingRate > 0.0
    ensures Snapshot(Outcome(s, next, nextDistance, draw, exp, coolingRate))
      == Outcome(Snapshot(s), Routes(next), nextDistance, draw, exp, coolingRate)
  {
    var cooled := Cool(s.temperature, coolingRate);
    if Accepts(s.currentDistance, nextDistance, s.temperature, draw, exp) {
      if nextDistance < s.bestDistance {
        assert Outcome(s, next, nextDistance, draw, exp, coolingRate) == Search(next, nextDistance, next, nextDistance, cooled);
      } else {
        assert Outcome(s, next, nextDistance, draw, exp, coolingRate) == s.(current := next, currentDistance := nextDistance, temperature := cooled);
      }
    } else {
      assert Outcome(s, next, nextDistance, draw, exp, coolingRate) == s.(temperature := cooled);
    }
  }

  /** The routes of an optional fleet. */
  function RoutesOf(fleet: Option<seq<Truck>>): (o: Option<seq<Route>>)
    reads set t | fleet.Some? && t in fleet.value
    ensures o.Some? <==> fleet.Some?
    ensures fleet.Some? ==> o.value == Routes(fleet.value)
  {
    if fleet.None? then None else Some(Routes(fleet.value))
  }

  /** The neighbour of one iteration and its distance. */
  method Propose(current: seq<Truck>, m: Move, depot: DeliveryPoint, dist: Metric)
      returns (newSolution: seq<Truck>, newDistance: real)
    requires ValidMove(Shape(Routes(current)), m)
    ensures Routes(newSolution) == SwapStops(old(Routes(current)), m)
    ensures newDistance == SolutionCost(Routes(newSolution), depot, dist)
  {
    newSolution := NeighborSolution(current, m);
    newDistance := TotalDistance(newSolution, depot, dist);
  }

  /** One pass of the loop body of `simulated_annealing`: draw and price a
      neighbour, then decide. Nothing is modified, and the routes of the
      state it leaves are the state `Step` gives. */
  method Iterate(state: Search<seq<Truck>>, m: Move, draw: real, depot: DeliveryPoint, dist: Metric, exp: real -> real, coolingRate: real)
      returns (state': Search<seq<Truck>>)
    requires state.temperature > 0.0 && coolingRate > 0.0
    requires ValidMove(Shape(Routes(state.current)), m)
    ensures Snapshot(state') == Step(old(Snapshot(state)), m, draw, depot, dist, exp, coolingRate)
  {
    ghost var s := Snapshot(state);
    var newSolution, newDistance := Propose(state.current, m, depot, dist);
    assert Snapshot(state) == s;
    state' := Outcome(state, newSolution, newDistance, draw, exp, coolingRate);
    SnapshotOutcome(state, newSolution, newDistance, draw, exp, coolingRate);
  }

  /** The set-up of `simulated_annealing`: price the given fleet and form
      the state before the first iteration. */
  method Setup(trucks: seq<Truck>, depot: DeliveryPoint, dist: Metric, bestSolution: Option<seq<Truck>>, bestDistance: real)
      returns (state: Search<seq<Truck>>)
    ensures Snapshot(state)
      == Begin(old(Routes(trucks)), SolutionCost(old(Routes(trucks)), depot, dist), old(RoutesOf(bestSolution)), bestDistance)
  {
    var currentDistance := TotalDistance(trucks, depot, dist);
    state := Begin(trucks, currentDistance, bestSolution, bestDistance);
  }

  /** The loop of `simulated_annealing`: one `Iterate` per move, in order.
      Nothing is modified, and the routes of the state it ends in are those
      `Run` gives from the state it starts in. */
  method Anneal(state0: Search<seq<Truck>>, moves: seq<Move>, draws: seq<real>,
                depot: DeliveryPoint, dist: Metric, exp: real -> real, coolingRate: real)
      returns (state: Search<seq<Truck>>)
    requires |draws| == |moves|
    requires state0.temperature > 0.0 && coolingRate > 0.0
    requires forall k :: 0 <= k < |moves| ==> ValidMove(Shape(Routes(state0.current)), moves[k])
    ensures Snapshot(state) == Run(old(Snapshot(state0)), moves, draws, depot, dist, exp, coolingRate)
  {
    ghost var s0 := Snapshot(state0);
    state := state0;
    for k := 0 to |moves|
      invariant state.temperature > 0.0
      invariant Run(s0, moves[..k], draws[..k], depot, dist, exp, coolingRate) == Snapshot(state)
    {
      RunExtends(s0, moves, draws, k, depot, dist, exp, coolingRate);
      state := Iterate(state, moves[k], draws[k], depot, dist, exp, coolingRate);
    }
    assert moves[..|moves|] == moves && draws[..|moves|] == draws;
  }

  /** `simulated_annealing`: runs `maxIterations` iterations from `trucks`
      and returns the best solution found and its distance. The result is
      the one the iterations `Run` describes. No truck is modified: every
      neighbour is a fresh copy. */
  method SimulatedAnnealing(trucks: seq<Truck>, depot: DeliveryPoint, dist: Metric, exp: real -> real,
                            maxIterations: nat, coolingRate: real, moves: seq<Move>, draws: seq<real>,
                            bestSolution: Option<seq<Truck>>, bestDistance: real)
      returns (best: seq<Truck>, bestDist: real)
    requires coolingRate > 0.0
    requires |moves| == maxIterations && |draws| == maxIterations
    requires forall k :: 0 <= k < |moves| ==> ValidMove(Shape(Routes(trucks)), moves[k])
    ensures var r := Run(Begin(Routes(trucks), SolutionCost(Routes(trucks), depot, dist), RoutesOf(bestSolution), bestDistance),
                         moves, draws, depot, dist, exp, coolingRate);
      Routes(best) == r.best && bestDist == r.bestDistance
  {
    ghost var routes0, best0 := Routes(trucks), RoutesOf(bestSolution);
    var state := Setup(trucks, depot, dist, bestSolution, bestDistance);
    ghost var s0 := Snapshot(state);
    assert s0 == Begin(routes0, SolutionCost(routes0, depot, dist), best0, bestDistance);
    state := Anneal(state, moves, draws, depot, dist, exp, coolingRate);
    assert Snapshot(state) == Run(s0, moves, draws, depot, dist, exp, coolingRate);
    best, bestDist := state.best, state.bestDistance;
    assert Routes(trucks) == routes0 && RoutesOf(bestSolution) == best0;
  }
}
