/**
 * The loop of `simulateAdventurersMoves` (index.js:91-152): ticks repeat
 * while an adventurer still has directives. `Run` is the loop on values,
 * cut off after a budget of ticks; the method runs it in place.
 */
module SimulationRun {
  import opened Board
  import opened Adventurers
  import opened Simulation
  import opened SimulationProperties

  /**
   * The loop at index.js:92 once every adventurer has a proposal to commit,
   * cut off after `fuel` ticks. Over any number of ticks no cursor moves back,
   * mountains stay where they are and, on a map whose treasure cells hold at
   * least one unit, treasure is conserved (`TicksKeepsOffMountains` below adds
   * that no adventurer steps onto a mountain).
   */
  function Ticks(w: World, fuel: nat): (r: World)
    requires Valid(w) && AllReady(w.advs)
    ensures Valid(r) && AllReady(r.advs) && |r.advs| == |w.advs|
    ensures Height(r.board) == Height(w.board) && Width(r.board) == Width(w.board)
    ensures forall i :: 0 <= i < |w.advs| ==> r.advs[i].step >= w.advs[i].step
    ensures forall y, x :: 0 <= y < |w.board| && 0 <= x < |w.board[y]| ==>
      (r.board[y][x].Mountain? <==> w.board[y][x].Mountain?)
    ensures PositiveCounts(w.board) ==> PositiveCounts(r.board) && Potential(r) == Potential(w)
    decreases fuel
  {
    if fuel == 0 || AllDone(w.advs) then w
    else
      TickPreserves(w);
      Ticks(TickSpec(w), fuel - 1)
  }

  /**
   * The loop at index.js:92 on any input it accepts: when no adventurer has a
   * directive left the loop body never runs, so nobody needs a proposal;
   * otherwise every adventurer must have one to commit.
   */
  function Run(w: World, fuel: nat): (r: World)
    requires Valid(w) && (AllDone(w.advs) || AllReady(w.advs))
    ensures Valid(r) && (AllDone(r.advs) || AllReady(r.advs)) && |r.advs| == |w.advs|
    ensures AllDone(w.advs) ==> r == w
    ensures AllReady(w.advs) ==> r == Ticks(w, fuel)
  {
    if AllDone(w.advs) then w else Ticks(w, fuel)
  }

  /** Whatever the input, the run keeps what every tick keeps. */
  lemma RunPreserves(w: World, fuel: nat)
    requires Valid(w) && (AllDone(w.advs) || AllReady(w.advs))
    ensures var r := Run(w, fuel);
      && Height(r.board) == Height(w.board) && Width(r.board) == Width(w.board)
      && (forall i :: 0 <= i < |w.advs| ==> r.advs[i].step >= w.advs[i].step)
      && (forall y, x :: 0 <= y < |w.board| && 0 <= x < |w.board[y]| ==>
            (r.board[y][x].Mountain? <==> w.board[y][x].Mountain?))
      && (PositiveCounts(w.board) ==> PositiveCounts(r.board) && Potential(r) == Potential(w))
  {
  }

  /**
   * The whole loop of index.js:92-151, given a budget of `fuel` ticks.
   * `finished` says that the loop condition became false within the budget.
   */
  method SimulateAdventurersMoves(grid: array2<Cell>, advs: array<Adventurer>, fuel: nat) returns (finished: bool)
    requires Valid(World(BoardOf(grid), advs[..])) && (AllDone(advs[..]) || AllReady(advs[..]))
    modifies grid, advs
    ensures World(BoardOf(grid), advs[..]) == Run(old(World(BoardOf(grid), advs[..])), fuel)
    ensures finished <==> AllDone(advs[..])
    ensures finished ==> forall i :: 0 <= i < advs.Length ==> advs[i].step >= |advs[i].moves|
  {
    var active := AnyActive(advs);
    if !active {
      // The loop test fails at once: nobody needs a proposal.
      return true;
    }
    ghost var w0 := World(BoardOf(grid), advs[..]);
    assert AllReady(w0.advs) && Run(w0, fuel) == Ticks(w0, fuel);
    finished := TickLoop(grid, advs, fuel);
  }

  /** The loop of index.js:92-151 on adventurers that all have a proposal to commit. */
  method TickLoop(grid: array2<Cell>, advs: array<Adventurer>, fuel: nat) returns (finished: bool)
    requires Valid(World(BoardOf(grid), advs[..])) && AllReady(advs[..])
    modifies grid, advs
    ensures World(BoardOf(grid), advs[..]) == Ticks(old(World(BoardOf(grid), advs[..])), fuel)
    ensures finished <==> AllDone(advs[..])
  {
    ghost var w0 := World(BoardOf(grid), advs[..]);
    ghost var cur := w0;
    ghost var left: nat := fuel;
    var ticks := 0;
    var active := AnyActive(advs);
    while active && ticks < fuel
      invariant 0 <= ticks <= fuel && left == fuel - ticks
      invariant cur == World(BoardOf(grid), advs[..])
      invariant Valid(cur) && AllReady(cur.advs)
      invariant Ticks(cur, left) == Ticks(w0, fuel)
      invariant active <==> !AllDone(cur.advs)
    {
      ghost var next, rest: nat := TickSpec(cur), left - 1;
      TicksStep(cur, next, left, rest);
      Tick(grid, advs);
      cur, left := next, rest;
      ticks := ticks + 1;
      active := AnyActive(advs);
    }
    TicksDone(cur, left);
    finished := !active;
  }

  /** No run moves an adventurer onto a mountain. */
  lemma RunKeepsOffMountains(w: World, fuel: nat)
    requires Valid(w) && (AllDone(w.advs) || AllReady(w.advs)) && OffMountains(w)
    ensures OffMountains(Run(w, fuel))
  {
    if !AllDone(w.advs) {
      TicksKeepsOffMountains(w, fuel);
    }
  }

  /** The same over the ticks of the loop, by induction on the budget. */
  lemma {:induction false} TicksKeepsOffMountains(w: World, fuel: nat)
    requires Valid(w) && AllReady(w.advs) && OffMountains(w)
    ensures OffMountains(Ticks(w, fuel))
    decreases fuel
  {
    if fuel > 0 && !AllDone(w.advs) {
      var t := TickSpec(w);
      var rest: nat := fuel - 1;
      TickKeepsOffMountains(w);
      TicksKeepsOffMountains(t, rest);
      TicksStep(w, t, fuel, rest);
    } else {
      TicksDone(w, fuel);
    }
  }

  /** The loop has stopped: the world is what the run returns. */
  lemma TicksDone(w: World, fuel: nat)
    requires Valid(w) && AllReady(w.advs) && (fuel == 0 || AllDone(w.advs))
    ensures Ticks(w, fuel) == w
  {
  }

  /** One unfolding of the run loop: while someone is active, a run is one tick followed by the rest. */
  lemma TicksStep(w: World, t: World, fuel: nat, rest: nat)
    requires Valid(w) && AllReady(w.advs) && !AllDone(w.advs) && TickSpec(w) == t && fuel == rest + 1
    ensures Ticks(w, fuel) == Ticks(t, rest)
  {
    TicksUnfold(w, rest + 1);
  }

  /** The definition of `Ticks` unfolded once. */
  lemma TicksUnfold(w: World, fuel: nat)
    requires Valid(w) && AllReady(w.advs) && !AllDone(w.advs) && fuel > 0
    ensures Ticks(w, fuel) == Ticks(TickSpec(w), fuel - 1)
  {
  }

  /** The adventurers never carry more than what lay on the map plus what they started with. */
  lemma RunCollectsAtMostInitialTreasure(w: World, fuel: nat)
    requires Valid(w) && (AllDone(w.advs) || AllReady(w.advs)) && PositiveCounts(w.board)
    ensures Sum(Run(w, fuel).advs, Collected) <= BoardTotal(w.board) + Sum(w.advs, Collected)
  {
    RunPreserves(w, fuel);
    BoardTotalNonNegative(Run(w, fuel).board);
  }

  /** A world that a tick leaves unchanged is never left again, however many ticks run. */
  lemma {:induction false} RunStaysAtFixedPoint(w: World, fuel: nat)
    requires Valid(w) && AllReady(w.advs) && TickSpec(w) == w
    ensures Ticks(w, fuel) == w
    decreases fuel
  {
    if fuel > 0 && !AllDone(w.advs) {
      var rest: nat := fuel - 1;
      RunStaysAtFixedPoint(w, rest);
      TicksStep(w, w, fuel, rest);
    } else {
      TicksDone(w, fuel);
    }
  }

  /** A run whose first tick reaches a world `s` that the tick leaves unchanged ends in `s`. */
  lemma RunReachesFixedPoint(w: World, s: World, fuel: nat)
    requires Valid(w) && AllReady(w.advs) && !AllDone(w.advs) && fuel > 0
    requires TickSpec(w) == s && Valid(s) && AllReady(s.advs) && TickSpec(s) == s
    ensures Ticks(w, fuel) == s
  {
    var rest: nat := fuel - 1;
    RunStaysAtFixedPoint(s, rest);
    TicksStep(w, s, fuel, rest);
  }

  /**
   * A run whose first tick leads to a world `s` that the tick leaves
   * unchanged, with adventurer `i` still active in `s`, never finishes:
   * `i` stays active whatever the budget.
   */
  lemma RunNeverFinishesOnceStuck(w: World, s: World, fuel: nat, i: nat)
    requires Valid(w) && AllReady(w.advs) && i < |w.advs| && Active(w.advs[i])
    requires TickSpec(w) == s && Valid(s) && AllReady(s.advs) && TickSpec(s) == s && Active(s.advs[i])
    ensures Active(Run(w, fuel).advs[i])
  {
    assert !AllDone(w.advs);
    if fuel > 0 {
      RunReachesFixedPoint(w, s, fuel);
    } else {
      TicksDone(w, fuel);
    }
  }
}
