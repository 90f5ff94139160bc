/**
 * What one tick keeps and changes: bounds, mountains, treasure, the contest
 * rule, cursor monotonicity and the stale proposals of finished adventurers
 * (index.js:92-151).
 */
module SimulationProperties {
  import opened Board
  import opened Adventurers
  import opened Simulation

  /**
   * What committing proposal `a.next` did to adventurer `a`, judged against the
   * map `b` as it was before the commit pass.
   */
  ghost predicate Committed(a: Adventurer, r: Adventurer, b: Board, contested: bool)
    requires a.next.Some? && Rect(b) && InBounds(b, a.next.value.posX, a.next.value.posY)
  {
    var p := a.next.value;
    var moved := r.posX != a.posX || r.posY != a.posY;
    && r.name == a.name && r.moves == a.moves && r.next == a.next
    && r.step == (if contested then a.step else a.step + 1)
    && r.orientation == (if contested then a.orientation else p.orientation)
    && (moved <==> !b[p.posY][p.posX].Mountain? && (a.posX != p.posX || a.posY != p.posY))
    && (moved ==> r.posX == p.posX && r.posY == p.posY)
    && (r.treasuresCollected == a.treasuresCollected
        || (moved && r.treasuresCollected == a.treasuresCollected + 1))
  }

  /** Whether a cell is contested depends only on names and proposals. */
  lemma ContestedOnlyReadsPlans(xs: seq<Adventurer>, ys: seq<Adventurer>, i: nat)
    requires SamePlans(xs, ys) && i < |xs| && xs[i].next.Some?
    ensures Contested(xs, i) == Contested(ys, i)
  {
  }

  /** The commit pass never creates or removes a mountain. */
  lemma {:induction false} CommitUpToKeepsMountains(w: World, k: nat)
    requires Valid(w) && AllProposed(w.advs) && k <= |w.advs|
    ensures forall y, x :: 0 <= y < |w.board| && 0 <= x < |w.board[y]| ==>
      (CommitUpTo(w, k).board[y][x].Mountain? <==> w.board[y][x].Mountain?)
  {
    if k > 0 {
      CommitUpToKeepsMountains(w, k - 1);
    }
  }

  /** One commit moves exactly the units it collects from the map to the adventurer. */
  lemma CommitAtConserves(w: World, k: nat)
    requires Valid(w) && k < |w.advs| && w.advs[k].next.Some? && PositiveCounts(w.board)
    ensures PositiveCounts(CommitAt(w, k).board)
    ensures Potential(CommitAt(w, k)) == Potential(w)
  {
    var a := w.advs[k];
    var p := a.next.value;
    var cell := w.board[p.posY][p.posX];
    var (a', c') := CommitOne(a, cell, Contested(w.advs, k));
    SetCellTotal(w.board, p.posX, p.posY, c');
    SumUpdate(w.advs, k, a', Collected);
  }

  lemma {:induction false} CommitUpToConserves(w: World, k: nat)
    requires Valid(w) && AllProposed(w.advs) && k <= |w.advs| && PositiveCounts(w.board)
    ensures PositiveCounts(CommitUpTo(w, k).board)
    ensures Potential(CommitUpTo(w, k)) == Potential(w)
  {
    if k > 0 {
      CommitUpToConserves(w, k - 1);
      CommitAtConserves(CommitUpTo(w, k - 1), k - 1);
    }
  }

  /**
   * One commit: adventurer `k` is changed by the contest and move rules and ends
   * settled; every other adventurer that was settled stays settled.
   */
  lemma CommitAtEffects(w: World, k: nat)
    requires Valid(w) && k < |w.advs| && w.advs[k].next.Some?
    ensures Committed(w.advs[k], CommitAt(w, k).advs[k], w.board, Contested(w.advs, k))
    ensures Settled(CommitAt(w, k).advs[k], CommitAt(w, k).board)
    ensures forall j :: 0 <= j < |w.advs| && j != k && Settled(w.advs[j], w.board) ==>
      Settled(CommitAt(w, k).advs[j], CommitAt(w, k).board)
  {
  }

  /**
   * After committing the first `k` adventurers: each of them was committed by
   * the move and contest rules and now stands on its target unless that is a
   * mountain; the rest are untouched.
   */
  lemma {:induction false} CommitUpToEffects(w: World, k: nat)
    requires Valid(w) && AllProposed(w.advs) && k <= |w.advs|
    ensures forall j :: k <= j < |w.advs| ==> CommitUpTo(w, k).advs[j] == w.advs[j]
    ensures forall j :: 0 <= j < k ==>
      Committed(w.advs[j], CommitUpTo(w, k).advs[j], w.board, Contested(w.advs, j))
    ensures forall j :: 0 <= j < k ==> Settled(CommitUpTo(w, k).advs[j], CommitUpTo(w, k).board)
  {
    if k > 0 {
      var prev := CommitUpTo(w, k - 1);
      var r := CommitUpTo(w, k);
      assert r == CommitAt(prev, k - 1);
      CommitUpToEffects(w, k - 1);
      CommitAtEffects(prev, k - 1);
      var a := w.advs[k - 1];
      assert prev.advs[k - 1] == a;
      ContestedOnlyReadsPlans(w.advs, prev.advs, k - 1);
      CommitUpToKeepsMountains(w, k - 1);
      var p := a.next.value;
      assert prev.board[p.posY][p.posX].Mountain? <==> w.board[p.posY][p.posX].Mountain?;
      assert Committed(a, r.advs[k - 1], w.board, Contested(w.advs, k - 1));
      forall j | 0 <= j < k - 1
        ensures Committed(w.advs[j], r.advs[j], w.board, Contested(w.advs, j))
        ensures Settled(r.advs[j], r.board)
      {
        assert r.advs[j] == prev.advs[j];
      }
    }
  }

  /** A tick never creates or removes a mountain. */
  lemma TickKeepsMountains(w: World)
    requires Valid(w) && AllReady(w.advs)
    ensures forall y, x :: 0 <= y < |w.board| && 0 <= x < |w.board[y]| ==>
      (TickSpec(w).board[y][x].Mountain? <==> w.board[y][x].Mountain?)
  {
    CommitUpToKeepsMountains(Proposed(w), |w.advs|);
  }

  /**
   * Treasure is conserved by a tick: what the adventurers carry plus what lies
   * on the map is unchanged, as long as every treasure cell holds at least one unit.
   */
  lemma TickConservesTreasure(w: World)
    requires Valid(w) && AllReady(w.advs) && PositiveCounts(w.board)
    ensures PositiveCounts(TickSpec(w).board)
    ensures Potential(TickSpec(w)) == Potential(w)
  {
    var mid := Proposed(w);
    SumPointwise(w.advs, Collected, mid.advs, Collected);
    CommitUpToConserves(mid, |w.advs|);
  }

  /**
   * The contest rule: an adventurer whose target is also proposed by an
   * adventurer of another name keeps its cursor and orientation; any other
   * advances its cursor by one and adopts the proposed orientation.
   */
  lemma TickContestRule(w: World, i: nat)
    requires Valid(w) && AllReady(w.advs) && i < |w.advs|
    ensures var mid := Proposed(w).advs;
      var r := TickSpec(w).advs[i];
      && (Contested(mid, i) ==> r.step == w.advs[i].step && r.orientation == w.advs[i].orientation)
      && (!Contested(mid, i) ==> r.step == w.advs[i].step + 1 && r.orientation == mid[i].next.value.orientation)
  {
    CommitUpToEffects(Proposed(w), |w.advs|);
  }

  /**
   * The move rule: an adventurer changes cell only to its proposed target, only
   * when that target is not a mountain, whether contested or not; it picks up
   * at most one unit of treasure, and only by moving.
   */
  lemma TickMoveRule(w: World, i: nat)
    requires Valid(w) && AllReady(w.advs) && i < |w.advs|
    ensures var p := Proposed(w).advs[i].next.value;
      var a := w.advs[i];
      var r := TickSpec(w).advs[i];
      var moved := r.posX != a.posX || r.posY != a.posY;
      && (moved <==> !w.board[p.posY][p.posX].Mountain? && (a.posX != p.posX || a.posY != p.posY))
      && (moved ==> r.posX == p.posX && r.posY == p.posY)
      && (r.treasuresCollected == a.treasuresCollected
          || (moved && r.treasuresCollected == a.treasuresCollected + 1))
  {
    CommitUpToEffects(Proposed(w), |w.advs|);
  }

  /** The cursor never moves back and advances by at most one per tick (index.js:148). */
  lemma TickStepMonotonic(w: World, i: nat)
    requires Valid(w) && AllReady(w.advs) && i < |w.advs|
    ensures w.advs[i].step <= TickSpec(w).advs[i].step <= w.advs[i].step + 1
  {
    TickContestRule(w, i);
  }

  /** After a tick every adventurer stands on its proposed cell or that cell is a mountain. */
  lemma TickSettles(w: World, i: nat)
    requires Valid(w) && AllReady(w.advs) && i < |w.advs|
    ensures Settled(TickSpec(w).advs[i], TickSpec(w).board)
  {
    CommitUpToEffects(Proposed(w), |w.advs|);
  }

  /**
   * A finished adventurer keeps its stale proposal (index.js:104) and still
   * takes part in the commit pass, but once settled it never moves or collects
   * again; only its cursor can keep advancing past the end.
   */
  lemma FinishedAdventurerStaysPut(w: World, i: nat)
    requires Valid(w) && AllReady(w.advs) && i < |w.advs|
    requires !Active(w.advs[i]) && Settled(w.advs[i], w.board)
    ensures var r := TickSpec(w).advs[i];
      && r.posX == w.advs[i].posX && r.posY == w.advs[i].posY
      && r.treasuresCollected == w.advs[i].treasuresCollected
      && r.next == w.advs[i].next
      && r.step >= w.advs[i].step
  {
    assert Proposed(w).advs[i] == w.advs[i];
    CommitUpToEffects(Proposed(w), |w.advs|);
  }

  /** Adventurer `a` does not stand on a mountain cell of `b`. */
  predicate OffMountain(b: Board, a: Adventurer)
    requires Rect(b) && InBounds(b, a.posX, a.posY)
  {
    !b[a.posY][a.posX].Mountain?
  }

  /** No adventurer stands on a mountain cell. */
  predicate OffMountains(w: World)
    requires Valid(w)
  {
    forall i :: 0 <= i < |w.advs| ==> OffMountain(w.board, w.advs[i])
  }

  /** A tick never moves an adventurer onto a mountain (the test of index.js:125). */
  lemma TickKeepsOffMountains(w: World)
    requires Valid(w) && AllReady(w.advs) && OffMountains(w)
    ensures OffMountains(TickSpec(w))
  {
    TickKeepsMountains(w);
    forall i | 0 <= i < |w.advs|
      ensures OffMountain(TickSpec(w).board, TickSpec(w).advs[i])
    {
      TickMoveRule(w, i);
    }
  }

  /** What every tick keeps: cursors, mountains and, on a well-formed map, the treasure. */
  lemma TickPreserves(w: World)
    requires Valid(w) && AllReady(w.advs)
    ensures forall i :: 0 <= i < |w.advs| ==> TickSpec(w).advs[i].step >= w.advs[i].step
    ensures forall y, x :: 0 <= y < |w.board| && 0 <= x < |w.board[y]| ==>
      (TickSpec(w).board[y][x].Mountain? <==> w.board[y][x].Mountain?)
    ensures PositiveCounts(w.board) ==>
      PositiveCounts(TickSpec(w).board) && Potential(TickSpec(w)) == Potential(w)
  {
    forall i | 0 <= i < |w.advs| ensures TickSpec(w).advs[i].step >= w.advs[i].step {
      TickStepMonotonic(w, i);
    }
    TickKeepsMountains(w);
    if PositiveCounts(w.board) {
      TickConservesTreasure(w);
    }
  }
}
