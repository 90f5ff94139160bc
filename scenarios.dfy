/** Concrete runs of the tick, worked out by the verifier. */
module Scenarios {
  import opened Wrappers
  import opened Orientation
  import opened Board
  import opened Adventurers
  import opened Simulation
  import opened SimulationRun

  /**
   * A 4 x 3 map with a mountain at (1, 0) and one treasure at (0, 2); one
   * adventurer at (0, 0) facing south with directives `AA` walks down twice,
   * picks up the treasure and empties its cell.
   */
  lemma WalkSouthCollects()
    ensures var b := [[Empty, Mountain, Empty, Empty],
                      [Empty, Empty, Empty, Empty],
                      [Treasure(1), Empty, Empty, Empty]];
      var r := Run(World(b, [Adventurer("A1", 0, 0, SOUTH, "AA", 0, 0, None)]), 2);
      && r.advs[0].posX == 0 && r.advs[0].posY == 2
      && r.advs[0].orientation == SOUTH
      && r.advs[0].treasuresCollected == 1
      && r.board[2][0] == Empty
      && AllDone(r.advs)
  {
    var b := [[Empty, Mountain, Empty, Empty],
              [Empty, Empty, Empty, Empty],
              [Treasure(1), Empty, Empty, Empty]];
    var w0 := World(b, [Adventurer("A1", 0, 0, SOUTH, "AA", 0, 0, None)]);
    var p1 := Proposed(w0);
    assert p1.advs[0].next == Some(Proposal(0, 1, SOUTH));
    assert !Contested(p1.advs, 0);
    var w1 := TickSpec(w0);
    assert w1.advs == [Adventurer("A1", 0, 1, SOUTH, "AA", 1, 0, Some(Proposal(0, 1, SOUTH)))];
    assert w1.board == SetCell(b, 0, 1, Empty);
    assert b[1][0 := Empty] == b[1];
    var p2 := Proposed(w1);
    assert p2.advs[0].next == Some(Proposal(0, 2, SOUTH));
    assert !Contested(p2.advs, 0);
    var w2 := TickSpec(w1);
    assert w2.advs == [Adventurer("A1", 0, 2, SOUTH, "AA", 2, 1, Some(Proposal(0, 2, SOUTH)))];
    assert w2.board == SetCell(b, 0, 2, Empty);
    assert Run(w0, 2) == Ticks(w0, 2) == Ticks(w1, 1) == Ticks(w2, 0) == w2;
  }

  /** Two adventurers facing west on a 2 x 1 map, the first already against the edge. */
  function EdgeStart(): World {
    World([[Empty, Empty]],
          [Adventurer("Bob", 0, 0, WEST, "A", 0, 0, None),
           Adventurer("Eve", 1, 0, WEST, "A", 0, 0, None)])
  }

  /** Both of them on (0, 0), both proposing (0, 0), neither cursor advanced. */
  function EdgeStuck(): World {
    World([[Empty, Empty]],
          [Adventurer("Bob", 0, 0, WEST, "A", 0, 0, Some(Proposal(0, 0, WEST))),
           Adventurer("Eve", 0, 0, WEST, "A", 0, 0, Some(Proposal(0, 0, WEST)))])
  }

  /**
   * On the first tick both propose (0, 0): the clamped step of the first and
   * the real step of the second. Both are contested, yet the second still
   * moves in; neither cursor advances.
   */
  lemma ContestedAdventurerStillMoves()
    ensures TickSpec(EdgeStart()) == EdgeStuck()
  {
    var p := Proposed(EdgeStart());
    assert p.advs[0].next == Some(Proposal(0, 0, WEST));
    assert p.advs[1].next == Some(Proposal(0, 0, WEST));
    assert Claims(p.advs[1], 0, 0, "Bob");
    assert Claims(p.advs[0], 0, 0, "Eve");
    assert Contested(p.advs, 0);
    var c1 := CommitAt(p, 0);
    assert c1.advs[0] == EdgeStuck().advs[0];
    assert Contested(c1.advs, 1) by {
      assert Claims(c1.advs[0], 0, 0, "Eve");
    }
    var c2 := CommitAt(c1, 1);
    assert c2.advs == EdgeStuck().advs;
    assert [Empty, Empty][0 := Empty] == [Empty, Empty];
    assert c2.board == EdgeStuck().board;
  }

  /** From then on every tick repeats the same contest: the state is a fixed point. */
  lemma EdgeStuckIsFixedPoint()
    ensures TickSpec(EdgeStuck()) == EdgeStuck()
  {
    var p := Proposed(EdgeStuck());
    assert p == EdgeStuck();
    assert Contested(p.advs, 0) by {
      assert Claims(p.advs[1], 0, 0, "Bob");
    }
    var c1 := CommitAt(p, 0);
    assert c1.advs == p.advs;
    assert [Empty, Empty][0 := Empty] == [Empty, Empty];
    assert c1.board == p.board;
    assert Contested(c1.advs, 1) by {
      assert Claims(c1.advs[0], 0, 0, "Eve");
    }
  }

  /** So the loop of index.js:92 never exits on this input, whatever the tick budget. */
  lemma EdgeDeadlockNeverFinishes(fuel: nat)
    ensures !AllDone(Run(EdgeStart(), fuel).advs)
  {
    ContestedAdventurerStillMoves();
    EdgeStuckIsFixedPoint();
    assert Active(EdgeStuck().advs[0]);
    RunNeverFinishesOnceStuck(EdgeStart(), EdgeStuck(), fuel, 0);
  }
}
