/**
 * One tick of `simulateAdventurersMoves` (index.js:92-151): the propose pass
 * and the commit pass.
 *
 * The specification is written on values: a `World` is the map and the
 * adventurer list, and `TickSpec` is one tick (the propose pass, then the
 * commit pass as a fold over the list in array order). The methods do the
 * same work in place on an `array2<Cell>` and an `array<Adventurer>` and are
 * proved equal to those functions.
 */
module Simulation {
  import opened Wrappers
  import opened Board
  import opened Adventurers

  datatype World = World(board: Board, advs: seq<Adventurer>)

  /** A rectangular map with every adventurer and every proposal on it. */
  predicate Valid(w: World) {
    && Rect(w.board)
    && forall i :: 0 <= i < |w.advs| ==> Placed(w.advs[i], Width(w.board), Height(w.board))
  }

  predicate AllReady(advs: seq<Adventurer>) {
    forall i :: 0 <= i < |advs| ==> Ready(advs[i])
  }

  predicate AllProposed(advs: seq<Adventurer>) {
    forall i :: 0 <= i < |advs| ==> advs[i].next.Some?
  }

  /** Every cursor has reached the end of its directives: the loop of index.js:92 exits. */
  predicate AllDone(advs: seq<Adventurer>) {
    forall i :: 0 <= i < |advs| ==> !Active(advs[i])
  }

  /** Two lists with the same names, directives and proposals, element by element. */
  predicate SamePlans(xs: seq<Adventurer>, ys: seq<Adventurer>) {
    && |xs| == |ys|
    && forall i :: 0 <= i < |xs| ==>
         xs[i].name == ys[i].name && xs[i].moves == ys[i].moves && xs[i].next == ys[i].next
  }

  /** Adventurer `b` proposed cell (x, y) and is not named `name` (the test of index.js:117-120). */
  predicate Claims(b: Adventurer, x: int, y: int, name: string) {
    b.next.Some? && b.next.value.posX == x && b.next.value.posY == y && b.name != name
  }

  /** Another-named adventurer proposed the same cell as adventurer `i` (index.js:116-121). */
  predicate Contested(advs: seq<Adventurer>, i: int)
    requires 0 <= i < |advs| && advs[i].next.Some?
  {
    exists j :: 0 <= j < |advs| && Claims(advs[j], advs[i].next.value.posX, advs[i].next.value.posY, advs[i].name)
  }

  /** Units one adventurer carries. */
  function Collected(a: Adventurer): int {
    a.treasuresCollected
  }

  /** Treasure on the map plus treasure carried by the adventurers. */
  function Potential(w: World): int {
    BoardTotal(w.board) + Sum(w.advs, Collected)
  }

  /** The propose pass (index.js:93-107): every adventurer proposes independently. */
  function ProposeAll(advs: seq<Adventurer>, width: int, height: int): (r: seq<Adventurer>)
    ensures |r| == |advs|
    ensures forall i :: 0 <= i < |advs| ==> r[i] == ProposeOne(advs[i], width, height)
  {
    seq(|advs|, i requires 0 <= i < |advs| => ProposeOne(advs[i], width, height))
  }

  /** Commit adventurer `k` against the current map and the current list. */
  function CommitAt(w: World, k: nat): (r: World)
    requires Valid(w) && k < |w.advs| && w.advs[k].next.Some?
    ensures Valid(r) && Height(r.board) == Height(w.board) && Width(r.board) == Width(w.board)
    ensures SamePlans(w.advs, r.advs)
    ensures forall j :: 0 <= j < |w.advs| && j != k ==> r.advs[j] == w.advs[j]
    ensures forall y, x :: 0 <= y < |w.board| && 0 <= x < |w.board[y]| ==>
      (r.board[y][x].Mountain? <==> w.board[y][x].Mountain?)
  {
    var a := w.advs[k];
    var p := a.next.value;
    var (a', c') := CommitOne(a, w.board[p.posY][p.posX], Contested(w.advs, k));
    World(SetCell(w.board, p.posX, p.posY, c'), w.advs[k := a'])
  }

  /** The commit pass (index.js:110-150) over the first `k` adventurers, in array order. */
  function CommitUpTo(w: World, k: nat): (r: World)
    requires Valid(w) && AllProposed(w.advs) && k <= |w.advs|
    ensures Valid(r) && Height(r.board) == Height(w.board) && Width(r.board) == Width(w.board)
    ensures SamePlans(w.advs, r.advs) && AllProposed(r.advs)
    decreases k
  {
    if k == 0 then w else CommitAt(CommitUpTo(w, k - 1), k - 1)
  }

  /** The world between the two passes of a tick: every adventurer has proposed. */
  function Proposed(w: World): (r: World)
    requires Valid(w) && AllReady(w.advs)
    ensures Valid(r) && AllProposed(r.advs) && r.board == w.board && |r.advs| == |w.advs|
  {
    World(w.board, ProposeAll(w.advs, Width(w.board), Height(w.board)))
  }

  /** One iteration of the loop at index.js:92: propose for all, then commit for all. */
  function TickSpec(w: World): (r: World)
    requires Valid(w) && AllReady(w.advs)
    ensures Valid(r) && AllProposed(r.advs) && AllReady(r.advs)
    ensures Height(r.board) == Height(w.board) && Width(r.board) == Width(w.board)
    ensures |r.advs| == |w.advs|
  {
    CommitUpTo(Proposed(w), |w.advs|)
  }

  /**
   * `adventurers.find(...)` at index.js:116-121: the first adventurer that
   * claims cell (x, y) under another name.
   */
  method FindContender(advs: array<Adventurer>, x: int, y: int, name: string) returns (found: Option<nat>)
    requires AllProposed(advs[..])
    ensures found.Some? ==> found.value < advs.Length && Claims(advs[found.value], x, y, name)
    ensures found.Some? ==> forall j :: 0 <= j < found.value ==> !Claims(advs[j], x, y, name)
    ensures found.None? ==> forall j :: 0 <= j < advs.Length ==> !Claims(advs[j], x, y, name)
  {
    var j := 0;
    while j < advs.Length
      invariant 0 <= j <= advs.Length
      invariant forall i :: 0 <= i < j ==> !Claims(advs[i], x, y, name)
    {
      var adv := advs[j];
      if adv.next.value.posX == x && adv.next.value.posY == y && adv.name != name {
        return Some(j);
      }
      j := j + 1;
    }
    return None;
  }

  /** `adventurers.some(...)` at index.js:92. */
  method AnyActive(advs: array<Adventurer>) returns (active: bool)
    ensures active <==> !AllDone(advs[..])
  {
    var j := 0;
    while j < advs.Length
      invariant 0 <= j <= advs.Length
      invariant forall i :: 0 <= i < j ==> !Active(advs[i])
    {
      if advs[j].step < |advs[j].moves| {
        return true;
      }
      j := j + 1;
    }
    return false;
  }

  /** The propose pass (index.js:93-107), in place. */
  method ProposePass(advs: array<Adventurer>, width: int, height: int)
    modifies advs
    ensures advs[..] == ProposeAll(old(advs[..]), width, height)
  {
    var i := 0;
    while i < advs.Length
      invariant 0 <= i <= advs.Length
      invariant forall j :: 0 <= j < i ==> advs[j] == ProposeOne(old(advs[j]), width, height)
      invariant forall j :: i <= j < advs.Length ==> advs[j] == old(advs[j])
    {
      var a := advs[i];
      var d := if a.step < |a.moves| then Some(a.moves[a.step]) else None;
      if d == Some('A') {
        advs[i] := a.(next := Some(GetNextPosition(width, height, a)));
      } else if d == Some('D') {
        advs[i] := a.(next := Some(Proposal(a.posX, a.posY, Orientation.TurnRight(a.orientation))));
      } else if d == Some('G') {
        advs[i] := a.(next := Some(Proposal(a.posX, a.posY, Orientation.TurnLeft(a.orientation))));
      }
      i := i + 1;
    }
  }

  /** The body of the commit `forEach` (index.js:111-149) for adventurer `i`, in place. */
  method CommitAdventurer(grid: array2<Cell>, advs: array<Adventurer>, i: nat)
    requires Valid(World(BoardOf(grid), advs[..])) && AllProposed(advs[..]) && i < advs.Length
    modifies grid, advs
    ensures World(BoardOf(grid), advs[..]) == CommitAt(old(World(BoardOf(grid), advs[..])), i)
  {
    ghost var before := World(BoardOf(grid), advs[..]);
    var a := advs[i];
    var p := a.next.value;
    var nextCell := grid[p.posY, p.posX];
    var contender := FindContender(advs, p.posX, p.posY, a.name);
    assert contender.None? <==> !Contested(before.advs, i);
    if !nextCell.Mountain? && (a.posX != p.posX || a.posY != p.posY) {
      a := a.(posX := p.posX, posY := p.posY);
      if nextCell.Treasure? {
        a := a.(treasuresCollected := a.treasuresCollected + 1);
        if nextCell.n > 1 {
          grid[p.posY, p.posX] := Treasure(nextCell.n - 1);
        } else {
          grid[p.posY, p.posX] := Empty;
        }
      }
    }
    if contender.None? {
      a := a.(orientation := p.orientation, step := a.step + 1);
    }
    advs[i] := a;
    BoardExt(BoardOf(grid), CommitAt(before, i).board);
  }

  /** The commit pass (index.js:110-150), in place, in array order. */
  method CommitPass(grid: array2<Cell>, advs: array<Adventurer>)
    requires Valid(World(BoardOf(grid), advs[..])) && AllProposed(advs[..])
    modifies grid, advs
    ensures World(BoardOf(grid), advs[..]) == CommitUpTo(old(World(BoardOf(grid), advs[..])), advs.Length)
  {
    ghost var start := World(BoardOf(grid), advs[..]);
    var i := 0;
    while i < advs.Length
      invariant 0 <= i <= advs.Length
      invariant World(BoardOf(grid), advs[..]) == CommitUpTo(start, i)
    {
      CommitAdventurer(grid, advs, i);
      i := i + 1;
    }
  }

  /** One tick (one iteration of index.js:92-151), in place. */
  method Tick(grid: array2<Cell>, advs: array<Adventurer>)
    requires Valid(World(BoardOf(grid), advs[..])) && AllReady(advs[..])
    modifies grid, advs
    ensures World(BoardOf(grid), advs[..]) == TickSpec(old(World(BoardOf(grid), advs[..])))
  {
    ghost var w0 := World(BoardOf(grid), advs[..]);
    var width, height := grid.Length1, grid.Length0;
    assert advs.Length > 0 ==> Placed(advs[0], Width(w0.board), Height(w0.board));
    ProposePass(advs, width, height);
    assert advs[..] == Proposed(w0).advs;
    assert BoardOf(grid) == w0.board;
    CommitPass(grid, advs);
  }
}
