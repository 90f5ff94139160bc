/**
 * One adventurer and the two per-adventurer steps of a tick: the proposal made
 * from the current directive (index.js:94-106, with `getNextPosition` at
 * index.js:156-175) and the commit of that proposal (index.js:111-149).
 */
module Adventurers {
  import opened Wrappers
  import opened Orientation
  import opened Board

  /** The source's `nextPosition`: a target cell and the orientation to adopt. */
  datatype Proposal = Proposal(posX: int, posY: int, orientation: int)

  /**
   * The source's adventurer record. `moves` is `movementSequence`, `step` the
   * cursor into it, and `next` the last proposal made (absent until the first
   * proposal, where the source has `undefined`).
   */
  datatype Adventurer = Adventurer(
    name: string,
    posX: int,
    posY: int,
    orientation: int,
    moves: string,
    step: nat,
    treasuresCollected: nat,
    next: Option<Proposal>)

  /** `movementSequence[step]`, which is `undefined` once the cursor is past the end. */
  function Directive(a: Adventurer): Option<char> {
    if a.step < |a.moves| then Some(a.moves[a.step]) else None
  }

  /** The adventurer still has directives to execute (the condition of index.js:92). */
  predicate Active(a: Adventurer) {
    a.step < |a.moves|
  }

  /** One of the three directives the propose pass acts on. */
  predicate Proposes(d: Option<char>) {
    d == Some('A') || d == Some('D') || d == Some('G')
  }

  /** After the propose pass this adventurer has a proposal to commit. */
  predicate Ready(a: Adventurer) {
    a.next.Some? || Proposes(Directive(a))
  }

  /** The position, and the proposal if there is one, lie on a `width` x `height` grid. */
  predicate Placed(a: Adventurer, width: int, height: int) {
    && InGrid(width, height, a.posX, a.posY)
    && (a.next.Some? ==> InGrid(width, height, a.next.value.posX, a.next.value.posY))
  }

  /** The unit step of each orientation; no step for a value outside the encoding. */
  function Delta(o: int): (int, int) {
    if o == NORTH then (0, -1)
    else if o == EAST then (1, 0)
    else if o == SOUTH then (0, 1)
    else if o == WEST then (-1, 0)
    else (0, 0)
  }

  function Max(a: int, b: int): int {
    if a >= b then a else b
  }

  function Min(a: int, b: int): int {
    if a <= b then a else b
  }

  /**
   * `getNextPosition`: one cell forward, clamped to the grid. `width` is
   * `map[0].length` and `height` is `map.length`.
   */
  function GetNextPosition(width: int, height: int, a: Adventurer): (p: Proposal)
    ensures p.orientation == a.orientation
    ensures InGrid(width, height, a.posX, a.posY) ==> InGrid(width, height, p.posX, p.posY)
    ensures InGrid(width, height, a.posX, a.posY) ==>
      var (dx, dy) := Delta(a.orientation);
      if InGrid(width, height, a.posX + dx, a.posY + dy)
      then p.posX == a.posX + dx && p.posY == a.posY + dy
      else p.posX == a.posX && p.posY == a.posY
  {
    if a.orientation == NORTH then
      Proposal(a.posX, Max(0, a.posY - 1), NORTH)
    else if a.orientation == EAST then
      Proposal(Min(width - 1, a.posX + 1), a.posY, EAST)
    else if a.orientation == SOUTH then
      Proposal(a.posX, Min(height - 1, a.posY + 1), SOUTH)
    else if a.orientation == WEST then
      Proposal(Max(0, a.posX - 1), a.posY, WEST)
    else
      Proposal(a.posX, a.posY, a.orientation)
  }

  /** The propose pass for one adventurer (index.js:94-106). */
  function ProposeOne(a: Adventurer, width: int, height: int): (r: Adventurer)
    // only the proposal changes
    ensures r.(next := a.next) == a
    // finished adventurers and unknown directives keep the previous proposal
    ensures !Proposes(Directive(a)) ==> r == a
    ensures Ready(a) ==> r.next.Some?
    // a turn keeps the position; a forward step keeps the orientation
    ensures Directive(a) == Some('D') || Directive(a) == Some('G') ==>
      r.next.Some? && r.next.value.posX == a.posX && r.next.value.posY == a.posY
    ensures Directive(a) == Some('D') ==> r.next.value.orientation == TurnRight(a.orientation)
    ensures Directive(a) == Some('G') ==> r.next.value.orientation == TurnLeft(a.orientation)
    ensures Directive(a) == Some('A') ==> r.next == Some(GetNextPosition(width, height, a))
    ensures IsOrientation(a.orientation) && Proposes(Directive(a)) ==> IsOrientation(r.next.value.orientation)
    ensures Placed(a, width, height) ==> Placed(r, width, height)
  {
    var d := Directive(a);
    if d == Some('A') then
      a.(next := Some(GetNextPosition(width, height, a)))
    else if d == Some('D') then
      a.(next := Some(Proposal(a.posX, a.posY, TurnRight(a.orientation))))
    else if d == Some('G') then
      a.(next := Some(Proposal(a.posX, a.posY, TurnLeft(a.orientation))))
    else
      a
  }

  /** The adventurer stands on the cell it proposed, or that cell is a mountain. */
  predicate Settled(a: Adventurer, b: Board) {
    && a.next.Some?
    && Rect(b)
    && InBounds(b, a.next.value.posX, a.next.value.posY)
    && ((a.posX == a.next.value.posX && a.posY == a.next.value.posY)
        || b[a.next.value.posY][a.next.value.posX].Mountain?)
  }

  /**
   * The commit of one adventurer's proposal (index.js:111-149), given the
   * current content of the target cell and whether another adventurer claims
   * that cell. Returns the updated adventurer and the new content of the cell.
   */
  function CommitOne(a: Adventurer, cell: Cell, contested: bool): (r: (Adventurer, Cell))
    requires a.next.Some?
    // name, directives and proposal are untouched
    ensures r.0.name == a.name && r.0.moves == a.moves && r.0.next == a.next
    // contest rule: a contested adventurer keeps its cursor and orientation
    ensures contested ==> r.0.step == a.step && r.0.orientation == a.orientation
    ensures !contested ==> r.0.step == a.step + 1 && r.0.orientation == a.next.value.orientation
    // move rule: it moves exactly when the target is passable and is another cell,
    // whether contested or not, and it can only move onto the target
    ensures (r.0.posX != a.posX || r.0.posY != a.posY) <==>
      !cell.Mountain? && (a.posX != a.next.value.posX || a.posY != a.next.value.posY)
    ensures r.0.posX == a.posX || r.0.posX == a.next.value.posX
    ensures r.0.posY == a.posY || r.0.posY == a.next.value.posY
    ensures !cell.Mountain? ==> r.0.posX == a.next.value.posX && r.0.posY == a.next.value.posY
    // afterwards it stands on its target or its target is a mountain
    ensures (r.0.posX == a.next.value.posX && r.0.posY == a.next.value.posY) || cell.Mountain?
    // collection: one unit per arrival on a treasure, the cell decremented or cleared
    ensures r.0.treasuresCollected == a.treasuresCollected + 1 <==>
      cell.Treasure? && (a.posX != a.next.value.posX || a.posY != a.next.value.posY)
    ensures r.0.treasuresCollected == a.treasuresCollected + 1 ==>
      r.1 == if cell.n > 1 then Treasure(cell.n - 1) else Empty
    ensures r.0.treasuresCollected != a.treasuresCollected + 1 ==>
      r.0.treasuresCollected == a.treasuresCollected && r.1 == cell
    // mountains are never created or removed; treasure is conserved
    ensures r.1.Mountain? <==> cell.Mountain?
    ensures PositiveCell(cell) ==>
      PositiveCell(r.1) && Count(r.1) + r.0.treasuresCollected == Count(cell) + a.treasuresCollected
  {
    var p := a.next.value;
    var advance := !cell.Mountain? && (a.posX != p.posX || a.posY != p.posY);
    var collect := advance && cell.Treasure?;
    var committed := Adventurer(
      a.name,
      if advance then p.posX else a.posX,
      if advance then p.posY else a.posY,
      if contested then a.orientation else p.orientation,
      a.moves,
      if contested then a.step else a.step + 1,
      if collect then a.treasuresCollected + 1 else a.treasuresCollected,
      a.next);
    var rest := if !collect then cell else if cell.n > 1 then Treasure(cell.n - 1) else Empty;
    (committed, rest)
  }
}
