/**
 * The treasure map (the source's `map`, a list of rows indexed `map[y][x]`).
 *
 * The source stores a cell as the text `.`, `M` or `T(n)`; here it is a datatype.
 * `Board` is the value view of the grid used by the specification functions;
 * the imperative code works on an `array2<Cell>` whose first dimension is the
 * row (`y`) and whose second is the column (`x`).
 */
module Board {

  datatype Cell = Empty | Mountain | Treasure(n: int)

  type Board = seq<seq<Cell>>

  /** `map.length` */
  function Height(b: Board): nat {
    |b|
  }

  /** `map[0].length`: the width is read off the first row. */
  function Width(b: Board): nat {
    if |b| == 0 then 0 else |b[0]|
  }

  /** Every row as long as the first. */
  predicate Rect(b: Board) {
    forall y :: 0 <= y < |b| ==> |b[y]| == Width(b)
  }

  predicate InGrid(width: int, height: int, x: int, y: int) {
    0 <= x < width && 0 <= y < height
  }

  predicate InBounds(b: Board, x: int, y: int) {
    InGrid(Width(b), Height(b), x, y)
  }

  /** Units of treasure lying in a cell. */
  function Count(c: Cell): int {
    if c.Treasure? then c.n else 0
  }

  /** A treasure cell holds at least one unit, as every treasure record of a well-formed input does. */
  predicate PositiveCell(c: Cell) {
    c.Treasure? ==> c.n >= 1
  }

  predicate PositiveCounts(b: Board) {
    forall y, x :: 0 <= y < |b| && 0 <= x < |b[y]| ==> PositiveCell(b[y][x])
  }

  function Sum<T>(s: seq<T>, f: T -> int): int {
    if |s| == 0 then 0 else f(s[0]) + Sum(s[1..], f)
  }

  /** Replacing one element changes a sum by the difference of the two values. */
  lemma {:induction false} SumUpdate<T>(s: seq<T>, k: nat, v: T, f: T -> int)
    requires k < |s|
    ensures Sum(s[k := v], f) == Sum(s, f) - f(s[k]) + f(v)
  {
    if k == 0 {
      assert s[k := v][1..] == s[1..];
    } else {
      SumUpdate(s[1..], k - 1, v, f);
      assert s[k := v][1..] == s[1..][k - 1 := v];
    }
  }

  /** Sums agree when the summed values agree element by element. */
  lemma {:induction false} SumPointwise<T, U>(s: seq<T>, f: T -> int, t: seq<U>, g: U -> int)
    requires |s| == |t|
    requires forall i :: 0 <= i < |s| ==> f(s[i]) == g(t[i])
    ensures Sum(s, f) == Sum(t, g)
  {
    if |s| > 0 {
      SumPointwise(s[1..], f, t[1..], g);
    }
  }

  /** A sum of non-negative values is non-negative. */
  lemma {:induction false} SumNonNegative<T>(s: seq<T>, f: T -> int)
    requires forall i :: 0 <= i < |s| ==> f(s[i]) >= 0
    ensures Sum(s, f) >= 0
  {
    if |s| > 0 {
      SumNonNegative(s[1..], f);
    }
  }

  function RowTotal(row: seq<Cell>): int {
    Sum(row, Count)
  }

  /** Units of treasure left on the whole map. */
  function BoardTotal(b: Board): int {
    Sum(b, RowTotal)
  }

  lemma BoardTotalNonNegative(b: Board)
    requires PositiveCounts(b)
    ensures BoardTotal(b) >= 0
  {
    forall y | 0 <= y < |b|
      ensures RowTotal(b[y]) >= 0
    {
      SumNonNegative(b[y], Count);
    }
    SumNonNegative(b, RowTotal);
  }

  /** `map[y][x] = c` */
  function SetCell(b: Board, x: int, y: int, c: Cell): (r: Board)
    requires Rect(b) && InBounds(b, x, y)
    ensures Rect(r) && Height(r) == Height(b) && Width(r) == Width(b)
    ensures r[y][x] == c
    ensures forall y', x' :: 0 <= y' < |b| && 0 <= x' < |b[y']| && (y' != y || x' != x) ==> r[y'][x'] == b[y'][x']
  {
    b[y := b[y][x := c]]
  }

  /** Writing a cell changes the total by the difference of the two counts. */
  lemma SetCellTotal(b: Board, x: int, y: int, c: Cell)
    requires Rect(b) && InBounds(b, x, y)
    ensures BoardTotal(SetCell(b, x, y, c)) == BoardTotal(b) - Count(b[y][x]) + Count(c)
  {
    SumUpdate(b[y], x, c, Count);
    SumUpdate(b, y, b[y][x := c], RowTotal);
  }

  /** Two rectangular boards with the same dimensions and the same cells are equal. */
  lemma BoardExt(b: Board, b': Board)
    requires Rect(b) && Rect(b') && Height(b) == Height(b') && Width(b) == Width(b')
    requires forall y, x :: 0 <= y < |b| && 0 <= x < |b[y]| ==> b[y][x] == b'[y][x]
    ensures b == b'
  {
    forall y | 0 <= y < |b|
      ensures b[y] == b'[y]
    {
      assert |b[y]| == |b'[y]|;
    }
  }

  /** The value of a grid array. */
  ghost function BoardOf(g: array2<Cell>): (b: Board)
    reads g
    ensures Height(b) == g.Length0 && Rect(b)
    ensures g.Length0 > 0 ==> Width(b) == g.Length1
    ensures forall y :: 0 <= y < g.Length0 ==> |b[y]| == g.Length1
    ensures forall y, x :: 0 <= y < g.Length0 && 0 <= x < g.Length1 ==> b[y][x] == g[y, x]
  {
    seq(g.Length0, y requires 0 <= y < g.Length0 reads g =>
      seq(g.Length1, x requires 0 <= x < g.Length1 reads g => g[y, x]))
  }
}
