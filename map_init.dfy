/**
 * The record-to-grid part of `initializeMap` (index.js:17-65). The records
 * arrive already split and converted to integers; the text parsing that
 * produces them is not part of this model.
 */
module MapInit {
  import opened Wrappers
  import opened Board

  /** A `C`, `M` or `T` line of the input, or any other line (ignored). */
  datatype Record =
    | MapSize(width: int, height: int)
    | MountainAt(x: int, y: int)
    | TreasureAt(x: int, y: int, count: int)
    | Other

  /** A collected mountain `{ x, y }` and treasure `{ x, y, count }` (index.js:34, 40). */
  datatype Spot = Spot(x: int, y: int)
  datatype Hoard = Hoard(x: int, y: int, count: int)

  /**
   * Why the source aborts: no `C` line leaves `mapDimensions` undefined
   * (a TypeError at index.js:50), and a negative width makes `Array(width)`
   * throw a RangeError (index.js:51).
   */
  datatype MapError = MissingSize | InvalidWidth

  /** The dimensions of the last `C` record. */
  function LastSize(rs: seq<Record>): Option<(int, int)>
    decreases |rs|
  {
    if |rs| == 0 then None
    else if rs[|rs| - 1].MapSize? then Some((rs[|rs| - 1].width, rs[|rs| - 1].height))
    else LastSize(rs[..|rs| - 1])
  }

  /** The mountain records, in input order. */
  function MountainsOf(rs: seq<Record>): seq<Spot>
    decreases |rs|
  {
    if |rs| == 0 then []
    else
      var rest := MountainsOf(rs[..|rs| - 1]);
      match rs[|rs| - 1]
      case MountainAt(x, y) => rest + [Spot(x, y)]
      case _ => rest
  }

  /** The treasure records, in input order. */
  function TreasuresOf(rs: seq<Record>): seq<Hoard>
    decreases |rs|
  {
    if |rs| == 0 then []
    else
      var rest := TreasuresOf(rs[..|rs| - 1]);
      match rs[|rs| - 1]
      case TreasureAt(x, y, c) => rest + [Hoard(x, y, c)]
      case _ => rest
  }

  /** The count of the last treasure at (x, y), if any. */
  function LastTreasure(ts: seq<Hoard>, x: int, y: int): Option<int>
    decreases |ts|
  {
    if |ts| == 0 then None
    else if ts[|ts| - 1].x == x && ts[|ts| - 1].y == y then Some(ts[|ts| - 1].count)
    else LastTreasure(ts[..|ts| - 1], x, y)
  }

  /** The cell written last: treasures are written after mountains, mountains over `.`. */
  function CellFrom(ms: seq<Spot>, ts: seq<Hoard>, x: int, y: int): Cell {
    match LastTreasure(ts, x, y)
    case Some(c) => Treasure(c)
    case None => if Spot(x, y) in ms then Mountain else Empty
  }

  /** The content `initializeMap` gives cell (x, y). */
  function ExpectedCell(rs: seq<Record>, x: int, y: int): Cell {
    CellFrom(MountainsOf(rs), TreasuresOf(rs), x, y)
  }

  /** A mountain or treasure record lies inside the `width` x `height` grid. */
  predicate Fits(r: Record, width: int, height: int) {
    match r
    case MountainAt(x, y) => InGrid(width, height, x, y)
    case TreasureAt(x, y, _) => InGrid(width, height, x, y)
    case _ => true
  }

  /** Every mountain and treasure record lies inside the grid of the last `C` record. */
  predicate RecordsFit(rs: seq<Record>) {
    match LastSize(rs)
    case None => true
    case Some((w, h)) => forall k :: 0 <= k < |rs| ==> Fits(rs[k], w, h)
  }

  /** The `forEach` of index.js:22-47: keep the last size, collect mountains and treasures. */
  method CollectRecords(rs: seq<Record>) returns (size: Option<(int, int)>, mountains: seq<Spot>, treasures: seq<Hoard>)
    ensures size == LastSize(rs)
    ensures mountains == MountainsOf(rs)
    ensures treasures == TreasuresOf(rs)
  {
    size, mountains, treasures := None, [], [];
    var i := 0;
    while i < |rs|
      invariant 0 <= i <= |rs|
      invariant size == LastSize(rs[..i])
      invariant mountains == MountainsOf(rs[..i])
      invariant treasures == TreasuresOf(rs[..i])
    {
      assert rs[..i + 1][..i] == rs[..i];
      match rs[i] {
        case MapSize(w, h) =>
          size := Some((w, h));
        case MountainAt(x, y) =>
          mountains := mountains + [Spot(x, y)];
        case TreasureAt(x, y, c) =>
          treasures := treasures + [Hoard(x, y, c)];
        case Other =>
      }
      i := i + 1;
    }
    assert rs[..|rs|] == rs;
  }

  /** Lay out a `height` x `width` grid of `.`, then write mountains, then treasures (index.js:50-62). */
  method BuildGrid(width: nat, height: nat, mountains: seq<Spot>, treasures: seq<Hoard>) returns (grid: array2<Cell>)
    requires forall i :: 0 <= i < |mountains| ==> InGrid(width, height, mountains[i].x, mountains[i].y)
    requires forall i :: 0 <= i < |treasures| ==> InGrid(width, height, treasures[i].x, treasures[i].y)
    ensures fresh(grid) && grid.Length0 == height && grid.Length1 == width
    ensures forall y, x :: 0 <= y < height && 0 <= x < width ==> grid[y, x] == CellFrom(mountains, treasures, x, y)
  {
    grid := new Cell[height, width]((y, x) => Empty);
    var m := 0;
    while m < |mountains|
      invariant 0 <= m <= |mountains|
      invariant forall y, x :: 0 <= y < height && 0 <= x < width ==>
        grid[y, x] == if Spot(x, y) in mountains[..m] then Mountain else Empty
    {
      assert mountains[..m + 1] == mountains[..m] + [mountains[m]];
      grid[mountains[m].y, mountains[m].x] := Mountain;
      m := m + 1;
    }
    assert mountains[..m] == mountains;
    var t := 0;
    while t < |treasures|
      invariant 0 <= t <= |treasures|
      invariant forall y, x :: 0 <= y < height && 0 <= x < width ==>
        grid[y, x] == CellFrom(mountains, treasures[..t], x, y)
    {
      assert treasures[..t + 1][..t] == treasures[..t];
      grid[treasures[t].y, treasures[t].x] := Treasure(treasures[t].count);
      t := t + 1;
    }
    assert treasures[..t] == treasures;
  }

  /** Every collected mountain and treasure comes from a record that fits the grid. */
  lemma {:induction false} CollectedFit(rs: seq<Record>, width: int, height: int)
    requires forall k :: 0 <= k < |rs| ==> Fits(rs[k], width, height)
    ensures forall i :: 0 <= i < |MountainsOf(rs)| ==>
      InGrid(width, height, MountainsOf(rs)[i].x, MountainsOf(rs)[i].y)
    ensures forall i :: 0 <= i < |TreasuresOf(rs)| ==>
      InGrid(width, height, TreasuresOf(rs)[i].x, TreasuresOf(rs)[i].y)
    decreases |rs|
  {
    if |rs| > 0 {
      CollectedFit(rs[..|rs| - 1], width, height);
      assert Fits(rs[|rs| - 1], width, height);
    }
  }

  /**
   * `initializeMap` on typed records: the grid has the dimensions of the last
   * `C` record and cell (x, y) holds `ExpectedCell(rs, x, y)`. A height of zero
   * or less gives a map with no rows.
   */
  method InitializeMap(rs: seq<Record>) returns (result: Result<array2<Cell>, MapError>)
    requires RecordsFit(rs)
    ensures LastSize(rs).None? ==> result == Err(MissingSize)
    ensures LastSize(rs).Some? ==>
      var (width, height) := LastSize(rs).value;
      && (height > 0 && width < 0 ==> result == Err(InvalidWidth))
      && (height <= 0 ==> result.Ok? && result.value.Length0 == 0)
      && (height > 0 && width >= 0 ==>
            && result.Ok? && result.value.Length0 == height && result.value.Length1 == width
            && forall y, x :: 0 <= y < height && 0 <= x < width ==>
                 result.value[y, x] == ExpectedCell(rs, x, y))
    ensures result.Ok? ==> fresh(result.value)
  {
    var size, mountains, treasures := CollectRecords(rs);
    if size.None? {
      return Err(MissingSize);
    }
    var (width, height) := size.value;
    if height <= 0 {
      var grid := new Cell[0, 0];
      return Ok(grid);
    }
    if width < 0 {
      return Err(InvalidWidth);
    }
    CollectedFit(rs, width, height);
    var grid := BuildGrid(width, height, mountains, treasures);
    return Ok(grid);
  }

  /** Only the last `C` record counts (index.js:28). */
  lemma {:induction false} LastSizeIsLastRecord(rs: seq<Record>, k: nat)
    requires k < |rs| && rs[k].MapSize?
    requires forall j :: k < j < |rs| ==> !rs[j].MapSize?
    ensures LastSize(rs) == Some((rs[k].width, rs[k].height))
    decreases |rs|
  {
    if k < |rs| - 1 {
      LastSizeIsLastRecord(rs[..|rs| - 1], k);
    }
  }

  /** Without a `C` record there are no dimensions. */
  lemma {:induction false} NoSizeRecord(rs: seq<Record>)
    ensures LastSize(rs).None? <==> forall k :: 0 <= k < |rs| ==> !rs[k].MapSize?
    decreases |rs|
  {
    if |rs| > 0 {
      NoSizeRecord(rs[..|rs| - 1]);
      assert forall k :: 0 <= k < |rs| - 1 ==> rs[..|rs| - 1][k] == rs[k];
    }
  }

  predicate TreasureRecordAt(r: Record, x: int, y: int) {
    r.TreasureAt? && r.x == x && r.y == y
  }

  /** A mountain is collected exactly when some record lists it. */
  lemma {:induction false} MountainListed(rs: seq<Record>, x: int, y: int)
    ensures Spot(x, y) in MountainsOf(rs) <==> exists k :: 0 <= k < |rs| && rs[k] == MountainAt(x, y)
    decreases |rs|
  {
    if |rs| > 0 {
      var init := rs[..|rs| - 1];
      MountainListed(init, x, y);
      if exists k :: 0 <= k < |init| && init[k] == MountainAt(x, y) {
        var k :| 0 <= k < |init| && init[k] == MountainAt(x, y);
        assert rs[k] == MountainAt(x, y);
      }
      if exists k :: 0 <= k < |rs| && rs[k] == MountainAt(x, y) {
        var k :| 0 <= k < |rs| && rs[k] == MountainAt(x, y);
        if k < |init| {
          assert init[k] == MountainAt(x, y);
        }
      }
    }
  }

  /** No treasure is collected at (x, y) exactly when no record puts one there. */
  lemma {:induction false} TreasureListed(rs: seq<Record>, x: int, y: int)
    ensures LastTreasure(TreasuresOf(rs), x, y).None? <==>
      forall k :: 0 <= k < |rs| ==> !TreasureRecordAt(rs[k], x, y)
    decreases |rs|
  {
    if |rs| > 0 {
      var init := rs[..|rs| - 1];
      TreasureListed(init, x, y);
      assert forall k :: 0 <= k < |init| ==> init[k] == rs[k];
    }
  }

  /**
   * The last treasure record at a cell decides it, whatever mountains or
   * earlier treasures were listed there: treasures are written after
   * mountains and a later record overwrites an earlier one (index.js:55-62).
   */
  lemma {:induction false} LastTreasureRecordWins(rs: seq<Record>, k: nat)
    requires k < |rs| && rs[k].TreasureAt?
    requires forall j :: k < j < |rs| ==> !TreasureRecordAt(rs[j], rs[k].x, rs[k].y)
    ensures ExpectedCell(rs, rs[k].x, rs[k].y) == Treasure(rs[k].count)
    decreases |rs|
  {
    if k < |rs| - 1 {
      var init := rs[..|rs| - 1];
      LastTreasureRecordWins(init, k);
    }
  }

  /** A mountain record stands when no treasure record shares its cell. */
  lemma MountainRecordStands(rs: seq<Record>, k: nat)
    requires k < |rs| && rs[k].MountainAt?
    requires forall j :: 0 <= j < |rs| ==> !TreasureRecordAt(rs[j], rs[k].x, rs[k].y)
    ensures ExpectedCell(rs, rs[k].x, rs[k].y) == Mountain
  {
    TreasureListed(rs, rs[k].x, rs[k].y);
    MountainListed(rs, rs[k].x, rs[k].y);
  }

  /** A cell no record mentions stays `.`. */
  lemma UnlistedCellEmpty(rs: seq<Record>, x: int, y: int)
    requires forall j :: 0 <= j < |rs| ==> rs[j] != MountainAt(x, y) && !TreasureRecordAt(rs[j], x, y)
    ensures ExpectedCell(rs, x, y) == Empty
  {
    TreasureListed(rs, x, y);
    MountainListed(rs, x, y);
  }

  /**
   * When every treasure record has a count of at least one, so does every
   * treasure cell of the new map, as treasure conservation over the run requires.
   */
  lemma {:induction false} InitialCellsPositive(rs: seq<Record>, x: int, y: int)
    requires forall k :: 0 <= k < |rs| && rs[k].TreasureAt? ==> rs[k].count >= 1
    ensures PositiveCell(ExpectedCell(rs, x, y))
    decreases |rs|
  {
    if |rs| > 0 {
      var init := rs[..|rs| - 1];
      assert forall k :: 0 <= k < |init| ==> init[k] == rs[k];
      InitialCellsPositive(init, x, y);
    }
  }
}
