/** The game board: ground truth about where the mines are, and the queries on it. */
module Minesweeper {
  import opened Cells
  import opened Wrappers

  /** height x width board. grid[i][j] is the per-cell flag the source keeps beside
      the set of mine cells; minesFound is the set the player has flagged. */
  datatype Board = Board(height: nat, width: nat, grid: seq<seq<bool>>,
                         mines: set<Cell>, minesFound: set<Cell>)

  /** The grid has the board's shape, every mine is on the board, and a grid
      entry is set exactly when its cell is in the mine set. */
  predicate Agrees(b: Board) {
    && |b.grid| == b.height
    && (forall i | 0 <= i < b.height :: |b.grid[i]| == b.width)
    && (forall m | m in b.mines :: InBounds(b.height, b.width, m))
    && (forall i, j | 0 <= i < b.height && 0 <= j < b.width :: b.grid[i][j] <==> (i, j) in b.mines)
  }

  /** All cells of a height x width board. */
  function BoardCells(height: nat, width: nat): set<Cell> {
    set i, j | 0 <= i < height && 0 <= j < width :: (i, j)
  }

  /** The first width cells of row i. */
  function RowCells(i: int, width: nat): set<Cell> {
    set j | 0 <= j < width :: (i, j)
  }

  lemma {:induction false} RowCellsCard(i: int, width: nat)
    ensures |RowCells(i, width)| == width
  {
    if width > 0 {
      RowCellsCard(i, width - 1);
      assert RowCells(i, width) == RowCells(i, width - 1) + {(i, width - 1)};
    }
  }

  /** A height x width board has height * width cells. */
  lemma {:induction false} BoardCellsCard(height: nat, width: nat)
    ensures |BoardCells(height, width)| == height * width
  {
    if height > 0 {
      BoardCellsCard(height - 1, width);
      RowCellsCard(height - 1, width);
      var above := BoardCells(height - 1, width);
      var row := RowCells(height - 1, width);
      assert BoardCells(height, width) == above + row;
      assert above !! row;
      assert (height - 1) * width + width == height * width;
    }
  }

  /** A board with no mines: the all-false grid the constructor starts from. */
  function EmptyBoard(height: nat, width: nat): (r: Board)
    ensures Agrees(r)
    ensures r.height == height && r.width == width
    ensures r.mines == {} && r.minesFound == {}
  {
    Board(height, width, seq(height, _ => seq(width, _ => false)), {}, {})
  }

  /** The board holding exactly the given mines. */
  function Build(height: nat, width: nat, mines: set<Cell>): (r: Board)
    requires forall m | m in mines :: InBounds(height, width, m)
    ensures Agrees(r)
    ensures r.height == height && r.width == width
    ensures r.mines == mines && r.minesFound == {}
  {
    Board(height, width, seq(height, i => seq(width, j => (i, j) in mines)), mines, {})
  }

  /** One step of the placement loop: c becomes a mine and its grid entry is set. */
  function Place(b: Board, c: Cell): (r: Board)
    requires Agrees(b) && InBounds(b.height, b.width, c)
    ensures Agrees(r)
    ensures r.mines == b.mines + {c}
    ensures r.height == b.height && r.width == b.width && r.minesFound == b.minesFound
  {
    b.(mines := b.mines + {c}, grid := b.grid[c.0 := b.grid[c.0][c.1 := true]])
  }

  /** The constructor's placement loop, with the cells drawn by the random
      source given as draws: a drawn cell whose grid entry is clear becomes a
      mine, a drawn cell that is already a mine is skipped, and the loop stops
      once there are target mines. None means the draws ran out first. */
  function PlaceMines(b: Board, draws: seq<Cell>, target: int): (r: Option<Board>)
    requires Agrees(b)
    requires forall k | 0 <= k < |draws| :: InBounds(b.height, b.width, draws[k])
    ensures |b.mines| == target ==> r == Some(b)
    ensures r.Some? ==> && Agrees(r.value)
                        && |r.value.mines| == target
                        && b.mines <= r.value.mines
                        && r.value.mines <= b.mines + Elems(draws)
                        && r.value.height == b.height && r.value.width == b.width
                        && r.value.minesFound == b.minesFound
    decreases |draws|
  {
    if |b.mines| == target then Some(b)
    else if |draws| == 0 then None
    else
      var c := draws[0];
      assert InBounds(b.height, b.width, c);
      var next := if b.grid[c.0][c.1] then b else Place(b, c);
      var r := PlaceMines(next, draws[1..], target);
      assert forall k | 0 <= k < |draws| - 1 :: draws[1..][k] == draws[k + 1];
      r
  }

  /** Two boards of the same shape and mine set that both keep the grid in
      agreement have the same grid: the grid carries nothing beyond the mines. */
  lemma AgreementDeterminesGrid(b: Board, c: Board)
    requires Agrees(b) && Agrees(c)
    requires b.height == c.height && b.width == c.width && b.mines == c.mines
    ensures b.grid == c.grid
  {
    forall i | 0 <= i < b.height
      ensures b.grid[i] == c.grid[i]
    {
      assert forall j | 0 <= j < b.width :: b.grid[i][j] == c.grid[i][j];
    }
  }

  /** A finished placement from the empty board is the board built from its mine set. */
  lemma PlacedBoardIsBuilt(height: nat, width: nat, draws: seq<Cell>, target: int)
    requires forall k | 0 <= k < |draws| :: InBounds(height, width, draws[k])
    ensures var r := PlaceMines(EmptyBoard(height, width), draws, target);
            r.Some? ==> r.value == Build(height, width, r.value.mines)
  {
    var r := PlaceMines(EmptyBoard(height, width), draws, target);
    if r.Some? {
      AgreementDeterminesGrid(r.value, Build(height, width, r.value.mines));
    }
  }

  /** Asking for more mines than cells never ends: no finite run of draws suffices. */
  lemma PlaceMinesNeedsRoom(b: Board, draws: seq<Cell>, target: int)
    requires Agrees(b)
    requires forall k | 0 <= k < |draws| :: InBounds(b.height, b.width, draws[k])
    requires target > b.height * b.width
    ensures PlaceMines(b, draws, target) == None
  {
    var r := PlaceMines(b, draws, target);
    if r.Some? {
      var all := BoardCells(b.height, b.width);
      assert r.value.mines <= all;
      SubsetCard(r.value.mines, all);
      BoardCellsCard(b.height, b.width);
      assert false;
    }
  }

  /** The draws are on the board, fresh, and pairwise distinct. */
  predicate FreshDraws(b: Board, draws: seq<Cell>) {
    && (forall k | 0 <= k < |draws| :: InBounds(b.height, b.width, draws[k]) && draws[k] !in b.mines)
    && (forall k, l | 0 <= k < l < |draws| :: draws[k] != draws[l])
  }

  /** Drawing target distinct fresh cells places exactly those cells. */
  lemma {:induction false} PlaceMinesDistinctDraws(b: Board, draws: seq<Cell>, target: int)
    requires Agrees(b) && FreshDraws(b, draws)
    requires target == |b.mines| + |draws|
    ensures PlaceMines(b, draws, target).Some?
    ensures PlaceMines(b, draws, target).value.mines == b.mines + Elems(draws)
    decreases |draws|
  {
    if |draws| == 0 {
      assert Elems(draws) == {};
    } else {
      var next := PlaceFirstDraw(b, draws, target);
      PlaceMinesDistinctDraws(next, draws[1..], target);
      ElemsHeadTail(b.mines, draws);
    }
  }

  /** The first of a run of fresh draws becomes a mine, and the rest stay fresh. */
  lemma PlaceFirstDraw(b: Board, draws: seq<Cell>, target: int) returns (next: Board)
    requires Agrees(b) && FreshDraws(b, draws)
    requires |draws| > 0 && target == |b.mines| + |draws|
    ensures Agrees(next) && FreshDraws(next, draws[1..])
    ensures next.mines == b.mines + {draws[0]}
    ensures target == |next.mines| + |draws[1..]|
    ensures PlaceMines(b, draws, target) == PlaceMines(next, draws[1..], target)
  {
    var c := draws[0];
    assert InBounds(b.height, b.width, c) && c !in b.mines;
    next := Place(b, c);
    var rest := draws[1..];
    forall k | 0 <= k < |rest|
      ensures InBounds(next.height, next.width, rest[k]) && rest[k] !in next.mines
    {
      assert rest[k] == draws[k + 1];
    }
    forall k, l | 0 <= k < l < |rest|
      ensures rest[k] != rest[l]
    {
      assert rest[k] == draws[k + 1] && rest[l] == draws[l + 1];
    }
  }

  /** Adding the head of a sequence to a set, then the rest, adds the whole sequence. */
  lemma ElemsHeadTail(placed: set<Cell>, s: seq<Cell>)
    requires |s| > 0
    ensures placed + Elems(s) == (placed + {s[0]}) + Elems(s[1..])
  {
    assert s == [s[0]] + s[1..];
    assert Elems(s) == {s[0]} + Elems(s[1..]);
  }

  /** Python's seq[i] on a sequence of length n: a negative i counts from the
      end, and an index outside [-n, n) raises IndexError (None here). */
  function PyIndex(n: nat, i: int): (r: Option<nat>)
    ensures r.Some? <==> -(n as int) <= i < n
    ensures r.Some? ==> r.value < n && (r.value == i || r.value == i + n)
  {
    if 0 <= i < n then Some(i)
    else if -(n as int) <= i < 0 then Some(i + n)
    else None
  }

  /** Under Python indexing, cell names board position m: each coordinate is
      either m's own or m's counted back from the end. */
  predicate Aliases(b: Board, cell: Cell, m: Cell) {
    && (m.0 == cell.0 || m.0 == cell.0 + b.height)
    && (m.1 == cell.1 || m.1 == cell.1 + b.width)
  }

  /** The grid lookup behind is_mine. None is the IndexError of a cell outside
      [-height, height) x [-width, width). */
  function IsMine(b: Board, cell: Cell): (r: Option<bool>)
    requires Agrees(b)
    ensures InBounds(b.height, b.width, cell) ==> r == Some(cell in b.mines)
    ensures r.None? <==> !(-(b.height as int) <= cell.0 < b.height && -(b.width as int) <= cell.1 < b.width)
    ensures r.Some? ==> (r.value <==> exists m | m in b.mines :: Aliases(b, cell, m))
  {
    match PyIndex(b.height, cell.0)
    case None => None
    case Some(i) =>
      match PyIndex(b.width, cell.1)
      case None => None
      case Some(j) => Some(b.grid[i][j])
  }

  /** The mines counted by nearby_mines: those adjacent to cell. */
  function NeighbourMines(b: Board, cell: Cell): set<Cell> {
    set m | m in b.mines && Adjacent(cell, m)
  }

  /** The mines adjacent to cell with a row before i, or in row i and a column before j:
      what the row-major scan of the 3 x 3 window has seen so far. */
  function Scanned(b: Board, cell: Cell, i: int, j: int): set<Cell> {
    set m | m in b.mines && Adjacent(cell, m) && (m.0 < i || (m.0 == i && m.1 < j))
  }

  /** One position of the scan: the seen set grows by that position exactly
      when it is a counted grid entry. */
  lemma ScanStep(b: Board, cell: Cell, i: int, j: int)
    requires Agrees(b)
    requires cell.0 - 1 <= i <= cell.0 + 1 && cell.1 - 1 <= j <= cell.1 + 1
    ensures |Scanned(b, cell, i, j + 1)| == |Scanned(b, cell, i, j)|
              + (if (i, j) != cell && 0 <= i < b.height && 0 <= j < b.width && b.grid[i][j] then 1 else 0)
  {
    var seen := Scanned(b, cell, i, j);
    if (i, j) != cell && 0 <= i < b.height && 0 <= j < b.width && b.grid[i][j] {
      assert Scanned(b, cell, i, j + 1) == seen + {(i, j)};
    } else {
      assert Scanned(b, cell, i, j + 1) == seen;
    }
  }

  /** Finishing a row of the window is starting the next one. */
  lemma ScanRowEnd(b: Board, cell: Cell, i: int)
    ensures Scanned(b, cell, i, cell.1 + 2) == Scanned(b, cell, i + 1, cell.1 - 1)
  {
  }

  /** The whole window scanned is the set of neighbouring mines, on or off the agent's clipped ranges. */
  lemma ScanDone(b: Board, cell: Cell)
    requires Agrees(b)
    ensures Scanned(b, cell, cell.0 + 2, cell.1 - 1) == NeighbourMines(b, cell)
    ensures NeighbourCells(b.height, b.width, cell) * b.mines == NeighbourMines(b, cell)
  {
  }

  /** nearby_mines: scan the 3 x 3 window around cell row by row, skip cell itself
      and off-board positions, and count the grid entries that are set. */
  method NearbyMines(b: Board, cell: Cell) returns (count: nat)
    requires Agrees(b)
    ensures count == |NeighbourMines(b, cell)|
    ensures count == |NeighbourCells(b.height, b.width, cell) * b.mines|
    ensures count <= 8
  {
    count := 0;
    var i := cell.0 - 1;
    while i < cell.0 + 2
      invariant cell.0 - 1 <= i <= cell.0 + 2
      invariant count == |Scanned(b, cell, i, cell.1 - 1)|
    {
      var j := cell.1 - 1;
      while j < cell.1 + 2
        invariant cell.1 - 1 <= j <= cell.1 + 2
        invariant count == |Scanned(b, cell, i, j)|
      {
        ScanStep(b, cell, i, j);
        if (i, j) != cell && 0 <= i < b.height && 0 <= j < b.width && b.grid[i][j] {
          count := count + 1;
        }
        j := j + 1;
      }
      ScanRowEnd(b, cell, i);
      i := i + 1;
    }
    ScanDone(b, cell);
    AdjacentAtMostEight(cell, NeighbourMines(b, cell));
  }

  /** won: every mine has been flagged, and nothing else. */
  predicate Won(b: Board) {
    b.minesFound == b.mines
  }

  /** A freshly constructed board, on which nothing is flagged yet, is won
      exactly when it was asked for no mines. */
  lemma FreshBoardWon(height: nat, width: nat, draws: seq<Cell>, target: int)
    requires forall k | 0 <= k < |draws| :: InBounds(height, width, draws[k])
    ensures var r := PlaceMines(EmptyBoard(height, width), draws, target);
            r.Some? ==> (Won(r.value) <==> target == 0)
  {
  }
}
