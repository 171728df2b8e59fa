/** Board positions and the Moore neighbourhood shared by the board and the agent. */
module Cells {

  /** A (row, col) pair; the source uses plain Python tuples compared by value. */
  type Cell = (int, int)

  function Max(a: int, b: int): int { if a < b then b else a }

  function Min(a: int, b: int): int { if a < b then a else b }

  predicate InBounds(height: int, width: int, c: Cell) {
    0 <= c.0 < height && 0 <= c.1 < width
  }

  /** m is within one row and one column of c, and is not c itself. */
  predicate Adjacent(c: Cell, m: Cell) {
    m != c && c.0 - 1 <= m.0 <= c.0 + 1 && c.1 - 1 <= m.1 <= c.1 + 1
  }

  /** The eight cells around c, whether on the board or not. */
  function Ring(c: Cell): set<Cell> {
    {(c.0 - 1, c.1 - 1), (c.0 - 1, c.1), (c.0 - 1, c.1 + 1),
     (c.0, c.1 - 1),                     (c.0, c.1 + 1),
     (c.0 + 1, c.1 - 1), (c.0 + 1, c.1), (c.0 + 1, c.1 + 1)}
  }

  /** The neighbours of c that lie on a height x width board, enumerated with
      the clipped ranges max(0, i-1) .. min(height, i+2) the agent uses.
      The ensures gives the independent reading: on the board and adjacent. */
  function NeighbourCells(height: int, width: int, c: Cell): (r: set<Cell>)
    ensures forall m :: m in r <==> InBounds(height, width, m) && Adjacent(c, m)
  {
    set x, y | Max(0, c.0 - 1) <= x < Min(height, c.0 + 2)
            && Max(0, c.1 - 1) <= y < Min(width, c.1 + 2)
            && (x, y) != c :: (x, y)
  }

  /** Every set of cells adjacent to c has at most eight members. */
  lemma AdjacentAtMostEight(c: Cell, s: set<Cell>)
    requires forall m | m in s :: Adjacent(c, m)
    ensures |s| <= 8
  {
    assert s <= Ring(c);
    SubsetCard(s, Ring(c));
  }

  /** The cells listed in a sequence, as a set. */
  function Elems(s: seq<Cell>): set<Cell> {
    set c | c in s
  }

  lemma SubsetCard<T>(a: set<T>, b: set<T>)
    requires a <= b
    ensures |a| <= |b|
  {
    assert b == a + (b - a);
  }
}
