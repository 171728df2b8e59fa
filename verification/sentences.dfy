/** The agent's unit of knowledge: "exactly count of these cells are mines". */
module Sentences {
  import opened Cells

  /** Equality of two sentences is datatype equality: same cell set, same count. */
  datatype Sentence = Sentence(cells: set<Cell>, count: int)

  /** The sentence is true of the actual mine layout mines. */
  predicate Holds(s: Sentence, mines: set<Cell>) {
    |s.cells * mines| == s.count
  }

  /** Every remaining cell is a mine when the count equals the number of cells. */
  function KnownMines(s: Sentence): (r: set<Cell>)
    ensures r <= s.cells
    ensures s.count == |s.cells| ==> r == s.cells
    ensures s.count != |s.cells| ==> r == {}
  {
    if s.count == |s.cells| then s.cells else {}
  }

  /** Every remaining cell is safe when the count is zero. */
  function KnownSafes(s: Sentence): (r: set<Cell>)
    ensures r <= s.cells
    ensures s.count == 0 ==> r == s.cells
    ensures s.count != 0 ==> r == {}
  {
    if s.count == 0 then s.cells else {}
  }

  /** Account for c being a mine: drop it from the cells and from the count. */
  function MarkMine(s: Sentence, c: Cell): (r: Sentence)
    ensures r.cells == s.cells - {c}
    ensures c in s.cells ==> r.count == s.count - 1
    ensures c !in s.cells ==> r == s
  {
    if c in s.cells then Sentence(s.cells - {c}, s.count - 1) else s
  }

  /** Account for c being safe: drop it from the cells, keep the count. */
  function MarkSafe(s: Sentence, c: Cell): (r: Sentence)
    ensures r.cells == s.cells - {c}
    ensures r.count == s.count
  {
    if c in s.cells then Sentence(s.cells - {c}, s.count) else s
  }

  /** Marking every cell of ms as a mine, in one step. */
  function MarkMines(s: Sentence, ms: set<Cell>): (r: Sentence)
    ensures r.cells == s.cells - ms
    ensures r.count + |s.cells * ms| == s.count
  {
    Sentence(s.cells - ms, s.count - |s.cells * ms|)
  }

  /** Marking every cell of ss as safe, in one step. */
  function MarkSafes(s: Sentence, ss: set<Cell>): (r: Sentence)
    ensures r.cells == s.cells - ss
    ensures r.count == s.count
  {
    Sentence(s.cells - ss, s.count)
  }

  /** MarkMine applied cell by cell, in the order of cs, as the source's loops do. */
  function MarkMineEach(s: Sentence, cs: seq<Cell>): Sentence
    decreases |cs|
  {
    if |cs| == 0 then s else MarkMineEach(MarkMine(s, cs[0]), cs[1..])
  }

  /** MarkSafe applied cell by cell, in the order of cs. */
  function MarkSafeEach(s: Sentence, cs: seq<Cell>): Sentence
    decreases |cs|
  {
    if |cs| == 0 then s else MarkSafeEach(MarkSafe(s, cs[0]), cs[1..])
  }

  // ---------------------------------------------------------------------
  // Properties of the rules and the updates

  /** The mine rule is sound: a true sentence only names real mines. */
  lemma KnownMinesSound(s: Sentence, mines: set<Cell>)
    requires Holds(s, mines)
    ensures KnownMines(s) <= mines
  {
    if s.count == |s.cells| {
      var hit := s.cells * mines;
      assert s.cells == hit + (s.cells - hit);
      assert |s.cells - hit| == 0;
      assert s.cells <= mines;
    }
  }

  /** The safe rule is sound: a true sentence only names cells that are not mines. */
  lemma KnownSafesSound(s: Sentence, mines: set<Cell>)
    requires Holds(s, mines)
    ensures KnownSafes(s) !! mines
  {
    if s.count == 0 {
      var hit := s.cells * mines;
      assert hit == {};
      assert forall c | c in s.cells :: c in mines ==> c in hit;
    }
  }

  /** The two rules never both fire on a sentence that still has cells. */
  lemma KnownMinesSafesExclusive(s: Sentence)
    requires s.cells != {}
    ensures KnownMines(s) == {} || KnownSafes(s) == {}
  {
  }

  lemma MarkMineIdempotent(s: Sentence, c: Cell)
    ensures MarkMine(MarkMine(s, c), c) == MarkMine(s, c)
  {
  }

  lemma MarkSafeIdempotent(s: Sentence, c: Cell)
    ensures MarkSafe(MarkSafe(s, c), c) == MarkSafe(s, c)
  {
  }

  /** Marking a real mine keeps a true sentence true. */
  lemma MarkMinePreservesTruth(s: Sentence, c: Cell, mines: set<Cell>)
    requires Holds(s, mines) && c in mines
    ensures Holds(MarkMine(s, c), mines)
  {
    if c in s.cells {
      assert s.cells * mines == (s.cells - {c}) * mines + {c};
    }
  }

  /** Marking a cell that is not a mine keeps a true sentence true. */
  lemma MarkSafePreservesTruth(s: Sentence, c: Cell, mines: set<Cell>)
    requires Holds(s, mines) && c !in mines
    ensures Holds(MarkSafe(s, c), mines)
  {
    assert (s.cells - {c}) * mines == s.cells * mines;
  }

  /** Marking a set of real mines keeps a true sentence true. */
  lemma MarkMinesPreservesTruth(s: Sentence, ms: set<Cell>, mines: set<Cell>)
    requires Holds(s, mines) && ms <= mines
    ensures Holds(MarkMines(s, ms), mines)
  {
    var kept := (s.cells - ms) * mines;
    var gone := s.cells * ms;
    assert s.cells * mines == kept + gone;
    assert kept !! gone;
  }

  /** Marking a set of non-mines keeps a true sentence true. */
  lemma MarkSafesPreservesTruth(s: Sentence, ss: set<Cell>, mines: set<Cell>)
    requires Holds(s, mines) && ss !! mines
    ensures Holds(MarkSafes(s, ss), mines)
  {
    assert (s.cells - ss) * mines == s.cells * mines;
  }

  /** Marking no mines and no safes changes nothing. */
  lemma MarkNothing(s: Sentence)
    ensures MarkSafes(MarkMines(s, {}), {}) == s
  {
    assert s.cells * {} == {};
  }

  /** Once the cells of u are marked as mines, marking cells of u as safe changes nothing. */
  lemma MarkSafesAfterMines(s: Sentence, u: set<Cell>, ss: set<Cell>)
    requires ss <= u
    ensures MarkSafes(MarkMines(s, u), ss) == MarkMines(s, u)
  {
    assert (s.cells - u) - ss == s.cells - u;
  }

  /** Marking no mines before marking safes changes nothing. */
  lemma MarkSafesAfterNoMines(s: Sentence, ss: set<Cell>)
    ensures MarkSafes(MarkMines(s, {}), ss) == MarkSafes(s, ss)
  {
    assert s.cells * {} == {};
  }

  /** Marking the cells of cs one at a time, in any order and with repeats,
      gives the set-wise update over the cells of cs. */
  lemma {:induction false} MarkMineEachIsSetwise(s: Sentence, cs: seq<Cell>)
    ensures MarkMineEach(s, cs) == MarkMines(s, Elems(cs))
    decreases |cs|
  {
    if |cs| == 0 {
      assert Elems(cs) == {};
      assert s.cells * {} == {};
    } else {
      var head := cs[0];
      var rest := Elems(cs[1..]);
      assert Elems(cs) == {head} + rest;
      MarkMineEachIsSetwise(MarkMine(s, head), cs[1..]);
      MarkMineThenMines(s, head, rest);
    }
  }

  lemma MarkMineThenMines(s: Sentence, c: Cell, rest: set<Cell>)
    ensures MarkMines(MarkMine(s, c), rest) == MarkMines(s, {c} + rest)
  {
    var all := {c} + rest;
    assert (s.cells - {c}) - rest == s.cells - all;
    if c in s.cells {
      assert s.cells * all == {c} + (s.cells - {c}) * rest;
      assert c !in (s.cells - {c}) * rest;
    } else {
      assert s.cells * all == s.cells * rest;
    }
  }

  /** The same for safe cells. */
  lemma {:induction false} MarkSafeEachIsSetwise(s: Sentence, cs: seq<Cell>)
    ensures MarkSafeEach(s, cs) == MarkSafes(s, Elems(cs))
    decreases |cs|
  {
    if |cs| == 0 {
      assert Elems(cs) == {};
    } else {
      var rest := Elems(cs[1..]);
      assert Elems(cs) == {cs[0]} + rest;
      MarkSafeEachIsSetwise(MarkSafe(s, cs[0]), cs[1..]);
      assert (s.cells - {cs[0]}) - rest == s.cells - ({cs[0]} + rest);
    }
  }
}
