/** The knowledge-based player: its belief state and the operations on it. */
module Agent {
  import opened Cells
  import opened Wrappers
  import Sentences

  /** The player's belief state on a height x width board: the cells it has
      played, the cells it holds to be mines or safe, and its sentences in the
      order they were learnt. */
  datatype AI = AI(height: int, width: int, movesMade: set<Cell>, mines: set<Cell>,
                   safes: set<Cell>, knowledge: seq<Sentences.Sentence>)

  /** The player before its first move: nothing played, nothing known. */
  function Initial(height: int, width: int): AI {
    AI(height, width, {}, {}, {}, [])
  }

  /** mark_mine: record c as a mine and take it out of every sentence. */
  function MarkMine(ai: AI, c: Cell): (r: AI)
    ensures r.mines == ai.mines + {c}
    ensures r.safes == ai.safes && r.movesMade == ai.movesMade
    ensures r.height == ai.height && r.width == ai.width
    ensures |r.knowledge| == |ai.knowledge|
    ensures forall k | 0 <= k < |r.knowledge| ::
              && r.knowledge[k].cells == ai.knowledge[k].cells - {c}
              && r.knowledge[k].count == ai.knowledge[k].count - (if c in ai.knowledge[k].cells then 1 else 0)
  {
    var kb := ai.knowledge;
    ai.(mines := ai.mines + {c},
        knowledge := seq(|kb|, k requires 0 <= k < |kb| => Sentences.MarkMine(kb[k], c)))
  }

  /** mark_safe: record c as safe and take it out of every sentence. */
  function MarkSafe(ai: AI, c: Cell): (r: AI)
    ensures r.safes == ai.safes + {c}
    ensures r.mines == ai.mines && r.movesMade == ai.movesMade
    ensures r.height == ai.height && r.width == ai.width
    ensures |r.knowledge| == |ai.knowledge|
    ensures forall k | 0 <= k < |r.knowledge| ::
              && r.knowledge[k].cells == ai.knowledge[k].cells - {c}
              && r.knowledge[k].count == ai.knowledge[k].count
  {
    var kb := ai.knowledge;
    ai.(safes := ai.safes + {c},
        knowledge := seq(|kb|, k requires 0 <= k < |kb| => Sentences.MarkSafe(kb[k], c)))
  }

  lemma MarkMineIdempotent(ai: AI, c: Cell)
    ensures MarkMine(MarkMine(ai, c), c) == MarkMine(ai, c)
  {
    var once := MarkMine(ai, c);
    var twice := MarkMine(once, c);
    forall k | 0 <= k < |ai.knowledge|
      ensures twice.knowledge[k] == once.knowledge[k]
    {
      Sentences.MarkMineIdempotent(ai.knowledge[k], c);
    }
  }

  lemma MarkSafeIdempotent(ai: AI, c: Cell)
    ensures MarkSafe(MarkSafe(ai, c), c) == MarkSafe(ai, c)
  {
    var once := MarkSafe(ai, c);
    var twice := MarkSafe(once, c);
    forall k | 0 <= k < |ai.knowledge|
      ensures twice.knowledge[k] == once.knowledge[k]
    {
      Sentences.MarkSafeIdempotent(ai.knowledge[k], c);
    }
  }

  /** The neighbours of cell that the player holds neither safe nor a mine,
      once cell itself has been recorded as safe. */
  function Undetermined(ai: AI, cell: Cell): (r: set<Cell>)
    ensures forall m :: m in r <==> && InBounds(ai.height, ai.width, m) && Adjacent(cell, m)
                                     && m !in ai.safes && m !in ai.mines
  {
    NeighbourCells(ai.height, ai.width, cell) - (ai.safes + {cell}) - ai.mines
  }

  /** The union of the known mines of the sentences of kb, gathered in order
      as the scan over the knowledge base does. */
  function KnownMinesOf(kb: seq<Sentences.Sentence>): set<Cell>
    decreases |kb|
  {
    if |kb| == 0 then {} else KnownMinesOf(kb[..|kb| - 1]) + Sentences.KnownMines(kb[|kb| - 1])
  }

  /** The union of the known safes of the sentences of kb. */
  function KnownSafesOf(kb: seq<Sentences.Sentence>): set<Cell>
    decreases |kb|
  {
    if |kb| == 0 then {} else KnownSafesOf(kb[..|kb| - 1]) + Sentences.KnownSafes(kb[|kb| - 1])
  }

  /** A cell is gathered exactly when some sentence of kb names it a known mine. */
  lemma {:induction false} KnownMinesOfMembers(kb: seq<Sentences.Sentence>)
    ensures forall c :: c in KnownMinesOf(kb) <==> exists k | 0 <= k < |kb| :: c in Sentences.KnownMines(kb[k])
    decreases |kb|
  {
    if |kb| > 0 {
      var front := kb[..|kb| - 1];
      KnownMinesOfMembers(front);
      assert forall k | 0 <= k < |front| :: front[k] == kb[k];
    }
  }

  /** A cell is gathered exactly when some sentence of kb names it a known safe. */
  lemma {:induction false} KnownSafesOfMembers(kb: seq<Sentences.Sentence>)
    ensures forall c :: c in KnownSafesOf(kb) <==> exists k | 0 <= k < |kb| :: c in Sentences.KnownSafes(kb[k])
    decreases |kb|
  {
    if |kb| > 0 {
      var front := kb[..|kb| - 1];
      KnownSafesOfMembers(front);
      assert forall k | 0 <= k < |front| :: front[k] == kb[k];
    }
  }

  /** What add_knowledge does once it has built the new sentence latest: record
      cell as played and safe, append latest, add every sentence's known mines
      and known safes to the player's sets, and then take out of every sentence
      only the known mines and known safes of latest (the last sentence the
      scan looked at). */
  function Observe(ai: AI, cell: Cell, latest: Sentences.Sentence): (r: AI)
    ensures r.height == ai.height && r.width == ai.width
    ensures r.movesMade == ai.movesMade + {cell}
    ensures cell in r.safes && ai.safes <= r.safes && ai.mines <= r.mines
    ensures |r.knowledge| == |ai.knowledge| + 1
    ensures forall k | 0 <= k < |r.knowledge| - 1 :: r.knowledge[k].cells <= ai.knowledge[k].cells
    ensures r.knowledge[|ai.knowledge|].cells <= latest.cells
  {
    var kb := ai.knowledge + [latest];
    var minesFound := Sentences.KnownMines(latest);
    var safesFound := Sentences.KnownSafes(latest);
    AI(ai.height, ai.width, ai.movesMade + {cell},
       ai.mines + KnownMinesOf(kb),
       ai.safes + {cell} + KnownSafesOf(kb),
       seq(|kb|, k requires 0 <= k < |kb| =>
             Sentences.MarkSafes(Sentences.MarkMines(kb[k], minesFound), safesFound)))
  }

  /** add_knowledge(cell, count) as written: the new sentence pairs the
      undetermined neighbours of cell with count, unchanged. */
  function AddKnowledge(ai: AI, cell: Cell, count: int): (r: AI)
    ensures r.height == ai.height && r.width == ai.width
    ensures r.movesMade == ai.movesMade + {cell}
    ensures cell in r.safes && ai.safes <= r.safes && ai.mines <= r.mines
    ensures |r.knowledge| == |ai.knowledge| + 1
    ensures forall k | 0 <= k < |ai.knowledge| :: r.knowledge[k].cells <= ai.knowledge[k].cells
    ensures r.knowledge[|ai.knowledge|].cells <= Undetermined(ai, cell)
  {
    Observe(ai, cell, Sentences.Sentence(Undetermined(ai, cell), count))
  }

  /** Observe adds to the player's mines what the older sentences and latest
      name as known mines. */
  lemma ObserveMines(ai: AI, cell: Cell, latest: Sentences.Sentence)
    ensures Observe(ai, cell, latest).mines
              == ai.mines + KnownMinesOf(ai.knowledge) + Sentences.KnownMines(latest)
  {
    var kb := ai.knowledge + [latest];
    assert kb[..|kb| - 1] == ai.knowledge;
  }

  /** Observe adds to the player's safes cell and what the older sentences
      and latest name as known safes. */
  lemma ObserveSafes(ai: AI, cell: Cell, latest: Sentences.Sentence)
    ensures Observe(ai, cell, latest).safes
              == ai.safes + {cell} + KnownSafesOf(ai.knowledge) + Sentences.KnownSafes(latest)
  {
    var kb := ai.knowledge + [latest];
    assert kb[..|kb| - 1] == ai.knowledge;
  }

  /** Every sentence, latest included, loses latest's known mines and known safes. */
  lemma ObserveKnowledge(ai: AI, cell: Cell, latest: Sentences.Sentence)
    ensures var r := Observe(ai, cell, latest);
            var minesFound := Sentences.KnownMines(latest);
            var safesFound := Sentences.KnownSafes(latest);
            && r.knowledge[|ai.knowledge|] == Sentences.MarkSafes(Sentences.MarkMines(latest, minesFound), safesFound)
            && forall k | 0 <= k < |ai.knowledge| ::
                 r.knowledge[k] == Sentences.MarkSafes(Sentences.MarkMines(ai.knowledge[k], minesFound), safesFound)
  {
    var kb := ai.knowledge + [latest];
    assert kb[|ai.knowledge|] == latest;
    assert forall k | 0 <= k < |ai.knowledge| :: kb[k] == ai.knowledge[k];
  }

  /** When the rules do not fire on the new sentence, it is appended as
      observed and the older sentences are left exactly as they were. */
  lemma AddKnowledgeUndecided(ai: AI, cell: Cell, count: int)
    requires count != |Undetermined(ai, cell)| && count != 0
    ensures AddKnowledge(ai, cell, count).knowledge
              == ai.knowledge + [Sentences.Sentence(Undetermined(ai, cell), count)]
  {
    var latest := Sentences.Sentence(Undetermined(ai, cell), count);
    var r := AddKnowledge(ai, cell, count);
    ObserveKnowledge(ai, cell, latest);
    assert Sentences.KnownMines(latest) == {} && Sentences.KnownSafes(latest) == {};
    forall k | 0 <= k < |ai.knowledge|
      ensures r.knowledge[k] == ai.knowledge[k]
    {
      Sentences.MarkNothing(ai.knowledge[k]);
    }
    Sentences.MarkNothing(latest);
  }

  /** When the rules do not fire on the new sentence, the player's sets gain
      only cell and what the older sentences already said. */
  lemma AddKnowledgeUndecidedSets(ai: AI, cell: Cell, count: int)
    requires count != |Undetermined(ai, cell)| && count != 0
    ensures var r := AddKnowledge(ai, cell, count);
            && r.mines == ai.mines + KnownMinesOf(ai.knowledge)
            && r.safes == ai.safes + {cell} + KnownSafesOf(ai.knowledge)
  {
    var latest := Sentences.Sentence(Undetermined(ai, cell), count);
    ObserveMines(ai, cell, latest);
    ObserveSafes(ai, cell, latest);
  }

  /** When count is the number of undetermined neighbours, all of them become
      known mines, the new sentence is emptied, and they are taken out of
      every older sentence with its count reduced accordingly. */
  lemma AddKnowledgeAllMines(ai: AI, cell: Cell, count: int)
    requires count == |Undetermined(ai, cell)|
    ensures var r := AddKnowledge(ai, cell, count);
            var u := Undetermined(ai, cell);
            && r.mines == ai.mines + KnownMinesOf(ai.knowledge) + u
            && r.knowledge[|ai.knowledge|] == Sentences.Sentence({}, 0)
            && forall k | 0 <= k < |ai.knowledge| :: r.knowledge[k] == Sentences.MarkMines(ai.knowledge[k], u)
  {
    var u := Undetermined(ai, cell);
    var latest := Sentences.Sentence(u, count);
    var r := AddKnowledge(ai, cell, count);
    ObserveMines(ai, cell, latest);
    ObserveSafes(ai, cell, latest);
    ObserveKnowledge(ai, cell, latest);
    var safesFound := Sentences.KnownSafes(latest);
    assert u * u == u;
    forall k | 0 <= k < |ai.knowledge|
      ensures r.knowledge[k] == Sentences.MarkMines(ai.knowledge[k], u)
    {
      Sentences.MarkSafesAfterMines(ai.knowledge[k], u, safesFound);
    }
    Sentences.MarkSafesAfterMines(latest, u, safesFound);
  }

  /** When count is zero, all undetermined neighbours become known safe, the
      new sentence is emptied, and they are taken out of every older sentence. */
  lemma AddKnowledgeAllSafe(ai: AI, cell: Cell, count: int)
    requires count == 0
    ensures var r := AddKnowledge(ai, cell, count);
            var u := Undetermined(ai, cell);
            && r.safes == ai.safes + {cell} + KnownSafesOf(ai.knowledge) + u
            && r.knowledge[|ai.knowledge|] == Sentences.Sentence({}, 0)
            && forall k | 0 <= k < |ai.knowledge| :: r.knowledge[k] == Sentences.MarkSafes(ai.knowledge[k], u)
  {
    var u := Undetermined(ai, cell);
    var latest := Sentences.Sentence(u, count);
    var r := AddKnowledge(ai, cell, count);
    ObserveMines(ai, cell, latest);
    ObserveSafes(ai, cell, latest);
    ObserveKnowledge(ai, cell, latest);
    assert Sentences.KnownMines(latest) == {};
    forall k | 0 <= k < |ai.knowledge|
      ensures r.knowledge[k] == Sentences.MarkSafes(ai.knowledge[k], u)
    {
      Sentences.MarkSafesAfterNoMines(ai.knowledge[k], u);
    }
    Sentences.MarkSafesAfterNoMines(latest, u);
  }

  /** add_knowledge with the count corrected for the neighbours already known to
      be mines, which are left out of the new sentence. */
  function AddKnowledgeCorrected(ai: AI, cell: Cell, count: int): (r: AI)
    ensures r.height == ai.height && r.width == ai.width
    ensures r.movesMade == ai.movesMade + {cell}
    ensures cell in r.safes && ai.safes <= r.safes && ai.mines <= r.mines
    ensures |r.knowledge| == |ai.knowledge| + 1
    ensures forall k | 0 <= k < |ai.knowledge| :: r.knowledge[k].cells <= ai.knowledge[k].cells
    ensures r.knowledge[|ai.knowledge|].cells <= Undetermined(ai, cell)
  {
    var known := NeighbourCells(ai.height, ai.width, cell) * ai.mines;
    AddKnowledge(ai, cell, count - |known|)
  }

  /** The correction changes nothing when no neighbour of cell is a known mine. */
  lemma CorrectionAgreesWithoutKnownMines(ai: AI, cell: Cell, count: int)
    requires NeighbourCells(ai.height, ai.width, cell) * ai.mines == {}
    ensures AddKnowledgeCorrected(ai, cell, count) == AddKnowledge(ai, cell, count)
  {
  }

  /** make_safe_move: walk the safe cells in some order and return the first one
      not yet played. */
  method MakeSafeMove(ai: AI) returns (r: Option<Cell>)
    ensures r.None? <==> ai.safes <= ai.movesMade
    ensures r.Some? ==> r.value in ai.safes && r.value !in ai.movesMade
  {
    var rest := ai.safes;
    while rest != {}
      invariant rest <= ai.safes
      invariant ai.safes - rest <= ai.movesMade
      decreases |rest|
    {
      var move :| move in rest;
      if move !in ai.movesMade {
        return Some(move);
      }
      rest := rest - {move};
    }
    return None;
  }

  /** A cell the player may pick at random: not played and not a known mine. */
  predicate Free(ai: AI, c: Cell) {
    c !in ai.movesMade && c !in ai.mines
  }

  /** a comes before b when the board is read row by row. */
  predicate RowMajorBefore(a: Cell, b: Cell) {
    a.0 < b.0 || (a.0 == b.0 && a.1 < b.1)
  }

  /** make_random_move: read the board row by row and return the first free cell. */
  method MakeRandomMove(ai: AI) returns (r: Option<Cell>)
    ensures r.None? <==> forall c | InBounds(ai.height, ai.width, c) :: !Free(ai, c)
    ensures r.Some? ==> && InBounds(ai.height, ai.width, r.value) && Free(ai, r.value)
                        && forall c | InBounds(ai.height, ai.width, c) && RowMajorBefore(c, r.value) :: !Free(ai, c)
  {
    var i := 0;
    while i < ai.height
      invariant 0 <= i <= Max(0, ai.height)
      invariant forall c | InBounds(ai.height, ai.width, c) && c.0 < i :: !Free(ai, c)
    {
      var j := 0;
      while j < ai.width
        invariant 0 <= j <= Max(0, ai.width)
        invariant forall c | InBounds(ai.height, ai.width, c) && c.0 < i :: !Free(ai, c)
        invariant forall c | InBounds(ai.height, ai.width, c) && c.0 == i && c.1 < j :: !Free(ai, c)
      {
        if (i, j) !in ai.movesMade && (i, j) !in ai.mines {
          assert InBounds(ai.height, ai.width, (i, j)) && Free(ai, (i, j));
          return Some((i, j));
        }
        j := j + 1;
      }
      i := i + 1;
    }
    return None;
  }
}
