/** What the player's beliefs mean: every one of them is true of the actual mine
    layout, as long as the board's answers are. add_knowledge as written can
    break this; the corrected version keeps it. */
module Soundness {
  import opened Cells
  import Sentences
  import opened Agent

  /** Everything the player believes is true of the mine layout mines. */
  predicate Consistent(ai: AI, mines: set<Cell>) {
    && ai.mines <= mines
    && ai.safes !! mines
    && forall k | 0 <= k < |ai.knowledge| :: Sentences.Holds(ai.knowledge[k], mines)
  }

  /** The board's answer when cell is played on a height x width board with
      layout mines: cell is not a mine, and count is its number of neighbouring mines. */
  predicate Truthful(height: int, width: int, cell: Cell, count: int, mines: set<Cell>) {
    cell !in mines && count == |NeighbourCells(height, width, cell) * mines|
  }

  /** The player before its first move believes nothing, so nothing false. */
  lemma InitialConsistent(height: int, width: int, mines: set<Cell>)
    ensures Consistent(Initial(height, width), mines)
    ensures Initial(height, width).mines !! Initial(height, width).safes
  {
  }

  /** Gathering the mine rule over true sentences only gathers actual mines. */
  lemma {:induction false} KnownMinesOfSound(kb: seq<Sentences.Sentence>, mines: set<Cell>)
    requires forall k | 0 <= k < |kb| :: Sentences.Holds(kb[k], mines)
    ensures KnownMinesOf(kb) <= mines
    decreases |kb|
  {
    if |kb| > 0 {
      var front := kb[..|kb| - 1];
      assert forall k | 0 <= k < |front| :: front[k] == kb[k];
      KnownMinesOfSound(front, mines);
      Sentences.KnownMinesSound(kb[|kb| - 1], mines);
    }
  }

  /** Gathering the safe rule over true sentences only gathers non-mines. */
  lemma {:induction false} KnownSafesOfSound(kb: seq<Sentences.Sentence>, mines: set<Cell>)
    requires forall k | 0 <= k < |kb| :: Sentences.Holds(kb[k], mines)
    ensures KnownSafesOf(kb) !! mines
    decreases |kb|
  {
    if |kb| > 0 {
      var front := kb[..|kb| - 1];
      assert forall k | 0 <= k < |front| :: front[k] == kb[k];
      KnownSafesOfSound(front, mines);
      Sentences.KnownSafesSound(kb[|kb| - 1], mines);
    }
  }

  /** mark_mine of an actual mine keeps every belief true. */
  lemma MarkMineSound(ai: AI, c: Cell, mines: set<Cell>)
    requires Consistent(ai, mines) && c in mines
    ensures Consistent(MarkMine(ai, c), mines)
  {
    var r := MarkMine(ai, c);
    forall k | 0 <= k < |r.knowledge|
      ensures Sentences.Holds(r.knowledge[k], mines)
    {
      Sentences.MarkMinePreservesTruth(ai.knowledge[k], c, mines);
    }
  }

  /** mark_safe of a cell that is not a mine keeps every belief true. */
  lemma MarkSafeSound(ai: AI, c: Cell, mines: set<Cell>)
    requires Consistent(ai, mines) && c !in mines
    ensures Consistent(MarkSafe(ai, c), mines)
  {
    var r := MarkSafe(ai, c);
    forall k | 0 <= k < |r.knowledge|
      ensures Sentences.Holds(r.knowledge[k], mines)
    {
      Sentences.MarkSafePreservesTruth(ai.knowledge[k], c, mines);
    }
  }

  /** The deduction step of add_knowledge only adds actual mines to the
      player's mines and non-mines to its safes, given a true new sentence
      about a cell that is not a mine. */
  lemma ObserveSetsSound(ai: AI, cell: Cell, latest: Sentences.Sentence, mines: set<Cell>)
    requires Consistent(ai, mines) && cell !in mines && Sentences.Holds(latest, mines)
    ensures Observe(ai, cell, latest).mines <= mines
    ensures Observe(ai, cell, latest).safes !! mines
  {
    ObserveMines(ai, cell, latest);
    ObserveSafes(ai, cell, latest);
    KnownMinesOfSound(ai.knowledge, mines);
    KnownSafesOfSound(ai.knowledge, mines);
    Sentences.KnownMinesSound(latest, mines);
    Sentences.KnownSafesSound(latest, mines);
  }

  /** The propagation step of add_knowledge keeps every sentence true. */
  lemma ObserveSentencesSound(ai: AI, cell: Cell, latest: Sentences.Sentence, mines: set<Cell>)
    requires Consistent(ai, mines) && Sentences.Holds(latest, mines)
    ensures forall k | 0 <= k < |Observe(ai, cell, latest).knowledge| ::
              Sentences.Holds(Observe(ai, cell, latest).knowledge[k], mines)
  {
    var r := Observe(ai, cell, latest);
    ObserveKnowledge(ai, cell, latest);
    Sentences.KnownMinesSound(latest, mines);
    Sentences.KnownSafesSound(latest, mines);
    var minesFound := Sentences.KnownMines(latest);
    var safesFound := Sentences.KnownSafes(latest);
    forall k | 0 <= k < |r.knowledge|
      ensures Sentences.Holds(r.knowledge[k], mines)
    {
      var s := if k < |ai.knowledge| then ai.knowledge[k] else latest;
      Sentences.MarkMinesPreservesTruth(s, minesFound, mines);
      Sentences.MarkSafesPreservesTruth(Sentences.MarkMines(s, minesFound), safesFound, mines);
    }
  }

  lemma ObserveSound(ai: AI, cell: Cell, latest: Sentences.Sentence, mines: set<Cell>)
    requires Consistent(ai, mines) && cell !in mines && Sentences.Holds(latest, mines)
    ensures Consistent(Observe(ai, cell, latest), mines)
  {
    ObserveSetsSound(ai, cell, latest, mines);
    ObserveSentencesSound(ai, cell, latest, mines);
  }

  /** The new sentence of the corrected add_knowledge is true: the neighbours
      left out as known mines are taken off the count, and the ones left out as
      known safe contribute nothing to it. */
  lemma CorrectedSentenceHolds(ai: AI, cell: Cell, count: int, mines: set<Cell>)
    requires Consistent(ai, mines) && Truthful(ai.height, ai.width, cell, count, mines)
    ensures var known := NeighbourCells(ai.height, ai.width, cell) * ai.mines;
            Sentences.Holds(Sentences.Sentence(Undetermined(ai, cell), count - |known|), mines)
  {
    var near := NeighbourCells(ai.height, ai.width, cell);
    var known := near * ai.mines;
    var actual := near * mines;
    assert Undetermined(ai, cell) * mines == actual - known;
    assert known <= actual;
    assert actual == (actual - known) + known;
  }

  /** The corrected add_knowledge keeps every belief true. */
  lemma AddKnowledgeCorrectedSound(ai: AI, cell: Cell, count: int, mines: set<Cell>)
    requires Consistent(ai, mines) && Truthful(ai.height, ai.width, cell, count, mines)
    ensures Consistent(AddKnowledgeCorrected(ai, cell, count), mines)
  {
    CorrectedSentenceHolds(ai, cell, count, mines);
    var known := NeighbourCells(ai.height, ai.width, cell) * ai.mines;
    var latest := Sentences.Sentence(Undetermined(ai, cell), count - |known|);
    assert AddKnowledgeCorrected(ai, cell, count) == Observe(ai, cell, latest);
    ObserveSound(ai, cell, latest, mines);
  }

  /** add_knowledge as written keeps every belief true as long as no neighbour
      of the played cell is already a known mine. */
  lemma AddKnowledgeSoundWithoutKnownMineNeighbours(ai: AI, cell: Cell, count: int, mines: set<Cell>)
    requires Consistent(ai, mines) && Truthful(ai.height, ai.width, cell, count, mines)
    requires NeighbourCells(ai.height, ai.width, cell) * ai.mines == {}
    ensures Consistent(AddKnowledge(ai, cell, count), mines)
  {
    CorrectionAgreesWithoutKnownMines(ai, cell, count);
    AddKnowledgeCorrectedSound(ai, cell, count, mines);
  }

  /** A game's observations fed in order to the corrected add_knowledge. */
  function Replay(ai: AI, observations: seq<(Cell, int)>): AI
    decreases |observations|
  {
    if |observations| == 0 then ai
    else Replay(AddKnowledgeCorrected(ai, observations[0].0, observations[0].1), observations[1..])
  }

  /** After any run of truthful observations, starting from beliefs that are
      true (the initial player's are, by InitialConsistent), the player's beliefs
      are true; in particular no cell is held to be both a mine and safe. */
  lemma {:induction false} ReplaySound(ai: AI, observations: seq<(Cell, int)>, mines: set<Cell>)
    requires Consistent(ai, mines)
    requires forall k | 0 <= k < |observations| ::
               Truthful(ai.height, ai.width, observations[k].0, observations[k].1, mines)
    ensures Consistent(Replay(ai, observations), mines)
    ensures Replay(ai, observations).mines !! Replay(ai, observations).safes
    decreases |observations|
  {
    if |observations| > 0 {
      var next := AddKnowledgeCorrected(ai, observations[0].0, observations[0].1);
      AddKnowledgeCorrectedSound(ai, observations[0].0, observations[0].1, mines);
      var rest := observations[1..];
      assert forall k | 0 <= k < |rest| :: rest[k] == observations[k + 1];
      ReplaySound(next, rest, mines);
    }
  }

  /** add_knowledge as written, on a 1 x 5 board with mines at (0,0) and (0,2):
      playing (0,1) (two neighbouring mines) marks both mines; playing (0,3)
      (one neighbouring mine) then builds the sentence {(0,4)} = 1, because the
      known mine (0,2) is dropped from the cells but still counted, and (0,4),
      which is safe, is marked as a mine. Playing (0,4) (no neighbouring mine)
      then leaves it held to be both a mine and safe. */
  lemma AddKnowledgeMarksSafeCellAsMine()
    ensures Truthful(1, 5, (0, 1), 2, {(0, 0), (0, 2)})
    ensures Truthful(1, 5, (0, 3), 1, {(0, 0), (0, 2)})
    ensures Truthful(1, 5, (0, 4), 0, {(0, 0), (0, 2)})
    ensures (0, 4) in AddKnowledge(AddKnowledge(Initial(1, 5), (0, 1), 2), (0, 3), 1).mines
    ensures (0, 4) !in {(0, 0), (0, 2)}
    ensures var third := AddKnowledge(AddKnowledge(AddKnowledge(Initial(1, 5), (0, 1), 2), (0, 3), 1), (0, 4), 0);
            (0, 4) in third.mines && (0, 4) in third.safes
  {
    TraceTruthful();
    TraceFirstMove();
    var second := AddKnowledge(AddKnowledge(Initial(1, 5), (0, 1), 2), (0, 3), 1);
    TraceSecondMove(AddKnowledge(Initial(1, 5), (0, 1), 2));
    var third := AddKnowledge(second, (0, 4), 0);
    assert second.mines <= third.mines;
  }

  lemma TraceNeighbours()
    ensures NeighbourCells(1, 5, (0, 1)) == {(0, 0), (0, 2)}
    ensures NeighbourCells(1, 5, (0, 3)) == {(0, 2), (0, 4)}
    ensures NeighbourCells(1, 5, (0, 4)) == {(0, 3)}
  {
    assert NeighbourCells(1, 5, (0, 1)) == {(0, 0), (0, 2)};
    assert NeighbourCells(1, 5, (0, 3)) == {(0, 2), (0, 4)};
    assert NeighbourCells(1, 5, (0, 4)) == {(0, 3)};
  }

  /** The answers of the trace are what the board with mines (0,0) and (0,2) reports. */
  lemma TraceTruthful()
    ensures Truthful(1, 5, (0, 1), 2, {(0, 0), (0, 2)})
    ensures Truthful(1, 5, (0, 3), 1, {(0, 0), (0, 2)})
    ensures Truthful(1, 5, (0, 4), 0, {(0, 0), (0, 2)})
  {
    TraceNeighbours();
    var mines: set<Cell> := {(0, 0), (0, 2)};
    assert NeighbourCells(1, 5, (0, 1)) * mines == mines;
    assert |mines| == 2;
    assert NeighbourCells(1, 5, (0, 3)) * mines == {(0, 2)};
    assert NeighbourCells(1, 5, (0, 4)) * mines == {};
  }

  /** First move of the trace: playing (0,1) with count 2 on a fresh 1 x 5
      player resolves both of its neighbours as mines. */
  lemma TraceFirstMove()
    ensures var first := AddKnowledge(Initial(1, 5), (0, 1), 2);
            first.mines == {(0, 0), (0, 2)} && first.safes == {(0, 1)} && first.height == 1 && first.width == 5
  {
    TraceNeighbours();
    var u := Undetermined(Initial(1, 5), (0, 1));
    assert u == {(0, 0), (0, 2)};
    TraceFirstMoveSets(u);
  }

  lemma TraceFirstMoveSets(u: set<Cell>)
    requires u == Undetermined(Initial(1, 5), (0, 1)) && |u| == 2
    ensures var first := AddKnowledge(Initial(1, 5), (0, 1), 2);
            first.mines == u && first.safes == {(0, 1)}
  {
    AddKnowledgeAllMines(Initial(1, 5), (0, 1), 2);
    ObserveSafes(Initial(1, 5), (0, 1), Sentences.Sentence(u, 2));
  }

  /** Second move of the trace: the known mine (0,2) is left out of the new
      sentence but still counted, so its one remaining cell (0,4) is taken for a mine. */
  lemma TraceSecondMove(first: AI)
    requires first.mines == {(0, 0), (0, 2)} && first.safes == {(0, 1)} && first.height == 1 && first.width == 5
    ensures (0, 4) in AddKnowledge(first, (0, 3), 1).mines
  {
    TraceNeighbours();
    assert Undetermined(first, (0, 3)) == {(0, 4)};
    AddKnowledgeAllMines(first, (0, 3), 1);
  }
}
