# Minesweeper board and knowledge-based player, modelled in Dafny

This project models `knowledge/minesweeper.py`. That file holds a Minesweeper board (`Minesweeper`), the
player's unit of knowledge (`Sentence`: a set of cells of which exactly `count` are
mines), and a player (`MinesweeperAI`) that learns from the board's answers and picks moves.
Every class becomes an immutable datatype and every method a pure function, or a
method where the source loops:

- `cells.dfy` (module `Cells`): the cell type `(row, col)`, board bounds, and the Moore
  neighbourhood. This is the set of cells one row and one column away, clipped to the board.
- `sentences.dfy` (module `Sentences`): `Sentence`, the two rules (`KnownMines`,
  `KnownSafes`) and the two updates (`MarkMine`, `MarkSafe`). It also gives the meaning of a
  sentence: `Holds(s, mines)` says it is true of an actual mine layout.
- `minesweeper.dfy` (module `Minesweeper`): the board as a grid of flags plus the
  mine set, with their agreement (`Agrees`) as an invariant. The module also holds the
  constructor's placement loop, `is_mine` with Python's indexing, `nearby_mines` as the
  source's nested scan, and `won`.
- `agent.dfy` (module `Agent`): the player's belief state (`moves_made`, `mines`, `safes`,
  `knowledge`) and its operations: `mark_mine`, `mark_safe`, `add_knowledge`,
  `make_safe_move` and `make_random_move`.
- `soundness.dfy` (module `Soundness`): when the board's answers are truthful, every belief
  stays true. The module proves this for a corrected `add_knowledge` and exhibits a trace
  where the code as written breaks it (see Findings).
- `wrappers.dfy`: `Option`, for the source's "a cell or None".

The model follows the code, not the docstrings. In particular, `add_knowledge` makes one pass
over the knowledge base. That pass adds every sentence's known mines and known safes to the
player's sets. Afterwards, only the newly appended sentence's known cells are taken out of the
sentences, because the loop variables keep the values of the last iteration. No subset inference
is done and no fixed point is reached, although the docstring lists both. `make_random_move`
returns the first free cell in row-major order; it does not choose at random.
`make_safe_move` returns whichever unplayed safe cell the set iteration meets first, so the model
allows any of them. Nothing in the file ever adds a cell to the board's `mines_found`, so it
stays empty after construction. No method checks its arguments: a cell off the board or a
negative count is used as given.

The queries `known_mines`, `known_safes`, `is_mine`, `nearby_mines`, `won`, `make_safe_move`
and `make_random_move` take the state as a value and return only their answer. This gives
the source's promise that they leave the state unchanged.

Equality of two sentences (`Sentence.__eq__`: same cells, same count) is Dafny's datatype
equality on `Sentence(cells, count)`.

## Model

| member | source | states |
|---|---|---|
| Cells.NeighbourCells | knowledge/minesweeper.py:202-205 | the cells enumerated by the clipped ranges `max(0, i-1) .. min(h, i+2)`, minus the cell itself, are exactly the on-board cells within one row and one column of it |
| Cells.AdjacentAtMostEight | knowledge/minesweeper.py:66-71 | a cell has at most eight neighbours, so any set of its neighbours has at most eight members |
| Sentences.KnownMines | knowledge/minesweeper.py:104-110 | the known mines are all of the cells when the count equals their number, and none otherwise |
| Sentences.KnownSafes | knowledge/minesweeper.py:112-118 | the known safes are all of the cells when the count is zero, and none otherwise |
| Sentences.KnownMinesSound | knowledge/minesweeper.py:104-110 | if a sentence is true of a mine layout, every cell it names as a known mine is a mine |
| Sentences.KnownSafesSound | knowledge/minesweeper.py:112-118 | if a sentence is true of a mine layout, no cell it names as known safe is a mine |
| Sentences.KnownMinesSafesExclusive | knowledge/minesweeper.py:104-118 | the two rules never both name cells of the same non-empty sentence |
| Sentences.MarkMine | knowledge/minesweeper.py:120-129 | the cell leaves the sentence; the count drops by exactly one if the cell was in it, and otherwise the sentence is unchanged |
| Sentences.MarkSafe | knowledge/minesweeper.py:131-139 | the cell leaves the sentence, no other cell does, and the count is unchanged |
| Sentences.MarkMineIdempotent | knowledge/minesweeper.py:120-129 | marking the same mine twice is the same as marking it once |
| Sentences.MarkSafeIdempotent | knowledge/minesweeper.py:131-139 | marking the same safe cell twice is the same as marking it once |
| Sentences.MarkMinePreservesTruth | knowledge/minesweeper.py:120-129 | marking an actual mine keeps a true sentence true |
| Sentences.MarkSafePreservesTruth | knowledge/minesweeper.py:131-139 | marking a cell that is not a mine keeps a true sentence true |
| Sentences.MarkMines | knowledge/minesweeper.py:222-224 | marking a set of mines removes them from the cells and lowers the count by the number of them that were present |
| Sentences.MarkSafes | knowledge/minesweeper.py:226-228 | marking a set of safe cells removes them from the cells and keeps the count |
| Sentences.MarkMineEachIsSetwise | knowledge/minesweeper.py:222-224 | marking mines one at a time, in any iteration order and with repeats, gives the set-wise update |
| Sentences.MarkSafeEachIsSetwise | knowledge/minesweeper.py:226-228 | the same holds for safe cells |
| Sentences.MarkMinesPreservesTruth | knowledge/minesweeper.py:222-224 | marking a set of actual mines keeps a true sentence true |
| Sentences.MarkSafesPreservesTruth | knowledge/minesweeper.py:226-228 | marking a set of non-mines keeps a true sentence true |
| Minesweeper.EmptyBoard | knowledge/minesweeper.py:17-23 | the all-false height x width grid agrees with the empty mine set |
| Minesweeper.Build | knowledge/minesweeper.py:10-34 | the board built from a set of on-board mines has the requested shape, agrees with that set, and has nothing flagged |
| Minesweeper.Place | knowledge/minesweeper.py:29-31 | adding a cell to the mine set and setting its grid entry keeps grid and mine set in agreement |
| Minesweeper.PlaceMines | knowledge/minesweeper.py:25-31 | when the placement loop exits, grid and mine set agree, there are exactly the requested number of mines, and every new mine is one of the drawn cells; it exits at once when the count is already reached |
| Minesweeper.AgreementDeterminesGrid | knowledge/minesweeper.py:25-31 | two boards of the same shape with the same mines and agreeing grids have the same grid |
| Minesweeper.PlacedBoardIsBuilt | knowledge/minesweeper.py:17-31 | a finished placement from the empty grid is the board built from its own mine set |
| Minesweeper.PlaceMinesNeedsRoom | knowledge/minesweeper.py:26-28 | asking for more mines than the board has cells never places them all, whatever the draws |
| Minesweeper.PlaceMinesDistinctDraws | knowledge/minesweeper.py:26-31 | drawing the requested number of distinct fresh cells places exactly those cells |
| Minesweeper.PyIndex | knowledge/minesweeper.py:53 | a list index succeeds exactly for -n <= i < n and reaches position i or i + n |
| Minesweeper.IsMine | knowledge/minesweeper.py:51-53 | for an on-board cell the answer is whether it is in the mine set; indices outside [-h, h) x [-w, w) fail; negative ones reach the mine counted from the end |
| Minesweeper.NearbyMines | knowledge/minesweeper.py:55-78 | the count equals the number of mines adjacent to the cell, never counting the cell itself or off-board positions, and is at most 8 |
| Minesweeper.FreshBoardWon | knowledge/minesweeper.py:80-84 | a freshly constructed board, with nothing flagged, counts as won exactly when it has no mines |
| Agent.MarkMine | knowledge/minesweeper.py:163-170 | the cell joins the mines and leaves every sentence, whose count drops by one where it was present; nothing else changes |
| Agent.MarkSafe | knowledge/minesweeper.py:172-179 | the cell joins the safes and leaves every sentence, counts unchanged; nothing else changes |
| Agent.MarkMineIdempotent | knowledge/minesweeper.py:163-170 | marking the same mine twice is the same as marking it once |
| Agent.MarkSafeIdempotent | knowledge/minesweeper.py:172-179 | marking the same safe cell twice is the same as marking it once |
| Agent.Undetermined | knowledge/minesweeper.py:199-207 | the new sentence's cells are the on-board neighbours of the played cell that are neither known safe nor known mines |
| Agent.KnownMinesOfMembers | knowledge/minesweeper.py:214-218 | the scan gathers a cell into the mines exactly when some sentence names it a known mine |
| Agent.KnownSafesOfMembers | knowledge/minesweeper.py:214-219 | the scan gathers a cell into the safes exactly when some sentence names it a known safe |
| Agent.Observe | knowledge/minesweeper.py:196-228 | after the new sentence is appended and the knowledge is applied, the cell is played and safe, the mines and safes only grow, one sentence is added, and no sentence gains cells |
| Agent.AddKnowledge | knowledge/minesweeper.py:196-228 | moves_made grows by exactly the cell, which is also safe; mines and safes only grow; the knowledge grows by exactly one sentence; every old sentence's cells only shrink; the new sentence's cells lie among the undetermined neighbours |
| Agent.ObserveMines | knowledge/minesweeper.py:213-218 | the mines gain the known mines of the older sentences and of the new one, and nothing else |
| Agent.ObserveSafes | knowledge/minesweeper.py:196-219 | the safes gain the played cell and the known safes of the older sentences and of the new one, and nothing else |
| Agent.ObserveKnowledge | knowledge/minesweeper.py:221-228 | every sentence loses exactly the new sentence's known mines (with its count lowered) and known safes |
| Agent.AddKnowledgeUndecided | knowledge/minesweeper.py:209-228 | when neither rule fires on the new sentence, it is appended as observed (undetermined neighbours, given count) and the old sentences are untouched |
| Agent.AddKnowledgeUndecidedSets | knowledge/minesweeper.py:196-219 | in that case the mines and safes gain only the played cell and what the old sentences already name |
| Agent.AddKnowledgeAllMines | knowledge/minesweeper.py:209-224 | when the count equals the number of undetermined neighbours, all of them become mines, the new sentence ends empty with count 0, and each old sentence has them marked as mines |
| Agent.AddKnowledgeAllSafe | knowledge/minesweeper.py:209-228 | when the count is zero, all undetermined neighbours become safe, the new sentence ends empty, and each old sentence has them marked as safe |
| Agent.AddKnowledgeCorrected | knowledge/minesweeper.py:199-211 | the corrected update keeps add_knowledge's monotonicity: the cell played and safe, sets growing, one sentence more, cells only shrinking |
| Agent.CorrectionAgreesWithoutKnownMines | knowledge/minesweeper.py:199-211 | when no neighbour of the cell is a known mine, the corrected update is add_knowledge as written |
| Agent.MakeSafeMove | knowledge/minesweeper.py:230-245 | the result is None exactly when every safe cell has been played, and otherwise is a safe cell not yet played |
| Agent.MakeRandomMove | knowledge/minesweeper.py:247-262 | the result is None exactly when every board cell is played or a known mine, and otherwise is the first cell in row-major order that is neither |
| Soundness.MarkMineSound | knowledge/minesweeper.py:163-170 | marking an actual mine keeps every belief of the player true |
| Soundness.MarkSafeSound | knowledge/minesweeper.py:172-179 | marking a cell that is not a mine keeps every belief of the player true |
| Soundness.KnownMinesOfSound | knowledge/minesweeper.py:214-218 | over true sentences the scan only gathers actual mines |
| Soundness.KnownSafesOfSound | knowledge/minesweeper.py:214-219 | over true sentences the scan only gathers non-mines |
| Soundness.ObserveSetsSound | knowledge/minesweeper.py:196-219 | given true beliefs, a safe played cell and a true new sentence, the mines stay actual mines and the safes stay non-mines |
| Soundness.ObserveSentencesSound | knowledge/minesweeper.py:221-228 | the propagation keeps every sentence true |
| Soundness.ObserveSound | knowledge/minesweeper.py:196-228 | the whole update after the new sentence is built keeps every belief true |
| Soundness.CorrectedSentenceHolds | knowledge/minesweeper.py:199-211 | with the count lowered by the neighbours already known to be mines, the new sentence is true of the layout |
| Soundness.AddKnowledgeCorrectedSound | knowledge/minesweeper.py:196-228 | the corrected add_knowledge, fed a truthful answer, keeps every belief true |
| Soundness.AddKnowledgeSoundWithoutKnownMineNeighbours | knowledge/minesweeper.py:196-228 | add_knowledge as written keeps every belief true when no neighbour of the played cell is already a known mine |
| Soundness.InitialConsistent | knowledge/minesweeper.py:147-161 | the freshly constructed player holds no false belief and no cell is both a known mine and known safe |
| Soundness.ReplaySound | knowledge/minesweeper.py:196-228 | after any run of truthful answers fed to the corrected add_knowledge, all beliefs are true and no cell is both a known mine and known safe |
| Soundness.AddKnowledgeMarksSafeCellAsMine | knowledge/minesweeper.py:199-211 | two truthful answers on a 1 x 5 board make add_knowledge as written mark a safe cell as a mine; a third truthful answer, playing that cell, leaves it both a known mine and known safe |

## Left out

- `Minesweeper.print` (knowledge/minesweeper.py:36-49) is console output only.
- `Sentence.__str__` (knowledge/minesweeper.py:101-102) is text formatting only.
- Random mine placement: the cells `random.randrange` would draw are a parameter of
  `PlaceMines`. A loop that has not ended when the draws run out gives `None`.
- Minesweeper.PlaceMinesNeedsRoom: its `None` covers two different outcomes of the source.
  On a board with at least one cell, asking for more mines than cells makes the loop run
  forever. On a board with no rows or no columns, asking for any mines makes
  `random.randrange(0)` raise `ValueError` on the first pass. The model does not tell these apart.
- Minesweeper.Build: board dimensions are natural numbers, so a negative height or width is
  outside the model. The source accepts one, and `range` then gives an empty grid. With
  `mines == 0` the constructor returns that board, because the placement loop never runs. With
  any other number of mines the first `random.randrange` raises `ValueError`.
- The triple-quoted block at the end of the file (knowledge/minesweeper.py:265-317) is a string
  literal, not code.
- The player's constructor (knowledge/minesweeper.py:147-161) is `Agent.Initial`, which has no
  contract of its own. `Soundness.InitialConsistent` states what it guarantees.
- The driver that alternates the player's moves with board queries is not part of this model.
  `Soundness.Truthful` states what a truthful board answer is, and `Minesweeper.NearbyMines`
  ensures that the board's count is exactly such an answer.
- Agent.MakeSafeMove: the source returns the first unplayed safe cell in the set's
  iteration order, which Python does not specify. The model returns some unplayed safe cell.
- In-place mutation and object identity: each sentence in the knowledge base is a distinct
  object in the source, so modelling them as values loses nothing.

## Findings

| source | as written | input that shows it | evidently intended | confidence | as-written member | corrected member |
|---|---|---|---|---|---|---|
| knowledge/minesweeper.py:202-211 | neighbours already in `self.mines` are left out of the new sentence, but `count` is not reduced for them | 1 x 5 board with mines at (0,0) and (0,2): `add_knowledge((0,1), 2)`, then `add_knowledge((0,3), 1)` marks the safe cell (0,4) as a mine, and `add_knowledge((0,4), 0)` then holds (0,4) both a mine and safe | the new sentence's count is the observed count minus the number of neighbours already known to be mines | high; not executed | Soundness.AddKnowledgeMarksSafeCellAsMine | Agent.AddKnowledgeCorrected |

The corrected update is proved sound: `Soundness.AddKnowledgeCorrectedSound` for one step,
and `Soundness.ReplaySound` for any run of truthful answers, which is what `Soundness.Replay`
feeds to `Agent.AddKnowledgeCorrected`. Under those lemmas no cell can become both a known
mine and known safe. With `add_knowledge` as written, that guarantee fails: in the trace
above, the third truthful answer leaves (0,4) in both `mines` and `safes`.
