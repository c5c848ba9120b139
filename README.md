# Gamma: a verified model of the territory engine and its tools

Gamma is a game on a width-by-height board. Players 1..P take turns claiming
free fields. The fields a player holds split into *areas*: maximal sets of the
player's fields connected through shared edges (4-adjacency). No player may
hold more than a fixed number of areas. Once per game, each player may make a
*golden move*: take a field that another player holds, provided that no
player then exceeds the area ceiling.

This project models, in Dafny, the engine of the repository and the small
deterministic tools built around it. It proves the engine's rules and the
tools' promises about that model.

- **Territory** (`territory.dfy`) defines areas abstractly. A grid is a dense
  `seq<seq<int>>` indexed `[row][column]`, and FREE is -1. The area of a field
  is the least set that contains it and is closed under same-owner
  4-adjacency. `Areas(g, p)` is the set of p's areas, and `AreaCount` is their
  number.
- **GroupAreas** (`group_areas.dfy`, with `union_find.dfy`) is
  `group_areas_by_player`. It registers the claimed fields and unions each one
  with its same-owner neighbours. The classes of the union-find become the
  areas, listed per owner. The FREE key holds the one set of unclaimed fields.
  The union-find is written as a small quick-find value.
- **Moves** (`moves.dfy`) says how one placement changes the areas, and what
  the move check therefore accepts. The central result is that a move onto a
  free field keeps every player within the ceiling exactly when the mover has
  fewer than the maximum number of areas, or the field touches one of the
  mover's own.
- **Boards** (`board.dfy`) is the dense board: the size check, the all-free
  grid, the text picture, and the grouping. The picture is proved lossless.
- **SparseBoard** (`sparse_board.dfy`) is the bounded dictionary board whose
  unset fields read FREE.
- **Engine** (`engine.dfy`) is `src/gamma/gamma.py`. It validates a move, then
  commits it or rolls it back. It also answers the queries.
- **LegacyEngine** (`legacy_engine.dfy`) is the older `gamma.py`. Its golden
  move is atomic and its `is_golden_possible` is weaker. A lemma shows the two
  engines disagreeing on a concrete board.
- **Api** (`api.dfy`) is the argument guards of `src/part1.py`.
- **Batch** (`batch.dfy`) is the batch-mode front end `src/part2.py`: argument
  parsing, command dispatch, and the line rules.
- **TurnOrder** (`turn_order.dfy`) is the round-robin `PlayerPointer`. It is
  specified against a cyclic scan and takes "can move" as a parameter.
- **Interactive** (`interactive.dfy`) is the interactive-mode compiler of
  `src/part2_interactive.py`.
- **Ivml** (`ivml.dfy`) is the script interpreter `src/ivmltovmr.py`.
- **Converter** (`converter.dfy`) is the line-oriented C-to-Python text
  transformer `src/convert_to_py.py`.
- **AreaExamples** (`area_examples.dfy`) works out the three example boards
  of the grouping module, both on the area specification and through the
  grouping itself.
- **Text** (`text.dfy`) and **Wrappers** (`wrappers.dfy`) are shared helpers:
  `str.split`, `str.join`, `str.split()` on whitespace, and decimal numbers.

Errors that the Python code raises become values: `Option`, `Status` and
result datatypes. Nothing is assumed about callers beyond what the code
itself asserts or indexes.

Where the files disagree with each other, the model follows the working
intent of the code and says so here:

- **Board representation.** `src/gamma/gamma.py` is written against the
  dictionary board of `src/gamma/board_defaultdict.py`, but
  `src/gamma/board.py` builds a list of lists. The engine is modelled over one
  dense grid, and "occupied" means "holds a value other than FREE".
- **Grouping arguments.** `Board.get_grouped_areas` passes no width and height
  to `group_areas_by_player`. The model passes the board's own.
- Three further departures in the engine (the rollback `del`, the
  transposed golden-move probe and the KeyError of a player with no fields)
  are listed under "## Left out".

## Model

| member | source | states |
|---|---|---|
| UnionFind.UnionFind.Add | src/gamma/group_areas.py:48 | registering a key adds it to the keys, keeps every existing pair joined, and puts a new key in a set of its own; on a well-formed structure (every representative a key that stands for itself) that needs no side condition, and the result is well formed again |
| UnionFind.UnionFind.Union | src/gamma/group_areas.py:56 | union joins exactly the sets of its two arguments: two keys are joined afterwards iff they were before or one was with a and the other with b; a well-formed structure stays well formed |
| UnionFind.UnionFind.Components | src/gamma/group_areas.py:59 | the components are the classes, and every registered key lies in its own class |
| GroupAreas.Neighbors | src/gamma/group_areas.py:14-23 | at most four neighbours are generated |
| GroupAreas.InRange | src/gamma/group_areas.py:20 | keeps exactly the candidates inside [0,width)x[0,height), never more than given |
| GroupAreas.NeighborsExact | src/gamma/group_areas.py:14-23 | the neighbours are exactly the on-board cells at distance one on one axis, each listed once; no wrap-around |
| GroupAreas.Encode | src/gamma/group_areas.py:26-27 | a coordinate whose second component fits in 32 bits is coded inside the block of 2^32 codes of its first component |
| GroupAreas.Decode | src/gamma/group_areas.py:30-31 | the second component always fits in 32 bits, and encoding the decoded pair gives back the integer: every integer is a code |
| GroupAreas.DecodeEncode | src/gamma/group_areas.py:26-31 | decode(encode(c)) == c whenever the column fits in 32 bits |
| GroupAreas.EncodeInjective | src/gamma/group_areas.py:26-27 | distinct coordinates with a 32-bit column never share a code |
| GroupAreas.GroupAreasByPlayer | src/gamma/group_areas.py:34-73 | every owner's list holds exactly its areas, each once; FREE is a key iff some field is free, and then maps to the one set of all free fields |
| GroupAreas.RegisterClaimed | src/gamma/group_areas.py:43-48 | registers exactly the claimed fields, each alone in the union-find |
| GroupAreas.RegisterRow | src/gamma/group_areas.py:45-48 | after row y, exactly the claimed fields of rows 0..y are registered |
| GroupAreas.JoinNeighbours | src/gamma/group_areas.py:50-56 | afterwards every pair of same-owner neighbours is joined, and only fields of one area are ever joined |
| GroupAreas.JoinCell | src/gamma/group_areas.py:53-56 | one field is joined with each of its same-owner neighbours, keeping earlier joins |
| GroupAreas.UnionWithinAreas | src/gamma/group_areas.py:55-56 | a union between two fields of one area keeps every joined pair within one area |
| GroupAreas.NeighboursCovered | src/gamma/group_areas.py:54-56 | scanning the generated neighbours reaches every same-owner neighbour |
| GroupAreas.ListArea | src/gamma/group_areas.py:62-66 | appending a component under the owner of its first field keeps the listing exact |
| GroupAreas.CollectAreas | src/gamma/group_areas.py:58-67 | listing all components gives every owner exactly its areas and no FREE key |
| GroupAreas.ClassesAreAreas | src/gamma/group_areas.py:50-67 | once every same-owner pair of neighbours is joined, the union-find classes are exactly the areas |
| Territory.Cells | src/gamma/group_areas.py:40 | the coordinates of every field on the grid |
| Territory.FreeCells | src/gamma/group_areas.py:69 | exactly the fields holding FREE |
| Territory.Occupied | src/gamma/group_areas.py:43-47 | exactly the fields not holding FREE |
| Territory.ComponentOwner | src/gamma/group_areas.py:55 | every field of an area holds the same value as its seed |
| Territory.ComponentOfMember | src/gamma/group_areas.py:50-56 | any field of an area generates the same area |
| Territory.LinkedSameComponent | src/gamma/group_areas.py:55-56 | two adjacent fields with the same non-FREE owner have the same area |
| Territory.FreeComponent | src/gamma/group_areas.py:55 | a free field is never joined with anything |
| Territory.IsolatedComponent | src/gamma/group_areas.py:55-56 | a field with no same-owner neighbour is an area by itself |
| Territory.CellInExactlyOneArea | src/gamma/group_areas.py:58-67 | every claimed field lies in exactly one area, listed under its own owner |
| Territory.AreaOwnerHomogeneous | src/gamma/group_areas.py:54-56 | every field of an area of p holds p |
| Territory.AreasDisjoint | src/gamma/group_areas.py:58-67 | two different areas of one owner share no field |
| Territory.AdjacentSameOwnerSameArea | src/gamma/group_areas.py:50-56 | the area of a field contains every same-owner neighbour |
| Territory.AreasEmptyIffNoCells | src/gamma/group_areas.py:62-66 | p has no area iff p holds no field |
| Territory.AllAreasListed | src/gamma/group_areas.py:58-67 | once every component is listed, every area of every owner appears under that owner |
| Territory.ListedCount | src/gamma/group_areas.py:63-66 | a duplicate-free list of exactly p's areas has AreaCount(p) entries |
| Territory.AllListed | src/gamma/group_areas.py:58-67 | listing every component gives a complete, exact per-owner listing without FREE |
| Territory.PlayerListed | src/gamma/group_areas.py:63-66 | an owner's list holds exactly that owner's areas and is as long as their count |
| Moves.Place | src/gamma/gamma.py:37 | placing v on c changes that field and no other, and keeps the shape |
| Moves.PlaceSame | src/gamma/gamma.py:41 | writing back the old value restores the grid exactly |
| Moves.PlaceTwice | src/gamma/gamma.py:60-67 | a later write to a field overrides an earlier one |
| Moves.GrowComponent | src/gamma/gamma.py:37-39 | a placement on a free field never splits an area |
| Moves.KeepComponent | src/gamma/gamma.py:37-39 | an area that does not reach the field through the mover's own fields is unchanged by the move |
| Moves.OtherAreasUnchanged | src/gamma/gamma.py:21-29 | a move by p leaves every other owner's areas exactly as they were |
| Moves.UntouchedByP | src/gamma/gamma.py:37-39 | an area of a field p does not hold contains no field of p |
| Moves.IsolatedPlacementAddsArea | src/gamma/gamma.py:37-39 | a move with no own neighbour adds exactly one new area, the field itself |
| Moves.NoNeighbourKeeps | src/gamma/gamma.py:37-39 | without an own neighbour, every existing area of p is unchanged |
| Moves.JoinedPlacementAreas | src/gamma/gamma.py:37-39 | next to an own field, every new area of p is the joined one or an old area |
| Moves.DetachedKeeps | src/gamma/gamma.py:37-39 | an area of p not reaching the new field was already an area |
| Moves.JoinedPlacementCount | src/gamma/gamma.py:37-39 | joining an existing area never raises p's area count |
| Moves.MoveKeepsCeiling | src/gamma/gamma.py:21-29 | from a valid grid, a move onto a free field keeps everyone within the ceiling iff the mover has fewer than the maximum areas or touches an own field |
| Moves.FreeGridWithinCeiling | src/gamma/board.py:19 | the all-free starting grid is within any ceiling |
| Moves.OwnedCells | src/gamma/gamma.py:101-106 | exactly the fields holding p |
| Moves.GridCountIsOwnedCells | src/gamma/gamma.py:104-106 | summing row.count(p) over the rows counts exactly the fields holding p |
| Moves.PlaceCount | src/gamma/gamma.py:37-39 | taking a field from another value adds one to p's busy count |
| Moves.ListedLength | src/gamma/gamma.py:76-77 | the grouping's list for p has AreaCount(p) entries, and at most one for FREE |
| Moves.ListedCover | src/gamma/gamma.py:76-89 | the sets listed under p cover exactly the fields holding p |
| Moves.CeilingFromListing | src/gamma/gamma.py:21-29 | reading list lengths off the grouping without FREE decides exactly the ceiling |
| Moves.GroupKeys | src/gamma/gamma.py:114-115 | the grouping's keys are exactly the values some field holds |
| Moves.LegalMovesExact | src/gamma/gamma.py:69-89 | below the ceiling every free field is a legal move; at it exactly the free fields next to an own field |
| Boards.EmptyGrid | src/gamma/board.py:17-19 | height rows of width fields, all FREE |
| Boards.Board.constructor | src/gamma/board.py:13-19 | a board of the given size whose every field is FREE |
| Boards.Board.Print | src/gamma/board.py:21-28 | reading the picture back gives the grid: the picture is lossless |
| Boards.Board.GetGroupedAreas | src/gamma/board.py:30-31 | the grouping of the current fields, with the FREE key iff a field is free |
| Boards.NewBoard | src/gamma/board.py:13-19 | fails iff width*height exceeds 1,000,000; otherwise an all-FREE grid of that size |
| Boards.DigitRun | src/gamma/board.py:22-23 | the length of the leading run of decimal digits |
| Boards.LineEnd | src/gamma/board.py:26 | the position of the first line break |
| Boards.ReadCell | src/gamma/board.py:22-26 | a field's picture ('.', a digit, or a number in brackets) reads back as that field |
| Boards.ReadRowText | src/gamma/board.py:25-26 | a row's picture reads back as the row |
| Boards.Render | src/gamma/board.py:21-28 | the picture holds exactly one line break per row |
| Boards.RenderReadBack | src/gamma/board.py:21-28 | the rows printed from the highest down, each ending in a line break, read back as the grid |
| Boards.ReadLine | src/gamma/board.py:28 | one more line on top of the picture reads as one more row at the highest index |
| SparseBoard.Lookup | src/gamma/board_defaultdict.py:16-23 | a stored key reads its value; a missing key outside [min,max] is a KeyError; a missing key inside reads the default |
| SparseBoard.LookupAfterStore | src/gamma/board_defaultdict.py:25 | a stored value reads back and no other key changes |
| SparseBoard.LookupAfterDelete | src/gamma/board_defaultdict.py:16-23 | a deleted in-range key reads the default again and no other key changes |
| SparseBoard.Row.constructor | src/gamma/board_defaultdict.py:32-36 | an empty row with keys bounded to 0..width-1 |
| SparseBoard.Row.SetBoundaries | src/gamma/board_defaultdict.py:12-14 | sets the bounds and keeps the contents |
| SparseBoard.Row.Read | src/gamma/board_defaultdict.py:16-23 | a read fails iff the key is missing and out of bounds; a missing key reads free_field |
| SparseBoard.Row.Get | src/gamma/board_defaultdict.py:22-23 | a row read stores nothing |
| SparseBoard.Row.Set | src/gamma/board_defaultdict.py:25 | a write reads back and changes no other key |
| SparseBoard.Row.Delete | src/gamma/board_defaultdict.py:16-23 | a deleted key reads free_field again and no other key changes |
| SparseBoard.Board.Cell | src/gamma/board_defaultdict.py:16-26 | a field fails to read iff its row is missing and out of bounds or its column is out of bounds; an unset field reads free_field |
| SparseBoard.Board.constructor | src/gamma/board_defaultdict.py:29-42 | every field of the board reads free_field; rows are bounded to 0..height-1 |
| SparseBoard.Board.GetRow | src/gamma/board_defaultdict.py:25-26 | a missing in-range row is created empty and stored; a stored row is returned as is |
| SparseBoard.Board.ReadCell | src/gamma/board_defaultdict.py:16-26 | reading a field answers Cell and changes no field's reading |
| SparseBoard.Board.SetCell | src/gamma/board_defaultdict.py:25-26 | a write into an in-range row reads back and changes no other field |
| SparseBoard.Board.DeleteCell | src/gamma/board_defaultdict.py:16-23 | deleting a field makes it read free_field again and changes no other field |
| SparseBoard.SetThenDelete | src/gamma/gamma.py:34-41 | a tentative move rolled back with del leaves the field reading FREE |
| Engine.Gamma.constructor | src/gamma/gamma.py:15-19 | an all-free board, no golden move used |
| Engine.Gamma.IsInValidState | src/gamma/gamma.py:21-29 | true iff no owner has more areas than the ceiling |
| Engine.Gamma.AllWithin | src/gamma/gamma.py:26-29 | true iff every list in the grouping is no longer than the ceiling |
| Engine.Gamma.TryMove | src/gamma/gamma.py:31-42 | succeeds iff player is not 0, the field is FREE and the ceiling holds after; from a valid grid, iff fewer than the maximum areas or next to an own field; a failure changes nothing |
| Engine.Gamma.TryGoldenMove | src/gamma/gamma.py:48-67 | fails for player 0, a used player (when checked), a FREE or own field, or a move over the ceiling; success takes the field and records the player; unchecked, the board is put back |
| Engine.Gamma.GetFreeFields | src/gamma/gamma.py:69-89 | 0 for player 0 or above players; otherwise the number of legal moves |
| Engine.Gamma.CanMoveToEmptyField | src/gamma/gamma.py:91-99 | true iff some neighbour lies in one of the player's areas |
| Engine.Gamma.GetBusyFields | src/gamma/gamma.py:101-106 | 0 for an invalid player, otherwise the number of fields the player holds |
| Engine.Gamma.IsGoldenPossible | src/gamma/gamma.py:108-127 | leaves the game unchanged and answers GoldenPossible: a valid unused player, another owner present, and either fewer than the maximum areas or some field whose golden move would stand |
| Engine.Gamma.ProbeGoldenMoves | src/gamma/gamma.py:121-127 | leaves the game unchanged and answers whether some field not holding 0 is a golden target |
| Engine.CountBorderFields | src/gamma/gamma.py:82-89 | counts exactly the free fields next to one of the player's fields |
| Engine.NewGame | src/gamma/gamma.py:15-19 | fails iff the board is over 1,000,000 fields; otherwise a fresh game |
| Engine.OthersListed | src/gamma/gamma.py:114-115 | some key besides p and FREE exists iff another owner holds a field |
| Engine.NeighbourOwned | src/gamma/gamma.py:82-89 | asking the generated neighbours against p's areas is the same as p owning a neighbour |
| LegacyEngine.LegacyGamma.constructor | gamma.py:16-20 | an all-free board, no golden move used |
| LegacyEngine.LegacyGamma.IsInValidState | gamma.py:22-30 | true iff no owner has more areas than the ceiling |
| LegacyEngine.LegacyGamma.TryMove | gamma.py:32-39 | writes over any value and keeps it iff the ceiling holds; otherwise the exact old value is back |
| LegacyEngine.LegacyGamma.TryGoldenMove | gamma.py:41-53 | succeeds iff unused and the field is another owner's whose move keeps the ceiling; success reassigns in one step and records the player, failure changes nothing |
| LegacyEngine.LegacyGamma.GetFreeFields | gamma.py:55-68 | fails on a full board (the KeyError); otherwise all free fields below the ceiling and those next to an own field at it, i.e. the number of legal moves |
| LegacyEngine.LegacyGamma.GetBusyFields | gamma.py:80-81 | the number of fields holding the player, with no range check |
| LegacyEngine.LegacyGamma.IsGoldenPossible | gamma.py:83-88 | true iff unused and some owner other than the player and FREE exists |
| LegacyEngine.GoldenPossibleEnginesDisagree | testy/test_huberta.py:3-8 | on the 2x2 board with one area each, the older engine says a golden move is possible, the move fails, and the newer engine says none is |
| LegacyEngine.TakingTheCornerSplits | testy/test_huberta.py:3-8 | player 1 taking the opposite corner would hold two areas |
| LegacyEngine.OneCellArea | gamma.py:22-30 | a claimed field without a same-owner neighbour is an area by itself |
| LegacyEngine.OnlyArea | gamma.py:22-30 | an owner of a single field has exactly one area |
| Api.GammaNew | src/part1.py:8-11 | refused iff width*height < 1, players < 1 or areas < 1; otherwise a fresh all-FREE game, or the size error above 1,000,000 fields |
| Api.GammaMove | src/part1.py:18-24 | false and no change off the board or for a player outside 1..players; otherwise try_move at column x, row y; no field drops below FREE, so the picture stays readable |
| Api.GammaGoldenMove | src/part1.py:27-33 | the same guards, then try_golden_move at column x, row y, recording the player on success; no field drops below FREE |
| Api.GammaBusyFields | src/part1.py:36-37 | the engine's busy count |
| Api.GammaFreeFields | src/part1.py:40-41 | 0 for player 0 and numbers above the players; for any other number, a negative one included, the engine's free-field count; for 1..players that is the number of legal moves |
| Api.GammaGoldenPossible | src/part1.py:44-45 | the engine's golden-possible answer, with the game unchanged |
| Api.GammaBoard | src/part1.py:48-49 | the board's picture, which reads back as the grid |
| Batch.WordsAreDigits | src/part2.py:23-28 | every word of a text of blanks and digits is a run of digits |
| Batch.BlankIsWhitespace | src/part2.py:7-10 | the five blanks separate words for str.split() |
| Batch.IsSpace | src/part2.py:9-10 | a text isspace accepts, "" included, is whitespace to str.split() and splits into no words |
| Batch.BlanksHoldNoWords | src/part2.py:7-10 | a text of the five blanks is whitespace and holds no words |
| Batch.Arity | src/part2.py:15 | exactly the eight command letters B, I, m, g, b, f, q and p have an argument count, and none needs more than four |
| Batch.ParseUnsignedInts | src/part2.py:22-35 | Some iff only blanks and digits, exactly `expected` words, none above 2^32-1; then the decimal values of the words, in order, each at most 2^32-1 |
| Batch.ParseLayout | src/part2.py:22-35 | numbers separated by non-empty runs of the five blanks, with any blanks at either end and leading zeros allowed, parse to their values in order |
| Batch.ParseSpaced | src/part2.py:22-35 | numbers written one space apart parse back to themselves |
| Batch.WordsOfSpaced | src/part2.py:28 | the words of numbers written one space apart are their decimal texts |
| Batch.SpacedBlanksAndDigits | src/part2.py:23-25 | numbers written one space apart pass the character check |
| Batch.StartReportAsWritten | src/part2.py:73-78 | as written, the report always opens with "OK <line>", and holds the error iff no game was created |
| Batch.RefusedStartReportsOk | src/part2.py:73-78 | as written, a well-formed B that gamma_new refuses reports OK and then the error |
| Batch.StartReport | src/part2.py:73-78 | a well-formed B reports OK iff a game was created, and the error otherwise |
| Batch.StatementsAreLines | src/part2.py:99-104 | the statements run are the non-empty, non-comment lines other than the last, in input order |
| Batch.StatementRun | src/part2.py:103-106 | every such line is run |
| Batch.Session.constructor | src/part2.py:19 | no game, nothing written |
| Batch.Session.RunBatchModeCommand | src/part2.py:38-61 | an unknown letter or bad arguments is an error and changes nothing; m and g answer whether the move succeeds, write the player at row y, column x exactly then, and g then records the player's golden move; f, b, q and p answer from the game and change nothing |
| Batch.Session.RunStartGameCommand | src/part2.py:64-78 | I aborts; a well-formed B creates the game iff gamma_new accepts; anything else is an error with no game |
| Batch.Session.RunCommand | src/part2.py:81-92 | a second character that is not a blank is an error; after a game exists no command aborts or replaces it; otherwise the letter and the rest do what the start command states before a game and what the batch command states after one |
| Batch.Session.RunLine | src/part2.py:99-108 | a non-empty last line is an error; other lines are run as the statement list says |
| Batch.Session.RunInput | src/part2.py:95-108 | unless aborted, exactly the statement lines are run in order, and a non-empty final line ends with its error |
| TurnOrder.Candidate | src/part1tovm.py:52 | every candidate (current mod players)+1 stepped on lies in 1..players |
| TurnOrder.Distance | src/part1tovm.py:59-66 | every player is reached by the cyclic scan within players steps |
| TurnOrder.CandidateWraps | src/part1tovm.py:65-66 | after players steps the scan is back at its first candidate |
| TurnOrder.FirstMover | src/part1tovm.py:55-66 | the first candidate in scan order that can move, or none before the scan wraps |
| TurnOrder.MoverFoundIffSomeCanMove | src/part1tovm.py:55-68 | the scan finds a mover iff some player can move |
| TurnOrder.AdvancedStep | src/part1tovm.py:77-79 | n+1 advances are n advances and one more |
| TurnOrder.MoverReached | src/part1tovm.py:70-84 | a player who can move is reached within its cyclic distance |
| TurnOrder.PlayerPointer.constructor | src/part1tovm.py:28-30 | the pointer starts at `start` |
| TurnOrder.PlayerPointer.Reset | src/part1tovm.py:32-33 | current becomes 1 |
| TurnOrder.PlayerPointer.Advance | src/part1tovm.py:48-68 | true iff some player can move; then current is the first mover after the old current in cyclic order; otherwise current is unchanged |
| TurnOrder.PlayerPointer.CountSkipsToPlayer | src/part1tovm.py:70-84 | leaves current alone; a count is at most players+2 and that many advances reach the player |
| TurnOrder.CountFindsMover | src/part1tovm.py:70-84 | for a player who can move a count is always found, at most players |
| Interactive.CursorStep | src/part2_interactive.py:145-156 | as written, LEFT and RIGHT take the rigid-wall step, while UP and DOWN keep the column and move the row by the opposite of the rigid-wall step |
| Interactive.CursorStepKeepsColumn | src/part2_interactive.py:151-156 | as written, LEFT and RIGHT keep the column on the board |
| Interactive.CursorStepLeavesBoard | src/part2_interactive.py:145-150 | as written, UP from the bottom row and DOWN from the top row leave the board |
| Interactive.RigidStep | src/part2_interactive.py:130-144 | with rigid walls the cursor stays on the board, moving one field in the arrow's direction unless a wall is in the way |
| Interactive.StartArgs | src/part2_interactive.py:159 | START takes exactly four integers |
| Interactive.StartTextReadsBack | src/part2_interactive.py:165-167 | the VERBATIM text is "I", the arguments one space apart, and a line break |
| Interactive.Compiler.constructor | src/part2_interactive.py:108-112 | the cursor at (0,0), all sizes 0, not initialised |
| Interactive.Compiler.StartingPosition | src/part2_interactive.py:114-128 | the bottom-left field (0,0), which lies on any board with a field |
| Interactive.Compiler.MoveCursor | src/part2_interactive.py:130-156 | the cursor takes the step the code as written takes (CursorStep) and nothing else changes; a column on the board stays on it |
| Interactive.Compiler.CompileStartInstruction | src/part2_interactive.py:158-167 | with four integers: the sizes are set, the cursor is at the starting position (0,0), initialised, and the VERBATIM "I ..." instruction is emitted |
| Interactive.Compiler.CompileStatement | src/part2_interactive.py:169-184 | a second START fails, START without four integers fails, any statement before START fails, END stops, others emit nothing; a successful START sets width, height, players and areas to its four numbers and the cursor to (0,0); every other statement and every failure leaves the cursor and the four numbers unchanged |
| Interactive.Compiler.Compile | src/part2_interactive.py:186-198 | compiles the statements of the non-blank, non-comment lines from an uninitialised state |
| Interactive.CompileNeedsStart | src/part2_interactive.py:178-179 | a program not starting with START fails before emitting anything |
| Interactive.CompileEmitsOnlyStart | src/part2_interactive.py:174-184 | a program emits at most the one START instruction |
| Interactive.Lines | src/part2_interactive.py:192 | one piece more than there are line breaks, no piece holds a break, and the pieces joined by the breaks, in order, give the text back |
| Interactive.StatementsOf | src/part2_interactive.py:190-194 | each statement has a first token, which does not open a comment; at most one per line |
| Interactive.StatementsAreKeptLines | src/part2_interactive.py:190-194 | the statements are the tokens of exactly the lines that have a token and do not start with '#', one per line, in input order |
| Interactive.Statements | src/part2_interactive.py:190-194 | the statements of the pieces between line breaks (so, by the two rows above, the tokens of each kept line in order); none is empty or starts with '#' |
| Ivml.Arrow | src/ivmltovmr.py:54-55 | an arrow key iff the command is UP, DOWN, LEFT or RIGHT |
| Ivml.GotoArgs | src/ivmltovmr.py:37-38 | exactly two integers, in order |
| Ivml.Interpreter.constructor | src/ivmltovmr.py:9-13 | the cursor at (0,0), no game, no pointer |
| Ivml.Interpreter.AskMovers | src/part1tovm.py:42-46 | the players who have a legal move or a golden move possible; the game is unchanged |
| Ivml.Interpreter.AdvancePlayer | src/part1tovm.py:48-68 | the pointer advances by one cyclic scan over the movers; the game is unchanged |
| Ivml.Interpreter.ReactToArrowKey | src/ivmltovmr.py:15-24 | continues iff the step stays on the board, then the cursor moves by the vector; otherwise aborts with the cursor unchanged |
| Ivml.Interpreter.Start | src/ivmltovmr.py:30-33 | continues iff four integers that gamma_new accepts on a board of at most 1,000,000 fields; then a fresh empty game and a pointer at player 1 |
| Ivml.Interpreter.Move | src/ivmltovmr.py:41-44 | the current player's move at the cursor; the turn advances only when it succeeds |
| Ivml.Interpreter.Golden | src/ivmltovmr.py:45-48 | the current player's golden move at the cursor; the turn advances only when it succeeds |
| Ivml.Interpreter.SkipTurns | src/ivmltovmr.py:49-53 | the pointer advances n times (none for n <= 0); the game is unchanged |
| Ivml.Interpreter.Command | src/ivmltovmr.py:37-57 | the effect CommandEffect lays out per command: END finishes and changes nothing; GOTO sets the cursor to its two integers unchecked, or aborts; MOVE and GOLDEN try the move at the cursor, write the grid (and record the golden move) on success and then pass the turn on; SKIPTURN passes the turn once and SKIPTURNS n times; arrows step the cursor or abort off the board; other words change nothing |
| Ivml.Interpreter.RunStatement | src/ivmltovmr.py:26-57 | an empty statement or one before START aborts; a continuing START creates an empty game of its width, height, players and ceiling, with no golden move used, the pointer at 1 and the cursor kept; in a started program the first word and the rest have the command's effect |
| Ivml.Interpreter.Run | src/ivmltovmr.py:59-63 | statements run in order until one does not continue; an END stops the run before any later statement |
| Converter.KeepLines | src/convert_to_py.py:17 | exactly the lines not containing "#include", in order |
| Converter.KeepLinesTwice | src/convert_to_py.py:16-17 | filtering twice is filtering once |
| Converter.RemoveIncludes | src/convert_to_py.py:16-17 | no line of the result mentions "#include" |
| Converter.RemoveIncludesLines | src/convert_to_py.py:16-17 | the result's lines are the kept lines |
| Converter.RemoveIncludesIdempotent | src/convert_to_py.py:16-17 | removing includes twice is removing them once |
| Converter.Merged | src/convert_to_py.py:20-30 | every merged statement ends on a line containing ';' |
| Converter.MergedCount | src/convert_to_py.py:24-28 | one output line per input line containing ';' |
| Converter.MergedDropsTail | src/convert_to_py.py:24-30 | lines after the last ';' are dropped |
| Converter.TailMergesToNothing | src/convert_to_py.py:24-30 | lines without ';' produce nothing |
| Converter.MergeLines | src/convert_to_py.py:20-30 | the loop's output is the newline-join of the merged statements |
| Converter.LeadingSpaces | src/convert_to_py.py:13 | the length of the leading run of spaces |
| Converter.CollapseSpaces | src/convert_to_py.py:13 | no two consecutive spaces, a leading space kept, never longer |
| Converter.CollapseKeepsText | src/convert_to_py.py:13 | the non-space characters are unchanged |
| Converter.CollapseIdempotent | src/convert_to_py.py:13 | collapsing twice is collapsing once |
| Converter.Preprocess | src/convert_to_py.py:8-13 | removes includes, merges lines and collapses spaces; no two consecutive spaces remain |
| Converter.CheckExclamationMark | src/convert_to_py.py:39-40 | the parts between the '!'s joined with "not "; no '!' remains, and text without '!' is unchanged |
| Converter.CheckNull | src/convert_to_py.py:43-46 | "None" iff the text contains "NULL", otherwise the text unchanged |
| Converter.CheckNullIdempotent | src/convert_to_py.py:43-46 | applying it twice is applying it once |
| Converter.NonEmpty | src/convert_to_py.py:76 | each kept token is non-empty and one of the input's |
| Converter.NonEmptyCounts | src/convert_to_py.py:76 | every non-empty token is kept as often as it occurs, and no empty one |
| Converter.NonEmptyAppend | src/convert_to_py.py:76 | filtering a concatenation concatenates the filtered parts, so the order is kept |
| Converter.StripMarks | src/convert_to_py.py:84 | removes every '*' and "[]", scanning left to right |
| Converter.StripMarksKeeps | src/convert_to_py.py:84 | every character other than '*', '[' and ']' is kept, in order; with no '[' right before a ']', exactly the stars are deleted |
| Converter.StripMarksOfIdentifier | src/convert_to_py.py:84 | a plain identifier is unchanged |
| Converter.GetName | src/convert_to_py.py:74-84 | the name has no space and no '*', and uses only characters of the text |
| Converter.SplitAround | src/convert_to_py.py:76 | splitting around one separator splits each side |
| Converter.TokensAfter | src/convert_to_py.py:76 | a token after a space is the last non-empty token |
| Converter.GetNameOfDeclaration | src/convert_to_py.py:74-84 | the name of "p n", "p *n", "p n[]" and "p n []" is n |
| Converter.ProcessAssignment | src/convert_to_py.py:87-94 | without exactly one '=' the result is " = " |
| Converter.ProcessAssignmentOfDeclaration | src/convert_to_py.py:87-94 | "p n = v;..." becomes "n = v" |
| Converter.ProcessLine | src/convert_to_py.py:104-111 | an assertion iff the line contains "assert"; an assignment iff "=" and not "assert"; a deletion iff "gamma_delete" and neither; otherwise dropped |
| Text.Split | src/convert_to_py.py:17 | str.split(sep): at least one part, none containing the separator |
| Text.JoinSplit | src/convert_to_py.py:17 | joining the parts with the separator gives the text back |
| Text.SplitJoin | src/convert_to_py.py:17 | splitting a join of separator-free parts gives the parts back |
| Text.Words | src/part2.py:28 | str.split(): non-empty words of non-whitespace characters of the text |
| Text.WordsOfSpread | src/part2.py:28 | the words of whitespace, word, whitespace, ..., word, whitespace (inner runs non-empty, outer ones of any length) are exactly those words, in order |
| Text.WordsSkipGap | src/part2.py:28 | leading whitespace does not change the words |
| Text.WordsOfWordThen | src/part2.py:28 | a word followed by whitespace or by nothing is the first word |
| Text.ReplaceChar | src/convert_to_py.py:40 | str.replace of one character: the parts between its occurrences joined with the replacement; it no longer occurs unless the replacement has it |
| Text.NatToString | src/gamma/board.py:23 | str(n): decimal digits without a leading zero |
| Text.DigitsValueOfNat | src/part2.py:28 | int(str(n)) == n |
| Text.NatToStringInjective | src/gamma/board.py:23 | distinct numbers print differently |
| Text.ParseInt | src/ivmltovmr.py:31 | int(t) succeeds iff t is digits with an optional sign |
| Text.ParseIntToString | src/ivmltovmr.py:31 | int(str(i)) == i |
| AreaExamples.Board1Owners | src/gamma/group_areas.py:77-82 | the fields each player holds on the 3 x 3 example, and the one free field |
| AreaExamples.Board1First | src/gamma/group_areas.py:102-103 | on the 3 x 3 example player 1 has one area of five fields |
| AreaExamples.Board1Others | src/gamma/group_areas.py:102-107 | on the 3 x 3 example player 2 has two single-field areas, player 3 one, nobody else any, and (2, 0) is the free field |
| AreaExamples.Board2Areas | src/gamma/group_areas.py:108-113 | on the 2 x 2 example each of four players has one single-field area, and nothing is free |
| AreaExamples.StripOwners | src/gamma/group_areas.py:90-91 | the fields each player holds on the 9 x 1 example |
| AreaExamples.StripLeft | src/gamma/group_areas.py:114-115 | fields 0-2 of the strip are one area |
| AreaExamples.StripMidRight | src/gamma/group_areas.py:114-115 | field 4 alone and fields 7-8 together are areas |
| AreaExamples.StripFirst | src/gamma/group_areas.py:114-115 | player 1 has exactly three areas on the strip |
| AreaExamples.StripOthers | src/gamma/group_areas.py:114-118 | player 2 has two single-field areas on the strip, player 3 one, nobody else any, nothing free |
| AreaExamples.GroupBoard1 | src/gamma/group_areas.py:102-107 | the grouping of the 3 x 3 example has the asserted keys and lists, player 2's in either order |
| AreaExamples.GroupBoard2 | src/gamma/group_areas.py:108-113 | the grouping of the 2 x 2 example is the asserted map |
| AreaExamples.GroupStrip | src/gamma/group_areas.py:114-118 | the grouping of the 9 x 1 example has the asserted keys and areas, each list in some order |

## Left out

- The union-find class `gamma.unionfind` is not part of this model. It is
  replaced by a quick-find value whose union and components are specified
  as a partition.
- The order of the areas inside an owner's list depends on how the
  union-find enumerates its components, so listings are proved up to order.
- The examples at src/gamma/group_areas.py:76-118 are modelled by
  `AreaExamples`, with each list compared up to order (see the line above).
  The 9 x 1 example is made 8 wide (line 90) and then written at column 8;
  the dictionary row accepts that write, and the grouping is asked for
  width 9, so the model's strip is 9 wide.
- `unsafe_move` in src/gamma/gamma.py writes without any check. It is not
  modelled.
- `gamma_delete` (src/part1.py:14-15) only drops a reference. It is not
  modelled.
- Reading stdin, writing stdout and stderr, `exit`, `main` in src/part2.py,
  src/ivmltovmr.py and src/part1tovm.py, the `gen_py`, `convert_file` and
  `convert` directory walking of src/convert_to_py.py, `exec` of test files,
  and the monkey-patching of `part1.*` are left out. Output is modelled as a
  list of `Out`/`Err` values.
- `remove_comments`, `process_assertion` and `process_gamma_deletion` are
  thin wrappers over regular expressions. They are not modelled: `ProcessLine`
  tags the line with the helper it goes to.
- Floats: `wait_time` and SETWAIT in src/part2_interactive.py are left out.
- Random test generation (src/test_scenarios.py, src/make_tests.py,
  src/part1topart2.py) and src/test_tools.py are left out.
- Python's `int()` and `str.isdigit()` also accept non-ASCII digits and
  underscores. The model accepts ASCII decimal digits and an optional sign
  only.
- `str.splitlines` splits on several line-break characters. `Interactive.Lines`
  splits on `\n`, `\r` and the other break characters without the `\r\n`
  pairing, so a `\r\n` yields one extra empty line, which is skipped anyway.
- `Ivml.Interpreter.SkipTurns`: `can_move` asks the game afresh on every
  advance. Asking changes nothing, so the model takes one snapshot of the
  movers for all n advances.
- `Ivml.Interpreter.Run`: an uncaught exception or `exit` ends the Python run.
  The model reports it as an `Aborted` status.
- `StopIteration` raised inside the generator of
  src/part2_interactive.py:196-198 becomes a RuntimeError under PEP 479. The
  model treats END as a clean stop of compilation.
- `NotImplemented("...")` at src/part2.py:67 is not callable, so `I` raises a
  TypeError instead. Either way the run ends, which is what the model states.
- The cost of recomputing the grouping on every call, and concurrency, are
  not modelled.
- `LegacyEngine`: the root-level board.py and group_areas.py that gamma.py
  imports are not part of this model. It runs over the same dense board as
  `Engine`.
- Engine.Gamma.TryMove: the rollback `del` in `try_move` makes the field read
  FREE again on the dictionary board; on the dense grid the model writes FREE
  back, which reads the same (`SparseBoard.SetThenDelete`).
- Engine.Gamma.ProbeGoldenMoves: the brute-force loop of `is_golden_possible`
  (src/gamma/gamma.py:121-127) reads and writes `board[x][y]` with the indices
  transposed. The model probes every field `(row, column)` the right way
  round, so where the transposed read lands on another field or off the
  board the source's answer can differ from the model's.
- Engine.Gamma.IsGoldenPossible: `areas_by_player[player]` at
  src/gamma/gamma.py:119 raises KeyError for a valid player with no fields
  once another owner holds a field. The model reads an empty list there, as
  `gamma.py` does with `.get(p, [])`, and answers. So where the source ends
  the run with that error, the model goes on: `q` for such a player in
  `Batch.Session.RunBatchModeCommand`, and `can_move` in Ivml's turn order,
  which asks for such a player once no free field is left
  (`Ivml.Interpreter.AskMovers`).
- `GroupAreas.Neighbors`: its own contract only bounds the count;
  `GroupAreas.NeighborsExact` states what the neighbours are.

## Findings

| source | as written | input that shows it | evidently intended | confidence | as-written member | corrected member |
|---|---|---|---|---|---|---|
| src/part2_interactive.py:145-150 | UP lowers y while y < height-1, and DOWN raises y while y > 0 | a 3x3 board with the cursor at (0,0) and UP gives y = -1; at (0,2), DOWN gives y = 3 | rigid walls: UP raises y while y < height-1, DOWN lowers it while y > 0, and the cursor stays on the board | high; not executed | Interactive.CursorStepLeavesBoard | Interactive.RigidStep |
| src/part2.py:73-78 | prints "OK <line>" after `gamma_new` even when it returned None, then also reports the error | `B 0 0 1 1` | report OK only when a game was created, and the error otherwise | high; not executed | Batch.RefusedStartReportsOk | Batch.StartReport |
