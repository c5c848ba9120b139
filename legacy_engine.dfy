/**
 * The earlier engine (gamma.py at the repository root). It shares the board and
 * the ceiling rule with Engine, but its moves carry no guards of their own, a
 * failed move restores the old field, and its golden-move query only asks
 * whether another player holds a field.
 */
module LegacyEngine {
  import opened Wrappers
  import opened Territory
  import opened Moves
  import opened Boards
  import Engine

  class LegacyGamma {
    const board: Board
    const players: int
    const maxAreas: int
    var goldenDone: set<int>

    ghost predicate Valid()
      reads this, board
    {
      board.Valid() && WithinCeiling(board.grid, maxAreas)
    }

    /** A fresh game on an empty board; the size check belongs to the caller. */
    constructor (width: int, height: int, players: int, areas: int)
      requires width * height <= MaxFields
      ensures Valid() && fresh(board)
      ensures board.width == width && board.height == height && board.grid == EmptyGrid(width, height)
      ensures this.players == players && maxAreas == areas && goldenDone == {}
    {
      board := new Board(width, height);
      this.players := players;
      maxAreas := areas;
      goldenDone := {};
      FreeGridWithinCeiling(EmptyGrid(width, height), areas);
    }

    /** `_is_in_valid_state`, as in Engine. */
    method IsInValidState() returns (ok: bool)
      requires board.Valid()
      ensures ok <==> WithinCeiling(board.grid, maxAreas)
    {
      var areas := board.GetGroupedAreas();
      if FREE in areas {
        areas := areas - {FREE};
      }
      CeilingFromListing(board.grid, areas, maxAreas);
      ok := Engine.Gamma.AllWithin(areas, maxAreas);
    }

    /**
     * `try_move`: writes the player over whatever the field holds and keeps it
     * exactly when the board stays within the ceiling; otherwise the old value
     * is written back.
     */
    method TryMove(player: int, column: int, row: int) returns (moved: bool)
      requires board.Valid() && 0 <= row < Dim(board.height) && 0 <= column < Dim(board.width)
      modifies board
      ensures board.Valid()
      ensures moved <==> WithinCeiling(Place(old(board.grid), (row, column), player), maxAreas)
      ensures board.grid == if moved then Place(old(board.grid), (row, column), player) else old(board.grid)
    {
      var c := (row, column);
      ghost var g := board.grid;
      var oldValue := board.grid[row][column];
      board.grid := Place(board.grid, c, player);
      var ok := IsInValidState();
      if ok {
        return true;
      }
      PlaceTwice(g, c, player, oldValue);
      PlaceSame(g, c);
      board.grid := Place(board.grid, c, oldValue);
      return false;
    }

    /** `try_golden_move`: once per player, onto a field of another player. */
    method TryGoldenMove(player: int, column: int, row: int) returns (moved: bool)
      requires Valid() && 0 <= row < Dim(board.height) && 0 <= column < Dim(board.width)
      modifies this, board
      ensures Valid()
      ensures moved <==> (player !in old(goldenDone) &&
        Engine.GoldenTarget(old(board.grid), (row, column), player, maxAreas))
      ensures board.grid == if moved then Place(old(board.grid), (row, column), player) else old(board.grid)
      ensures goldenDone == if moved then old(goldenDone) + {player} else old(goldenDone)
    {
      if player in goldenDone {
        return false;
      }
      var field := board.grid[row][column];
      if field == FREE || field == player {
        return false;
      }
      moved := TryMove(player, column, row);
      if moved {
        goldenDone := goldenDone + {player};
      }
    }

    /**
     * `get_free_fields`: None is the KeyError of looking up the free fields on a
     * full board; otherwise all free fields below the ceiling, and the free
     * fields next to one of the player's own at it.
     */
    method GetFreeFields(player: int) returns (r: Option<int>)
      requires Valid()
      ensures r.None? <==> FreeCells(board.grid) == {}
      ensures r.Some? ==> r.value == FreeFieldCount(board.grid, player, maxAreas)
      ensures r.Some? && player != FREE ==> r.value == |LegalMoves(board.grid, player, maxAreas)|
    {
      var g := board.grid;
      if player != FREE {
        LegalMovesExact(g, player, maxAreas);
      }
      var areas := board.GetGroupedAreas();
      if FREE !in areas {
        return None;
      }
      var free := areas[FREE][0];
      var playerAreas := ListedFor(areas, player);
      ListedLength(g, areas, player);
      if |playerAreas| < maxAreas {
        return Some(|free|);
      }
      ListedCover(g, areas, player);
      var n := Engine.CountBorderFields(g, board.width, board.height, player, free, playerAreas);
      return Some(n);
    }

    /** `get_busy_fields`: the number of fields holding the player, with no range check. */
    method GetBusyFields(player: int) returns (n: int)
      requires board.Valid()
      ensures n == |OwnedCells(board.grid, player)|
    {
      var g := board.grid;
      n := 0;
      for y := 0 to |g|
        invariant n == GridCount(g[..y], player)
      {
        assert g[..y + 1][..y] == g[..y];
        n := n + RowCount(g[y], player);
      }
      assert g[..|g|] == g;
      GridCountIsOwnedCells(g, player);
    }

    /** `is_golden_possible`: unused, and some other player holds a field. */
    method IsGoldenPossible(player: int) returns (r: bool)
      requires board.Valid()
      ensures r <==> player !in goldenDone && Engine.HasOtherOwner(board.grid, player)
    {
      if player in goldenDone {
        return false;
      }
      var areas := board.GetGroupedAreas();
      Engine.OthersListed(board.grid, areas, player);
      return areas.Keys - {player, FREE} != {};
    }
  }

  /**
   * The two-player game on a 2-by-2 board with one area each, after player 1
   * takes (0, 0) and player 2 takes (1, 1): the earlier engine reports a golden
   * move possible for player 1, the later one does not, and indeed the only
   * golden move player 1 could make, onto (1, 1), would leave two areas.
   */
  lemma GoldenPossibleEnginesDisagree()
    ensures var g := [[1, FREE], [FREE, 2]];
      Engine.HasOtherOwner(g, 1) &&
      !Engine.GoldenTarget(g, (1, 1), 1, 1) &&
      !Engine.GoldenPossible(g, 2, 1, {}, 1)
  {
    var g := [[1, FREE], [FREE, 2]];
    assert (1, 1) in Cells(g);
    assert AreaCount(g, 1) == 1 by {
      OnlyArea(g, 1, (0, 0));
    }
    TakingTheCornerSplits();
    forall c | c in Cells(g) && At(g, c) != 0 ensures !Engine.GoldenTarget(g, c, 1, 1) {
      assert c == (0, 0) || c == (0, 1) || c == (1, 0) || c == (1, 1);
    }
  }

  /** Player 1 holding two opposite corners of a 2-by-2 board has two areas. */
  lemma TakingTheCornerSplits()
    ensures !WithinCeiling(Place([[1, FREE], [FREE, 2]], (1, 1), 1), 1)
  {
    var g := [[1, FREE], [FREE, 2]];
    var h := Place(g, (1, 1), 1);
    assert g[1][1 := 1] == [FREE, 1];
    assert h == [[1, FREE], [FREE, 1]];
    OneCellArea(h, (0, 0));
    OneCellArea(h, (1, 1));
    assert {(0, 0)} != {(1, 1)} by {
      assert (1, 1) !in {(0, 0)};
    }
    Moves.SubsetCard({{(0, 0)}, {(1, 1)}}, Areas(h, 1));
  }

  /** A claimed cell with no same-owner neighbour is an area by itself. */
  lemma OneCellArea(g: Grid, c: Coord)
    requires InGrid(g, c) && At(g, c) != FREE
    requires forall d :: InGrid(g, d) && Adjacent(c, d) ==> At(g, d) != At(g, c)
    ensures Component(g, c) == {c} && {c} in Areas(g, At(g, c))
  {
    forall e ensures !Linked(g, c, e) {
    }
    IsolatedComponent(g, c);
    ComponentHasSeed(g, c);
  }

  /** An owner holding a single cell has one area. */
  lemma OnlyArea(g: Grid, p: int, c: Coord)
    requires InGrid(g, c) && At(g, c) == p && p != FREE
    requires forall d :: InGrid(g, d) && At(g, d) == p ==> d == c
    ensures AreaCount(g, p) == 1
  {
    forall A | A in Areas(g, p) ensures A == Component(g, c) {
      var d :| d in Cells(g) && At(g, d) == p && A == Component(g, d);
    }
    ComponentHasSeed(g, c);
    assert Areas(g, p) == {Component(g, c)};
  }
}
