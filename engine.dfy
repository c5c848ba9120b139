/**
 * The game engine (src/gamma/gamma.py): a board, the number of players, the
 * area ceiling and the set of players who have used their golden move.
 *
 * Every committed move keeps the board within the ceiling (Valid), and the
 * queries are proved against what a move would do: the free-field count is
 * the number of legal moves, and a golden move succeeds exactly when the grid
 * it produces is within the ceiling.
 */
module Engine {
  import opened Wrappers
  import opened Territory
  import opened Moves
  import opened Boards
  import GroupAreas

  /** Some cell holds a value other than p and FREE (an owner p could take from). */
  predicate HasOtherOwner(g: Grid, p: int) {
    exists c :: c in Cells(g) && At(g, c) != p && At(g, c) != FREE
  }

  /** A golden move of p onto c succeeds: c holds another player and the result is within the ceiling. */
  ghost predicate GoldenTarget(g: Grid, c: Coord, p: int, maxAreas: int) {
    InGrid(g, c) && At(g, c) != FREE && At(g, c) != p &&
    WithinCeiling(Place(g, c, p), maxAreas)
  }

  /**
   * `is_golden_possible`: a present player who has not used the golden move, with
   * some other player on the board, and either below the ceiling or with some
   * cell whose golden move succeeds.
   */
  ghost function GoldenPossible(g: Grid, players: int, maxAreas: int, done: set<int>, p: int): bool {
    if p == 0 || p > players || p in done then false
    else if !HasOtherOwner(g, p) then false
    else if ListedAreaCount(g, p) < maxAreas then true
    else exists c :: c in Cells(g) && At(g, c) != 0 && GoldenTarget(g, c, p, maxAreas)
  }

  class Gamma {
    const board: Board
    const players: int
    const maxAreas: int
    var goldenDone: set<int>

    /** The board is a rectangle and no player is above the ceiling. */
    ghost predicate Valid()
      reads this, board
    {
      board.Valid() && WithinCeiling(board.grid, maxAreas)
    }

    /** A fresh game on an empty board; the size check is NewGame's. */
    constructor (width: int, height: int, players: int, areas: int)
      requires width * height <= MaxFields
      ensures Valid() && fresh(board)
      ensures board.width == width && board.height == height && board.grid == EmptyGrid(width, height)
      ensures this.players == players && maxAreas == areas && goldenDone == {}
    {
      board := new Board(width, height);
      this.players := players;
      maxAreas := areas;
      goldenDone := {};
      FreeGridWithinCeiling(EmptyGrid(width, height), areas);
    }

    /** `_is_in_valid_state`: no owner but FREE lists more areas than the ceiling. */
    method IsInValidState() returns (ok: bool)
      requires board.Valid()
      ensures ok <==> WithinCeiling(board.grid, maxAreas)
    {
      var areas := board.GetGroupedAreas();
      if FREE in areas {
        areas := areas - {FREE};
      }
      CeilingFromListing(board.grid, areas, maxAreas);
      ok := AllWithin(areas, maxAreas);
    }

    /** `all(len(player_areas) <= max_areas for ...)` over the listed owners. */
    static method AllWithin(areas: map<int, seq<set<Coord>>>, maxAreas: int) returns (ok: bool)
      ensures ok <==> forall p :: p in areas ==> |areas[p]| <= maxAreas
    {
      var keys := areas.Keys;
      while keys != {}
        invariant keys <= areas.Keys
        invariant forall p :: p in areas && p !in keys ==> |areas[p]| <= maxAreas
        decreases keys
      {
        if forall q :: q !in keys {
          assert false;
        }
        var p :| p in keys;
        if |areas[p]| > maxAreas {
          return false;
        }
        keys := keys - {p};
      }
      return true;
    }

    /**
     * `try_move`: player 0 and a taken field are refused; otherwise the move
     * stands exactly when the board stays within the ceiling, and a refused
     * move leaves the field free again.
     */
    method TryMove(player: int, column: int, row: int) returns (moved: bool)
      requires board.Valid() && 0 <= row < Dim(board.height) && 0 <= column < Dim(board.width)
      modifies board
      ensures board.Valid()
      ensures moved <==> (player != 0 && old(At(board.grid, (row, column))) == FREE &&
        WithinCeiling(Place(old(board.grid), (row, column), player), maxAreas))
      ensures board.grid == if moved then Place(old(board.grid), (row, column), player) else old(board.grid)
      ensures WithinCeiling(old(board.grid), maxAreas) && player != FREE ==>
        (moved <==> (player != 0 && old(At(board.grid, (row, column))) == FREE &&
          (AreaCount(old(board.grid), player) < maxAreas ||
           HasNeighborOwnedBy(old(board.grid), (row, column), player))))
    {
      var c := (row, column);
      if player == 0 {
        return false;
      }
      if board.grid[row][column] != FREE {
        return false;
      }
      ghost var g := board.grid;
      if player != FREE && WithinCeiling(g, maxAreas) {
        MoveKeepsCeiling(g, c, player, maxAreas);
      }
      board.grid := Place(board.grid, c, player);
      var ok := IsInValidState();
      if ok {
        return true;
      }
      // The field is deleted, so it reads as free again.
      board.grid := Place(board.grid, c, FREE);
      PlaceTwice(g, c, player, FREE);
      PlaceSame(g, c);
      return false;
    }

    /**
     * `try_golden_move`: takes a field of another player. With the check on, a
     * player may do it once; with it off (as `is_golden_possible` probes) the
     * board is put back even when the move would stand.
     */
    method TryGoldenMove(player: int, column: int, row: int, checkGoldenDone: bool)
      returns (moved: bool)
      requires Valid() && 0 <= row < Dim(board.height) && 0 <= column < Dim(board.width)
      modifies this, board
      ensures Valid()
      ensures moved <==> (player != 0 && !(checkGoldenDone && player in old(goldenDone)) &&
        GoldenTarget(old(board.grid), (row, column), player, maxAreas))
      ensures board.grid ==
        if moved && checkGoldenDone then Place(old(board.grid), (row, column), player) else old(board.grid)
      ensures goldenDone == if moved && checkGoldenDone then old(goldenDone) + {player} else old(goldenDone)
    {
      var c := (row, column);
      if player == 0 {
        return false;
      }
      if checkGoldenDone && player in goldenDone {
        return false;
      }
      var field := board.grid[row][column];
      if field == FREE || field == player {
        return false;
      }
      ghost var g := board.grid;
      board.grid := Place(board.grid, c, FREE);
      PlaceTwice(g, c, FREE, player);
      moved := TryMove(player, column, row);
      if moved && checkGoldenDone {
        goldenDone := goldenDone + {player};
      } else {
        PlaceTwice(g, c, player, field);
        PlaceTwice(g, c, FREE, field);
        PlaceSame(g, c);
        board.grid := Place(board.grid, c, field);
      }
    }

    /**
     * `get_free_fields`: for a player in range, the free fields when below the
     * ceiling, else the free fields next to one of the player's own.
     */
    method GetFreeFields(player: int) returns (n: int)
      requires Valid()
      ensures n == if player == 0 || player > players then 0 else FreeFieldCount(board.grid, player, maxAreas)
      ensures 0 < player <= players ==> n == |LegalMoves(board.grid, player, maxAreas)|
    {
      if player == 0 || player > players {
        return 0;
      }
      var g := board.grid;
      if player != FREE {
        LegalMovesExact(g, player, maxAreas);
      }
      var areas := board.GetGroupedAreas();
      var free: set<Coord> := if FREE in areas then areas[FREE][0] else {};
      var playerAreas := ListedFor(areas, player);
      ListedLength(g, areas, player);
      if |playerAreas| < maxAreas {
        return |free|;
      }
      ListedCover(g, areas, player);
      n := CountBorderFields(g, board.width, board.height, player, free, playerAreas);
    }

    /** `_can_move_to_empty_field`: some neighbour lies in one of the player's areas. */
    static method CanMoveToEmptyField(playerAreas: seq<set<Coord>>, neighbors: seq<(int, int)>)
      returns (r: bool)
      ensures r <==> exists i, A :: 0 <= i < |neighbors| && A in playerAreas && neighbors[i] in A
    {
      for i := 0 to |neighbors|
        invariant forall j, A :: 0 <= j < i && A in playerAreas ==> neighbors[j] !in A
      {
        if exists A :: A in playerAreas && neighbors[i] in A {
          return true;
        }
      }
      return false;
    }

    /** `get_busy_fields`: for a player in range, the number of fields the player holds. */
    method GetBusyFields(player: int) returns (n: int)
      requires board.Valid()
      ensures n == if player == 0 || player > players then 0 else |OwnedCells(board.grid, player)|
    {
      if player == 0 || player > players {
        return 0;
      }
      var g := board.grid;
      n := 0;
      for y := 0 to |g|
        invariant n == GridCount(g[..y], player)
      {
        assert g[..y + 1][..y] == g[..y];
        n := n + RowCount(g[y], player);
      }
      assert g[..|g|] == g;
      GridCountIsOwnedCells(g, player);
    }

    /**
     * `is_golden_possible`: decided by the shortcuts, or by trying a golden move
     * (with the once-only check off) on every field until one would stand. The
     * board and the used set are left as they were.
     */
    method IsGoldenPossible(player: int) returns (r: bool)
      requires Valid()
      modifies this, board
      ensures Valid() && board.grid == old(board.grid) && goldenDone == old(goldenDone)
      ensures r == GoldenPossible(board.grid, players, maxAreas, goldenDone, player)
    {
      if player == 0 || player > players {
        return false;
      }
      if player in goldenDone {
        return false;
      }
      ghost var g := board.grid;
      var areas := board.GetGroupedAreas();
      OthersListed(g, areas, player);
      if areas.Keys - {player, FREE} == {} {
        return false;
      }
      ListedLength(g, areas, player);
      if |ListedFor(areas, player)| < maxAreas {
        return true;
      }
      r := ProbeGoldenMoves(player);
    }

    /** The brute-force part of `is_golden_possible`, over the rows and columns. */
    method ProbeGoldenMoves(player: int) returns (r: bool)
      requires Valid() && player != 0
      modifies this, board
      ensures Valid() && board.grid == old(board.grid) && goldenDone == old(goldenDone)
      ensures r <==> exists c :: (c in Cells(board.grid) && At(board.grid, c) != 0 &&
        GoldenTarget(board.grid, c, player, maxAreas))
    {
      ghost var g := board.grid;
      ghost var done := goldenDone;
      var height, width := Dim(board.height), Dim(board.width);
      for y := 0 to height
        invariant Valid() && board.grid == g && goldenDone == done
        invariant forall c :: c in Cells(g) && c.0 < y ==> !(At(g, c) != 0 && GoldenTarget(g, c, player, maxAreas))
      {
        for x := 0 to width
          invariant Valid() && board.grid == g && goldenDone == done
          invariant forall c :: c in Cells(g) && (c.0 < y || (c.0 == y && c.1 < x)) ==>
            !(At(g, c) != 0 && GoldenTarget(g, c, player, maxAreas))
        {
          var prevPlayer := board.grid[y][x];
          if prevPlayer != 0 {
            var ok := TryGoldenMove(player, x, y, false);
            if ok {
              assert (y, x) in Cells(g);
              return true;
            }
          }
        }
      }
      return false;
    }
  }

  /**
   * The number of free fields from which one of the player's areas is one
   * step away, asking `_can_move_to_empty_field` about each.
   */
  method CountBorderFields(g: Grid, width: int, height: int, player: int,
                           free: set<Coord>, playerAreas: seq<set<Coord>>)
    returns (n: int)
    requires IsRectangle(g, Dim(width), Dim(height)) && free == FreeCells(g)
    requires forall m :: (exists A :: A in playerAreas && m in A) <==> InGrid(g, m) && At(g, m) == player
    ensures n == |BorderCells(g, player)|
  {
    ghost var counted: set<Coord> := {};
    var todo := free;
    n := 0;
    while todo != {}
      invariant todo <= free
      invariant forall c :: c in counted <==> c in free && c !in todo && HasNeighborOwnedBy(g, c, player)
      invariant n == |counted|
      decreases todo
    {
      var c :| c in todo;
      var can := Gamma.CanMoveToEmptyField(playerAreas, GroupAreas.Neighbors(height, width, c.0, c.1));
      NeighbourOwned(g, width, height, c, player, playerAreas);
      if can {
        counted := counted + {c};
        n := n + 1;
      }
      todo := todo - {c};
    }
    assert counted == BorderCells(g, player);
  }

  /** `Gamma(width, height, players, areas)`: None stands for the board's ValueError. */
  method NewGame(width: int, height: int, players: int, areas: int) returns (r: Option<Gamma>)
    ensures r.Some? <==> width * height <= MaxFields
    ensures r.Some? ==> (fresh(r.value) && fresh(r.value.board) && r.value.Valid() &&
      r.value.board.width == width && r.value.board.height == height &&
      r.value.board.grid == EmptyGrid(width, height) &&
      r.value.players == players && r.value.maxAreas == areas && r.value.goldenDone == {})
  {
    if width * height > MaxFields {
      return None;
    }
    var game := new Gamma(width, height, players, areas);
    return Some(game);
  }

  /** Some owner other than p and FREE is listed exactly when one holds a cell. */
  lemma OthersListed(g: Grid, areas: map<int, seq<set<Coord>>>, p: int)
    requires Groups(g, areas)
    ensures areas.Keys - {p, FREE} != {} <==> HasOtherOwner(g, p)
  {
    if HasOtherOwner(g, p) {
      var c :| c in Cells(g) && At(g, c) != p && At(g, c) != FREE;
      GroupKeys(g, areas, At(g, c));
      assert At(g, c) in areas.Keys - {p, FREE};
    }
    var others := areas.Keys - {p, FREE};
    if others != {} {
      if forall q :: q !in others {
        assert false;
      }
      var q :| q in others;
      GroupKeys(g, areas, q);
      var c :| InGrid(g, c) && At(g, c) == q;
      assert c in Cells(g);
    }
  }

  /**
   * A generated neighbour of free cell c lies in one of the areas listed for p
   * exactly when c has a neighbour holding p.
   */
  lemma NeighbourOwned(g: Grid, width: int, height: int, c: Coord, p: int, list: seq<set<Coord>>)
    requires IsRectangle(g, Dim(width), Dim(height))
    requires forall n :: (exists A :: A in list && n in A) <==> InGrid(g, n) && At(g, n) == p
    ensures var nbrs := GroupAreas.Neighbors(height, width, c.0, c.1);
      (exists i, A :: 0 <= i < |nbrs| && A in list && nbrs[i] in A) <==> HasNeighborOwnedBy(g, c, p)
  {
    var nbrs := GroupAreas.Neighbors(height, width, c.0, c.1);
    GroupAreas.NeighborsExact(height, width, c.0, c.1);
    if n :| InGrid(g, n) && Adjacent(c, n) && At(g, n) == p {
      var A :| A in list && n in A;
      var i :| 0 <= i < |nbrs| && nbrs[i] == n;
      assert nbrs[i] in A;
    }
    if i, A :| 0 <= i < |nbrs| && A in list && nbrs[i] in A {
      var n := nbrs[i];
      assert InGrid(g, n) && At(g, n) == p;
      assert Adjacent(c, n);
    }
  }
}
