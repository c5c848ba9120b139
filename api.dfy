/**
 * The public game interface (src/part1.py): argument checks in front of the
 * engine, and plain delegations to it.
 */
module Api {
  import opened Wrappers
  import opened Territory
  import opened Moves
  import opened Boards
  import opened Engine

  /** What `gamma_new` gives: None, the board's ValueError, or a new game. */
  datatype NewResult = Rejected | TooLarge | Created(game: Gamma)

  /** `gamma_new` refuses an empty board and zero players or areas. */
  predicate AcceptsNew(width: int, height: int, players: int, areas: int) {
    !(width * height < 1 || players < 1 || areas < 1)
  }

  /** `gamma_new`. */
  method GammaNew(width: int, height: int, players: int, areas: int) returns (r: NewResult)
    ensures r.Rejected? <==> !AcceptsNew(width, height, players, areas)
    ensures r.TooLarge? <==> AcceptsNew(width, height, players, areas) && width * height > MaxFields
    ensures r.Created? ==> (fresh(r.game) && fresh(r.game.board) && r.game.Valid() &&
      r.game.board.width == width && r.game.board.height == height &&
      r.game.board.grid == EmptyGrid(width, height) &&
      r.game.players == players && r.game.maxAreas == areas && r.game.goldenDone == {})
    ensures r.Created? ==> FieldsAtLeastFree(r.game.board.grid)
  {
    if width * height < 1 || players < 1 || areas < 1 {
      return Rejected;
    }
    var made := NewGame(width, height, players, areas);
    if made.None? {
      return TooLarge;
    }
    EmptyGridAtLeastFree(width, height);
    return Created(made.value);
  }

  /** A new board holds only FREE fields. */
  lemma EmptyGridAtLeastFree(width: int, height: int)
    ensures FieldsAtLeastFree(EmptyGrid(width, height))
  {
    var g := EmptyGrid(width, height);
    forall r, i | 0 <= r < |g| && 0 <= i < |g[r]| ensures g[r][i] >= FREE {
      assert At(g, (r, i)) == FREE;
    }
  }

  /** Writing a player, or FREE, into a field keeps every field at least FREE. */
  lemma PlaceAtLeastFree(g: Grid, c: Coord, v: int)
    requires InGrid(g, c) && v >= FREE && FieldsAtLeastFree(g)
    ensures FieldsAtLeastFree(Place(g, c, v))
  {
    var h := Place(g, c, v);
    forall r, i | 0 <= r < |h| && 0 <= i < |h[r]| ensures h[r][i] >= FREE {
      assert InGrid(g, (r, i)) && At(h, (r, i)) == h[r][i];
    }
  }

  /** The field (x, y) = (column, row) lies on the board. */
  predicate OnBoard(g: Gamma, x: int, y: int)
    reads g, g.board
  {
    !(x < 0 || y < 0 || g.board.width <= x || g.board.height <= y)
  }

  /** `player` is one of the game's players. */
  predicate IsPlayer(g: Gamma, player: int)
    reads g
  {
    !(player < 1 || player > g.players)
  }

  /**
   * A move the game accepts: the field is on the board, the player is one of
   * the players, the field is free, and the player stays within the ceiling:
   * below it, or joining one of their areas.
   */
  ghost predicate MoveSucceeds(g: Gamma, player: int, x: int, y: int)
    reads g, g.board
  {
    g.board.Valid() && OnBoard(g, x, y) && IsPlayer(g, player) &&
    At(g.board.grid, (y, x)) == FREE &&
    (AreaCount(g.board.grid, player) < g.maxAreas || HasNeighborOwnedBy(g.board.grid, (y, x), player))
  }

  /**
   * A golden move the game accepts: the same guards, the player has not used
   * theirs, and taking the field of another player keeps everyone within the ceiling.
   */
  ghost predicate GoldenSucceeds(g: Gamma, player: int, x: int, y: int)
    reads g, g.board
  {
    OnBoard(g, x, y) && IsPlayer(g, player) && player !in g.goldenDone &&
    GoldenTarget(g.board.grid, (y, x), player, g.maxAreas)
  }

  /**
   * `gamma_move`: off-board fields and unknown players are refused untouched;
   * otherwise the engine decides, writing the player into the field on success.
   */
  method GammaMove(g: Gamma, player: int, x: int, y: int) returns (ok: bool)
    requires g.Valid()
    modifies g.board
    ensures g.Valid()
    ensures ok == old(MoveSucceeds(g, player, x, y))
    ensures g.board.grid == if ok then Place(old(g.board.grid), (y, x), player) else old(g.board.grid)
    ensures old(FieldsAtLeastFree(g.board.grid)) ==> FieldsAtLeastFree(g.board.grid)
  {
    if x < 0 || y < 0 || g.board.width <= x || g.board.height <= y {
      return false;
    }
    if player < 1 || player > g.players {
      return false;
    }
    ghost var before := g.board.grid;
    ok := g.TryMove(player, x, y);
    if ok && FieldsAtLeastFree(before) {
      PlaceAtLeastFree(before, (y, x), player);
    }
  }

  /** `gamma_golden_move`: the same guards in front of the once-only golden move. */
  method GammaGoldenMove(g: Gamma, player: int, x: int, y: int) returns (ok: bool)
    requires g.Valid()
    modifies g, g.board
    ensures g.Valid()
    ensures ok == old(GoldenSucceeds(g, player, x, y))
    ensures g.board.grid == if ok then Place(old(g.board.grid), (y, x), player) else old(g.board.grid)
    ensures g.goldenDone == if ok then old(g.goldenDone) + {player} else old(g.goldenDone)
    ensures old(FieldsAtLeastFree(g.board.grid)) ==> FieldsAtLeastFree(g.board.grid)
  {
    if x < 0 || y < 0 || g.board.width <= x || g.board.height <= y {
      return false;
    }
    if player < 1 || player > g.players {
      return false;
    }
    ghost var before := g.board.grid;
    ok := g.TryGoldenMove(player, x, y, true);
    if ok && FieldsAtLeastFree(before) {
      PlaceAtLeastFree(before, (y, x), player);
    }
  }

  /** `gamma_busy_fields`: the engine's count, which refuses only player 0 and numbers above the players. */
  method GammaBusyFields(g: Gamma, player: int) returns (n: int)
    requires g.Valid()
    ensures n == if player == 0 || player > g.players then 0 else |OwnedCells(g.board.grid, player)|
  {
    n := g.GetBusyFields(player);
  }

  /**
   * `gamma_free_fields`: for one of the players, the number of fields a move
   * would succeed on; 0 for player 0 and numbers above the players.
   */
  method GammaFreeFields(g: Gamma, player: int) returns (n: int)
    requires g.Valid()
    ensures n == if player == 0 || player > g.players then 0 else FreeFieldCount(g.board.grid, player, g.maxAreas)
    ensures IsPlayer(g, player) ==> n == |LegalMoves(g.board.grid, player, g.maxAreas)|
  {
    n := g.GetFreeFields(player);
  }

  /** `gamma_golden_possible`. */
  method GammaGoldenPossible(g: Gamma, player: int) returns (r: bool)
    requires g.Valid()
    modifies g, g.board
    ensures g.Valid() && g.board.grid == old(g.board.grid) && g.goldenDone == old(g.goldenDone)
    ensures r == GoldenPossible(g.board.grid, g.players, g.maxAreas, g.goldenDone, player)
  {
    r := g.IsGoldenPossible(player);
  }

  /** `gamma_board`: the board's picture, from which the grid reads back. */
  function GammaBoard(g: Gamma): (s: string)
    reads g, g.board
    ensures FieldsAtLeastFree(g.board.grid) ==> ReadBoard(s) == Some(g.board.grid)
  {
    g.board.Print()
  }
}
