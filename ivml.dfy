/**
 * The interpreter of the intermediate test language (src/ivmltovmr.py): it
 * keeps a cursor, a game and a turn pointer, and carries out one statement
 * after another until `END` or the first failure. A failed assertion, a
 * failed conversion and the `exit` of an arrow key that leaves the board all
 * end the program; here they are the outcome Aborted.
 */
module Ivml {
  import opened Wrappers
  import opened Text
  import opened Territory
  import opened Moves
  import opened Boards
  import opened Engine
  import opened Api
  import opened TurnOrder
  import Interactive

  /** How one statement ends: go on, stop at `END`, or end the program. */
  datatype Status = Continue | Finished | Aborted

  /** The arrow keys and the step each one means. */
  function Arrow(cmd: string): (r: Option<Interactive.Direction>)
    ensures r.Some? <==> cmd in {"UP", "DOWN", "LEFT", "RIGHT"}
  {
    if cmd == "UP" then Some(Interactive.Up)
    else if cmd == "DOWN" then Some(Interactive.Down)
    else if cmd == "LEFT" then Some(Interactive.Left)
    else if cmd == "RIGHT" then Some(Interactive.Right)
    else None
  }

  /**
   * The players `can_move` answers yes for: one with a field a move would
   * succeed on, or one whose golden move is possible.
   */
  ghost function Movers(grid: Grid, players: int, maxAreas: int, done: set<int>): set<int> {
    set p | 1 <= p <= players &&
      (|LegalMoves(grid, p, maxAreas)| != 0 || GoldenPossible(grid, players, maxAreas, done, p))
  }

  /** A set as the question "is p in it". */
  function InSet(s: set<int>): int -> bool {
    p => p in s
  }

  /** The two integers of `GOTO`: exactly two tokens, each an integer to `int`. */
  function GotoArgs(args: seq<string>): (r: Option<(int, int)>)
    ensures r.Some? <==> |args| == 2 && ParseInt(args[0]).Some? && ParseInt(args[1]).Some?
    ensures r.Some? ==> r.value == (ParseInt(args[0]).value, ParseInt(args[1]).value)
  {
    if |args| != 2 then None
    else
      var a, b := ParseInt(args[0]), ParseInt(args[1]);
      if a.Some? && b.Some? then Some((a.value, b.value)) else None
  }

  /**
   * What one command does to a started game and turn pointer, the cursor
   * going from (x0, y0) to (x1, y1): `END` finishes; `GOTO` jumps to its two
   * integers or ends the program; `MOVE` and `GOLDEN` try the move at the
   * cursor and pass the turn on when it succeeds; `SKIPTURN` passes the turn
   * once and `SKIPTURNS n` n times; an arrow key steps the cursor or ends the
   * program; any other word changes nothing.
   */
  /**
   * A game just made by `START args`: the board and limits are the four
   * numbers, every field is free, no golden move is used, and player 1 is on turn.
   */
  predicate FreshStart(game: Gamma, pointer: PlayerPointer, args: seq<string>)
    reads game, game.board, pointer
  {
    Interactive.StartArgs(args).Some? &&
    var (w, h, p, a) := Interactive.StartArgs(args).value;
    game.board.width == w && game.board.height == h && game.board.grid == EmptyGrid(w, h) &&
    game.players == p && game.maxAreas == a && game.goldenDone == {} && pointer.current == 1
  }

  twostate predicate CommandEffect(game: Gamma, pointer: PlayerPointer, x0: int, y0: int, x1: int, y1: int,
                                   cmd: string, args: seq<string>, status: Status)
    requires old(game.Valid()) && game.players >= 1
    reads game, game.board, pointer
  {
    (status == Finished <==> cmd == "END") &&
    (cmd == "GOTO" ==>
      (status == Continue <==> GotoArgs(args).Some?) &&
      (status == Continue ==> (x1, y1) == GotoArgs(args).value)) &&
    (cmd == "SKIPTURNS" ==> (status == Continue <==> |args| >= 1 && ParseInt(args[0]).Some?)) &&
    (cmd in {"MOVE", "GOLDEN", "SKIPTURN"} ==> status == Continue && x1 == x0 && y1 == y0) &&
    (Arrow(cmd).Some? ==>
      (status == Continue <==>
        OnBoard(game, x0 + Interactive.Vector(Arrow(cmd).value).0, y0 + Interactive.Vector(Arrow(cmd).value).1))) &&
    (Arrow(cmd).None? && cmd !in {"GOTO", "END", "MOVE", "GOLDEN", "SKIPTURN", "SKIPTURNS"} ==>
      (status == Continue && x1 == x0 && y1 == y0 &&
       game.board.grid == old(game.board.grid) && game.goldenDone == old(game.goldenDone) &&
       pointer.current == old(pointer.current))) &&
    (cmd in {"GOTO", "END"} || Arrow(cmd).Some? || (cmd == "SKIPTURNS" && status == Aborted) ==>
      (game.board.grid == old(game.board.grid) && game.goldenDone == old(game.goldenDone) &&
       pointer.current == old(pointer.current))) &&
    (cmd == "MOVE" ==>
      var moved := old(MoveSucceeds(game, pointer.current, x0, y0));
      game.board.grid == (if moved then Place(old(game.board.grid), (y0, x0), old(pointer.current))
                          else old(game.board.grid)) &&
      game.goldenDone == old(game.goldenDone) &&
      pointer.current == (if moved then Step(old(pointer.current), game.players,
        InSet(Movers(game.board.grid, game.players, game.maxAreas, game.goldenDone)))
        else old(pointer.current))) &&
    (cmd == "GOLDEN" ==>
      var moved := old(GoldenSucceeds(game, pointer.current, x0, y0));
      game.board.grid == (if moved then Place(old(game.board.grid), (y0, x0), old(pointer.current))
                          else old(game.board.grid)) &&
      game.goldenDone == (if moved then old(game.goldenDone) + {old(pointer.current)}
                          else old(game.goldenDone)) &&
      pointer.current == (if moved then Step(old(pointer.current), game.players,
        InSet(Movers(game.board.grid, game.players, game.maxAreas, game.goldenDone)))
        else old(pointer.current))) &&
    (cmd == "SKIPTURN" ==>
      game.board.grid == old(game.board.grid) && game.goldenDone == old(game.goldenDone) &&
      pointer.current == Step(old(pointer.current), game.players,
        InSet(Movers(game.board.grid, game.players, game.maxAreas, game.goldenDone)))) &&
    (cmd == "SKIPTURNS" && status == Continue ==>
      var n := ParseInt(args[0]).value;
      game.board.grid == old(game.board.grid) && game.goldenDone == old(game.goldenDone) &&
      pointer.current == Advanced(old(pointer.current), game.players,
        InSet(Movers(game.board.grid, game.players, game.maxAreas, game.goldenDone)),
        if n < 0 then 0 else n)) &&
    (cmd in {"END", "SKIPTURNS"} || (cmd == "GOTO" && status == Aborted) ==> x1 == x0 && y1 == y0) &&
    (Arrow(cmd).Some? ==>
      var (nx, ny) := (x0 + Interactive.Vector(Arrow(cmd).value).0, y0 + Interactive.Vector(Arrow(cmd).value).1);
      (status == Continue ==> x1 == nx && y1 == ny) && (status != Continue ==> status == Aborted && x1 == x0 && y1 == y0))
  }

  class Interpreter {
    var x: int
    var y: int
    var g: Option<Gamma>
    var player: Option<PlayerPointer>
    /** The statements carried out so far, in order. */
    ghost var trace: seq<string>

    ghost function Repr(): set<object>
      reads this
    {
      (if g.Some? then {g.value, g.value.board} else {}) +
      (if player.Some? then {player.value} else {})
    }

    /** After `START` both the game and the pointer exist, and they agree on the players. */
    ghost predicate Valid()
      reads this, Repr()
    {
      (g.Some? <==> player.Some?) &&
      (g.Some? ==> g.value.Valid() && g.value.players >= 1 && player.value.players == g.value.players)
    }

    /** Every object now in the representation was in it before or is new. */
    twostate predicate ReprGrows()
      reads this, Repr()
    {
      forall o :: o in Repr() ==> o in old(Repr()) || fresh(o)
    }

    ghost predicate Started()
      reads this
    {
      g.Some? && player.Some?
    }

    /** The class defaults: cursor at (0, 0), no game, no pointer. */
    constructor ()
      ensures x == 0 && y == 0 && g.None? && player.None? && trace == [] && Valid()
    {
      x, y := 0, 0;
      g, player := None, None;
      trace := [];
    }

    /**
     * Who can move now, asked player by player as `can_move` asks: the
     * questions leave the game as it was.
     */
    method AskMovers() returns (movers: set<int>)
      requires Valid() && Started()
      modifies g.value, g.value.board
      ensures Valid()
      ensures g.value.board.grid == old(g.value.board.grid) && g.value.goldenDone == old(g.value.goldenDone)
      ensures movers == Movers(g.value.board.grid, g.value.players, g.value.maxAreas, g.value.goldenDone)
    {
      var game := g.value;
      movers := {};
      var p := 1;
      while p <= game.players
        invariant 1 <= p <= game.players + 1
        invariant Valid()
        invariant game.board.grid == old(game.board.grid) && game.goldenDone == old(game.goldenDone)
        invariant movers == set q | 1 <= q < p &&
          (|LegalMoves(game.board.grid, q, game.maxAreas)| != 0 ||
           GoldenPossible(game.board.grid, game.players, game.maxAreas, game.goldenDone, q))
        decreases game.players - p
      {
        var free := GammaFreeFields(game, p);
        var golden := GammaGoldenPossible(game, p);
        if free != 0 || golden {
          movers := movers + {p};
        }
        p := p + 1;
      }
    }

    /**
     * `player.advance()`: the turn passes to the next player in cyclic order
     * who can move in the game as it stands.
     */
    method AdvancePlayer()
      requires Valid() && Started()
      modifies g.value, g.value.board, player.value
      ensures Valid() && g == old(g) && player == old(player)
      ensures g.value.board.grid == old(g.value.board.grid) && g.value.goldenDone == old(g.value.goldenDone)
      ensures player.value.current == Step(old(player.value.current), g.value.players,
        InSet(Movers(g.value.board.grid, g.value.players, g.value.maxAreas, g.value.goldenDone)))
    {
      var movers := AskMovers();
      var _ := player.value.Advance(InSet(movers));
    }

    /**
     * `react_to_array_key`: the cursor steps by the arrow's vector, or the
     * program exits when that step leaves the board.
     */
    method ReactToArrowKey(d: Interactive.Direction) returns (status: Status)
      requires Valid() && Started()
      modifies this
      ensures g == old(g) && player == old(player) && trace == old(trace) && Valid()
      ensures var (nx, ny) := (old(x) + Interactive.Vector(d).0, old(y) + Interactive.Vector(d).1);
        (status == Continue <==> OnBoard(g.value, nx, ny)) &&
        (status != Continue ==> status == Aborted && x == old(x) && y == old(y)) &&
        (status == Continue ==> x == nx && y == ny)
    {
      var (dx, dy) := Interactive.Vector(d);
      var nx, ny := x + dx, y + dy;
      if nx < 0 || ny < 0 || nx >= g.value.board.width || ny >= g.value.board.height {
        return Aborted;
      }
      x, y := nx, ny;
      return Continue;
    }

    /**
     * `START`: a new game from exactly four integers, and a pointer at player
     * 1. Arguments that do not convert, a refused game and a board too large
     * end the program.
     */
    method Start(args: seq<string>) returns (status: Status)
      requires Valid()
      modifies this
      ensures Valid() && x == old(x) && y == old(y) && trace == old(trace)
      ensures status == Continue || status == Aborted
      ensures status == Continue <==> (Interactive.StartArgs(args).Some? &&
        var (w, h, p, a) := Interactive.StartArgs(args).value;
        AcceptsNew(w, h, p, a) && w * h <= MaxFields)
      ensures status == Aborted ==> g == old(g) && player == old(player)
      ensures status == Continue ==> (Started() &&
        var (w, h, p, a) := Interactive.StartArgs(args).value;
        fresh(g.value) && fresh(g.value.board) && fresh(player.value) &&
        g.value.board.width == w && g.value.board.height == h &&
        g.value.board.grid == EmptyGrid(w, h) && g.value.players == p &&
        g.value.maxAreas == a && g.value.goldenDone == {} && player.value.current == 1)
      ensures status == Continue ==> Started() && FreshStart(g.value, player.value, args)
    {
      var parsed := Interactive.StartArgs(args);
      if parsed.None? {
        return Aborted;
      }
      var (w, h, p, a) := parsed.value;
      var made := GammaNew(w, h, p, a);
      if !made.Created? {
        return Aborted;
      }
      g := Some(made.game);
      var pointer := new PlayerPointer(1, p);
      player := Some(pointer);
      return Continue;
    }

    /** `MOVE`: the current player moves at the cursor; on success the turn passes on. */
    method Move()
      requires Valid() && Started()
      modifies g.value, g.value.board, player.value
      ensures Valid() && g == old(g) && player == old(player)
      ensures var moved := old(MoveSucceeds(g.value, player.value.current, x, y));
        g.value.board.grid == (if moved then Place(old(g.value.board.grid), (y, x), old(player.value.current))
                               else old(g.value.board.grid)) &&
        g.value.goldenDone == old(g.value.goldenDone) &&
        player.value.current == (if moved then Step(old(player.value.current), g.value.players,
          InSet(Movers(g.value.board.grid, g.value.players, g.value.maxAreas, g.value.goldenDone)))
          else old(player.value.current))
    {
      var ok := GammaMove(g.value, player.value.current, x, y);
      if ok {
        AdvancePlayer();
      }
    }

    /** `GOLDEN`: the current player's golden move at the cursor; on success the turn passes on. */
    method Golden()
      requires Valid() && Started()
      modifies g.value, g.value.board, player.value
      ensures Valid() && g == old(g) && player == old(player)
      ensures var moved := old(GoldenSucceeds(g.value, player.value.current, x, y));
        g.value.board.grid == (if moved then Place(old(g.value.board.grid), (y, x), old(player.value.current))
                               else old(g.value.board.grid)) &&
        g.value.goldenDone == (if moved then old(g.value.goldenDone) + {old(player.value.current)}
                               else old(g.value.goldenDone)) &&
        player.value.current == (if moved then Step(old(player.value.current), g.value.players,
          InSet(Movers(g.value.board.grid, g.value.players, g.value.maxAreas, g.value.goldenDone)))
          else old(player.value.current))
    {
      var ok := GammaGoldenMove(g.value, player.value.current, x, y);
      if ok {
        AdvancePlayer();
      }
    }

    /**
     * `SKIPTURNS n`: n advances, none for a negative n; who can move is the
     * same at every one of them, since asking changes nothing.
     */
    method SkipTurns(n: int)
      requires Valid() && Started()
      modifies g.value, g.value.board, player.value
      ensures Valid() && g == old(g) && player == old(player)
      ensures g.value.board.grid == old(g.value.board.grid) && g.value.goldenDone == old(g.value.goldenDone)
      ensures player.value.current == Advanced(old(player.value.current), g.value.players,
        InSet(Movers(g.value.board.grid, g.value.players, g.value.maxAreas, g.value.goldenDone)),
        if n < 0 then 0 else n)
    {
      var game, pointer := g.value, player.value;
      ghost var c0 := pointer.current;
      ghost var canMove := InSet(Movers(game.board.grid, game.players, game.maxAreas, game.goldenDone));
      var i := 0;
      while i < n
        invariant 0 <= i <= if n < 0 then 0 else n
        invariant Valid() && g == old(g) && player == old(player)
        invariant game.board.grid == old(game.board.grid) && game.goldenDone == old(game.goldenDone)
        invariant pointer.current == Advanced(c0, game.players, canMove, i)
        decreases n - i
      {
        AdvancedStep(c0, game.players, canMove, i);
        AdvancePlayer();
        i := i + 1;
      }
    }

    /**
     * One command of a started program, the part of `run_statement` after its
     * assertions: `GOTO` needs exactly two integers and `SKIPTURNS` a count,
     * `END` stops the run, an arrow key may exit, and any other word is a no-op.
     */
    method Command(cmd: string, args: seq<string>) returns (status: Status)
      requires Valid() && Started()
      modifies this, g.value, g.value.board, player.value
      ensures Valid() && g == old(g) && player == old(player) && trace == old(trace)
      ensures CommandEffect(g.value, player.value, old(x), old(y), x, y, cmd, args, status)
    {
      if cmd == "GOTO" {
        var parsed := GotoArgs(args);
        if parsed.None? {
          return Aborted;
        }
        x, y := parsed.value.0, parsed.value.1;
        return Continue;
      }
      if cmd == "END" {
        return Finished;
      }
      if cmd == "MOVE" {
        Move();
        return Continue;
      }
      if cmd == "GOLDEN" {
        Golden();
        return Continue;
      }
      if cmd == "SKIPTURN" {
        AdvancePlayer();
        return Continue;
      }
      if cmd == "SKIPTURNS" {
        if |args| < 1 {
          return Aborted;
        }
        var n := ParseInt(args[0]);
        if n.None? {
          return Aborted;
        }
        SkipTurns(n.value);
        return Continue;
      }
      var arrow := Arrow(cmd);
      if arrow.Some? {
        status := ReactToArrowKey(arrow.value);
        return;
      }
      return Continue;
    }

    /**
     * `run_statement`: the first word is the command. `START` makes a new game;
     * before the first one every other statement ends the program, and after
     * it the command is carried out.
     */
    method RunStatement(s: string) returns (status: Status)
      requires Valid()
      modifies this, Repr()
      ensures Valid() && trace == old(trace) + [s]
      ensures ReprGrows()
      ensures Words(s) == [] ==> status == Aborted
      ensures Words(s) != [] && Words(s)[0] == "START" ==>
        (status == Continue <==> (Interactive.StartArgs(Words(s)[1..]).Some? &&
          var (w, h, p, a) := Interactive.StartArgs(Words(s)[1..]).value;
          AcceptsNew(w, h, p, a) && w * h <= MaxFields))
      ensures Words(s) != [] && Words(s)[0] == "START" && status == Continue ==>
        Started() && x == old(x) && y == old(y) && FreshStart(g.value, player.value, Words(s)[1..])
      ensures Words(s) != [] && Words(s)[0] != "START" && !old(Started()) ==> status == Aborted
      ensures status == Finished <==> (Words(s) != [] && Words(s)[0] == "END" && old(Started()))
      ensures Words(s) != [] && Words(s)[0] != "START" && old(Started()) ==>
        g == old(g) && player == old(player)
      ensures Words(s) != [] && Words(s)[0] != "START" && old(Started()) ==>
        CommandEffect(g.value, player.value, old(x), old(y), x, y, Words(s)[0], Words(s)[1..], status)
    {
      var tokens := Words(s);
      if tokens == [] {
        status := Aborted;
      } else if tokens[0] == "START" {
        status := Start(tokens[1..]);
      } else if g.None? || player.None? {
        status := Aborted;
      } else {
        status := Command(tokens[0], tokens[1..]);
      }
      trace := trace + [s];
    }

    /** `run`: the statements in order, up to and including the first that does not continue. */
    method Run(statements: seq<string>) returns (status: Status, executed: nat)
      requires Valid()
      modifies this, Repr()
      ensures Valid() && executed <= |statements|
      ensures trace == old(trace) + statements[..executed]
      ensures status == Continue ==> executed == |statements|
      ensures executed < |statements| ==> status != Continue
      ensures status != Continue ==> executed >= 1
      ensures status == Finished ==>
        (executed >= 1 && Words(statements[executed - 1]) != [] && Words(statements[executed - 1])[0] == "END")
    {
      status, executed := Continue, 0;
      while executed < |statements|
        invariant Valid() && executed <= |statements| && status == Continue
        invariant trace == old(trace) + statements[..executed]
        invariant forall o :: o in Repr() ==> o in old(Repr()) || fresh(o)
        decreases |statements| - executed
      {
        status := RunStatement(statements[executed]);
        executed := executed + 1;
        if status != Continue {
          return;
        }
      }
    }
  }
}
