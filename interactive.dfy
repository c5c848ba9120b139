/**
 * The compiler of the interactive-mode script language (src/part2_interactive.py):
 * it reads statements such as `START w h p a`, `MOVE`, `UP` or `END`, keeps a
 * cursor over the board, and emits the instructions to send to the game.
 */
module Interactive {
  import opened Wrappers
  import opened Text

  // ---------------------------------------------------------------------------
  // The cursor.

  datatype Direction = Up | Down | Right | Left

  /** The step an arrow key means: up raises the row, right raises the column. */
  function Vector(d: Direction): (int, int) {
    match d
    case Up => (0, 1)
    case Down => (0, -1)
    case Right => (1, 0)
    case Left => (-1, 0)
  }

  /** Column x, row y lies on a width-by-height board. */
  predicate OnBoard(x: int, y: int, width: int, height: int) {
    0 <= x < width && 0 <= y < height
  }

  /**
   * `move_cursor` as written: right and left are guarded by the wall they move
   * towards, but up lowers the row when it is below the top and down raises it
   * when it is above the bottom.
   */
  function CursorStep(x: int, y: int, width: int, height: int, d: Direction): (r: (int, int))
    ensures d == Left || d == Right ==> r == RigidStep(x, y, width, height, d)
    ensures d == Up || d == Down ==> r.0 == x && r.1 - y == y - RigidStep(x, y, width, height, d).1
  {
    match d
    case Up => if y < height - 1 then (x, y - 1) else (x, y)
    case Down => if y > 0 then (x, y + 1) else (x, y)
    case Right => if x < width - 1 then (x + 1, y) else (x, y)
    case Left => if x > 0 then (x - 1, y) else (x, y)
  }

  /** As written, the column stays on the board. */
  lemma CursorStepKeepsColumn(x: int, y: int, width: int, height: int, d: Direction)
    requires 0 <= x < width
    ensures 0 <= CursorStep(x, y, width, height, d).0 < width
  {
  }

  /** As written, up from the bottom row and down from the top row leave the board. */
  lemma CursorStepLeavesBoard()
    ensures OnBoard(0, 0, 3, 3) && CursorStep(0, 0, 3, 3, Up) == (0, -1) && !OnBoard(0, -1, 3, 3)
    ensures OnBoard(0, 2, 3, 3) && CursorStep(0, 2, 3, 3, Down) == (0, 3) && !OnBoard(0, 3, 3, 3)
  {
  }

  /**
   * The cursor with rigid walls, as its documentation describes it: the arrow
   * moves one field in its direction, and a move across a wall is ignored.
   */
  function RigidStep(x: int, y: int, width: int, height: int, d: Direction): (r: (int, int))
    ensures OnBoard(x, y, width, height) ==> OnBoard(r.0, r.1, width, height)
    ensures OnBoard(x, y, width, height) ==>
      var v := Vector(d);
      r == if OnBoard(x + v.0, y + v.1, width, height) then (x + v.0, y + v.1) else (x, y)
  {
    match d
    case Up => if y < height - 1 then (x, y + 1) else (x, y)
    case Down => if y > 0 then (x, y - 1) else (x, y)
    case Right => if x < width - 1 then (x + 1, y) else (x, y)
    case Left => if x > 0 then (x - 1, y) else (x, y)
  }

  // ---------------------------------------------------------------------------
  // Statements and instructions.

  /** An instruction for the game; this compiler only emits text to send as it is. */
  datatype Instruction = Verbatim(text: string)

  /** Why compiling stopped with a ValueError. */
  datatype Reason = DuplicateStart | MissingStart | BadArguments

  /** What compiling one statement gives: instructions, the end of the program, or an error. */
  datatype Outcome = Emitted(instructions: seq<Instruction>) | Stop | Error(reason: Reason)

  /** The four numbers of `START`: exactly four tokens, each an integer to `int`. */
  function StartArgs(args: seq<string>): (r: Option<(int, int, int, int)>)
    ensures r.Some? <==> |args| == 4 && forall i :: 0 <= i < 4 ==> ParseInt(args[i]).Some?
  {
    if |args| != 4 then None
    else
      var w, h, p, a := ParseInt(args[0]), ParseInt(args[1]), ParseInt(args[2]), ParseInt(args[3]);
      if w.Some? && h.Some? && p.Some? && a.Some? then Some((w.value, h.value, p.value, a.value))
      else None
  }

  /** The text `START` sends: "I", then the arguments as written, one space apart. */
  function StartText(args: seq<string>): string {
    "I " + Join(args, " ") + "\n"
  }

  /** The text `START` sends splits at its spaces back into "I" and the arguments. */
  lemma StartTextReadsBack(args: seq<string>)
    requires args != [] && forall i :: 0 <= i < |args| ==> ' ' !in args[i]
    ensures var t := StartText(args);
      t[|t| - 1] == '\n' && Split(t[..|t| - 1], ' ') == ["I"] + args
  {
    var parts := ["I"] + args;
    assert Join(parts, " ") == "I" + " " + Join(parts[1..], " ");
    assert parts[1..] == args;
    var t := StartText(args);
    assert t[..|t| - 1] == Join(parts, [' ']);
    SplitJoin(parts, ' ');
  }

  /** The state of the compiler: the cursor, the game's parameters, and whether START was seen. */
  class Compiler {
    var x: int
    var y: int
    var width: int
    var height: int
    var players: int
    var areas: int
    var initialized: bool

    constructor ()
      ensures x == 0 && y == 0 && width == 0 && height == 0 && players == 0 && areas == 0
      ensures !initialized
    {
      x, y := 0, 0;
      width, height, players, areas := 0, 0, 0, 0;
      initialized := false;
    }

    /** `get_starting_position`: the bottom-left field, whatever the game. */
    static function StartingPosition(width: int, height: int, players: int, areas: int): (r: (int, int))
      ensures r == (0, 0)
      ensures width > 0 && height > 0 ==> OnBoard(r.0, r.1, width, height)
    {
      (0, 0)
    }

    /**
     * `move_cursor` as written: the columns keep to the board, and the rows
     * move opposite to the rigid-wall step (see `CursorStep`).
     */
    method MoveCursor(d: Direction)
      modifies this
      ensures (x, y) == CursorStep(old(x), old(y), width, height, d)
      ensures width == old(width) && height == old(height) && players == old(players)
      ensures areas == old(areas) && initialized == old(initialized)
      ensures 0 <= old(x) < width ==> 0 <= x < width
    {
      match d
      case Up =>
        if y < height - 1 {
          y := y - 1;
        }
      case Down =>
        if y > 0 {
          y := y + 1;
        }
      case Right =>
        if x < width - 1 {
          x := x + 1;
        }
      case Left =>
        if x > 0 {
          x := x - 1;
        }
    }

    /**
     * `compile_start_instruction`: the four numbers become the game's size,
     * players and areas, the cursor goes to the starting position, and the
     * arguments are sent on as written. None is the ValueError of arguments
     * that are not four integers; then nothing changes.
     */
    method CompileStartInstruction(args: seq<string>) returns (r: Option<Instruction>)
      modifies this
      ensures r.None? <==> StartArgs(args).None?
      ensures r.None? ==>
        (x, y, width, height, players, areas, initialized) == old((x, y, width, height, players, areas, initialized))
      ensures r.Some? ==> (r.value == Verbatim(StartText(args)) &&
        (width, height, players, areas) == StartArgs(args).value &&
        (x, y) == (0, 0) && initialized)
    {
      var parsed := StartArgs(args);
      if parsed.None? {
        return None;
      }
      width, height, players, areas := parsed.value.0, parsed.value.1, parsed.value.2, parsed.value.3;
      x, y := StartingPosition(width, height, players, areas).0, StartingPosition(width, height, players, areas).1;
      initialized := true;
      return Some(Verbatim(StartText(args)));
    }

    /**
     * `compile_statement`: a second START is an error, any statement before
     * START is an error, END stops the program, and everything else emits nothing.
     */
    method CompileStatement(statement: seq<string>) returns (r: Outcome)
      requires statement != []
      modifies this
      ensures initialized == (old(initialized) || (statement[0] == "START" && r.Emitted?))
      ensures r == StatementOutcome(statement, old(initialized))
      ensures statement[0] == "START" && r.Emitted? ==>
        (width, height, players, areas) == StartArgs(statement[1..]).value && (x, y) == (0, 0)
      ensures !(statement[0] == "START" && r.Emitted?) ==>
        (x, y, width, height, players, areas) == old((x, y, width, height, players, areas))
    {
      var compiled: seq<Instruction> := [];
      if statement[0] == "START" {
        if initialized {
          return Error(DuplicateStart);
        }
        var start := CompileStartInstruction(statement[1..]);
        if start.None? {
          return Error(BadArguments);
        }
        compiled := compiled + [start.value];
      }
      if !initialized {
        return Error(MissingStart);
      }
      if statement[0] == "END" {
        return Stop;
      }
      return Emitted(compiled);
    }

    /**
     * `compile`: START must come first; then the statements are compiled in
     * order until END, an error, or the end of the text.
     */
    method Compile(raw: string) returns (r: Run)
      modifies this
      ensures r == CompileFrom(Statements(raw), false)
    {
      initialized := false;
      var statements := Statements(raw);
      var out: seq<Instruction> := [];
      var i := 0;
      while i < |statements|
        invariant 0 <= i <= |statements|
        invariant CompileFrom(statements, false) ==
          var rest := CompileFrom(statements[i..], initialized); Run(out + rest.out, rest.end)
      {
        assert statements[i..][1..] == statements[i + 1..];
        var outcome := CompileStatement(statements[i]);
        if !outcome.Emitted? {
          return Run(out, if outcome.Stop? then Stopped else Failed(outcome.reason));
        }
        out := out + outcome.instructions;
        i := i + 1;
      }
      return Run(out, Exhausted);
    }
  }

  /** What `compile_statement` gives for a statement, given whether START was seen. */
  function StatementOutcome(statement: seq<string>, initialized: bool): Outcome
    requires statement != []
  {
    if statement[0] == "START" then
      if initialized then Error(DuplicateStart)
      else if StartArgs(statement[1..]).None? then Error(BadArguments)
      else Emitted([Verbatim(StartText(statement[1..]))])
    else if !initialized then Error(MissingStart)
    else if statement[0] == "END" then Stop
    else Emitted([])
  }

  /** How a program ends: at the end of its text, at END, or with an error. */
  datatype End = Exhausted | Stopped | Failed(reason: Reason)

  /** The instructions a program compiles to, and how it ended. */
  datatype Run = Run(out: seq<Instruction>, end: End)

  /** Compiling a sequence of statements, each a non-empty list of tokens. */
  function CompileFrom(statements: seq<seq<string>>, initialized: bool): Run
    requires forall i :: 0 <= i < |statements| ==> statements[i] != []
  {
    if statements == [] then Run([], Exhausted)
    else
      var outcome := StatementOutcome(statements[0], initialized);
      if outcome.Emitted? then
        var rest := CompileFrom(statements[1..], initialized || statements[0][0] == "START");
        Run(outcome.instructions + rest.out, rest.end)
      else Run([], if outcome.Stop? then Stopped else Failed(outcome.reason))
  }

  /** A program that does not open with START fails at once, emitting nothing. */
  lemma CompileNeedsStart(statements: seq<seq<string>>)
    requires forall i :: 0 <= i < |statements| ==> statements[i] != []
    requires statements != [] && statements[0][0] != "START"
    ensures CompileFrom(statements, false) == Run([], Failed(MissingStart))
  {
  }

  /**
   * At most one instruction is ever emitted, the START text of the first
   * statement; once START has been seen, nothing more is emitted.
   */
  lemma {:induction false} CompileEmitsOnlyStart(statements: seq<seq<string>>, initialized: bool)
    requires forall i :: 0 <= i < |statements| ==> statements[i] != []
    ensures var r := CompileFrom(statements, initialized);
      (initialized ==> r.out == []) &&
      (r.out != [] ==> r.out == [Verbatim(StartText(statements[0][1..]))])
  {
    if statements != [] {
      CompileEmitsOnlyStart(statements[1..], true);
    }
  }

  // ---------------------------------------------------------------------------
  // From text to statements.

  /** The characters at which `str.splitlines` breaks lines. */
  predicate IsLineBreak(c: char) {
    ('\n' <= c <= '\r') || ('\U{1C}' <= c <= '\U{1E}') || c == '\U{85}' || c == '\U{2028}' || c == '\U{2029}'
  }

  /**
   * The pieces between line breaks. `str.splitlines` differs only by empty
   * pieces (it keeps "\r\n" together and drops a final empty piece), and
   * `compile` skips empty lines. No piece holds a line break, and the pieces
   * joined by the breaks of s, in order, give s back.
   */
  function Lines(s: string): (ls: seq<string>)
    ensures |ls| == |Breaks(s)| + 1
    ensures forall k, i :: 0 <= k < |ls| && 0 <= i < |ls[k]| ==> !IsLineBreak(ls[k][i])
    ensures Rejoin(ls, Breaks(s)) == s
  {
    if s == [] then [""]
    else
      var rest := Lines(s[1..]);
      var bs := Breaks(s[1..]);
      if IsLineBreak(s[0]) then
        assert Breaks(s) == [s[0]] + bs;
        assert ([""] + rest)[1..] == rest && ([s[0]] + bs)[1..] == bs;
        [""] + rest
      else
        assert Breaks(s) == bs;
        assert s == [s[0]] + s[1..];
        ExtendFirstLine(s[0], rest, bs);
        [[s[0]] + rest[0]] + rest[1..]
  }

  /** A character that is not a line break, put in front, joins the first piece. */
  lemma ExtendFirstLine(c: char, rest: seq<string>, bs: string)
    requires !IsLineBreak(c) && |rest| == |bs| + 1
    requires forall k, i :: 0 <= k < |rest| && 0 <= i < |rest[k]| ==> !IsLineBreak(rest[k][i])
    ensures var ls := [[c] + rest[0]] + rest[1..];
      Rejoin(ls, bs) == [c] + Rejoin(rest, bs) &&
      forall k, i :: 0 <= k < |ls| && 0 <= i < |ls[k]| ==> !IsLineBreak(ls[k][i])
  {
    var ls := [[c] + rest[0]] + rest[1..];
    if bs != [] {
      assert ls[1..] == rest[1..];
    }
    forall k, i | 0 <= k < |ls| && 0 <= i < |ls[k]| ensures !IsLineBreak(ls[k][i]) {
      if k == 0 && i > 0 {
        assert ls[0][i] == rest[0][i - 1];
      } else if k > 0 {
        assert ls[k] == rest[k];
      }
    }
  }

  /** The line breaks of s, in order. */
  function Breaks(s: string): string {
    if s == [] then "" else (if IsLineBreak(s[0]) then [s[0]] else "") + Breaks(s[1..])
  }

  /** ls[0] + bs[0] + ls[1] + ... + bs[n-1] + ls[n]. */
  function Rejoin(ls: seq<string>, bs: string): string
    requires |ls| == |bs| + 1
    decreases |bs|
  {
    if bs == [] then ls[0] else ls[0] + [bs[0]] + Rejoin(ls[1..], bs[1..])
  }

  /** A line `compile` runs: it has a token, and its first token does not open a comment. */
  predicate IsStatementLine(line: string) {
    Words(line) != [] && Words(line)[0][0] != '#'
  }

  /**
   * The statements of a text: the tokens of each line that is neither blank nor
   * a comment; each has a first token, which does not open a comment.
   */
  function StatementsOf(lines: seq<string>): (st: seq<seq<string>>)
    ensures forall i :: 0 <= i < |st| ==> st[i] != [] && st[i][0] != [] && st[i][0][0] != '#'
    ensures |st| <= |lines|
  {
    if lines == [] then []
    else if !IsStatementLine(lines[0]) then StatementsOf(lines[1..])
    else [Words(lines[0])] + StatementsOf(lines[1..])
  }

  /** The indices of the statement lines from `from` on, in order. */
  ghost function StatementIndices(lines: seq<string>, from: nat): seq<nat>
    requires from <= |lines|
    decreases |lines| - from
  {
    if from == |lines| then []
    else if IsStatementLine(lines[from]) then [from] + StatementIndices(lines, from + 1)
    else StatementIndices(lines, from + 1)
  }

  /**
   * The statements of lines[from..] are the tokens of its statement lines, one
   * per line, in input order, and no statement line is skipped.
   */
  lemma {:induction false} StatementsAreKeptLines(lines: seq<string>, from: nat)
    requires from <= |lines|
    ensures var st := StatementsOf(lines[from..]);
      var idx := StatementIndices(lines, from);
      |st| == |idx| &&
      (forall k :: 0 <= k < |idx| ==>
        from <= idx[k] < |lines| && IsStatementLine(lines[idx[k]]) && st[k] == Words(lines[idx[k]])) &&
      (forall k, j :: 0 <= k < j < |idx| ==> idx[k] < idx[j]) &&
      (forall i :: from <= i < |lines| && IsStatementLine(lines[i]) ==> i in idx)
    decreases |lines| - from
  {
    if from < |lines| {
      StatementsAreKeptLines(lines, from + 1);
      assert lines[from..][1..] == lines[from + 1..];
      assert lines[from..][0] == lines[from];
    }
  }

  function Statements(raw: string): (st: seq<seq<string>>)
    ensures forall i :: 0 <= i < |st| ==> st[i] != [] && st[i][0] != [] && st[i][0][0] != '#'
  {
    StatementsOf(Lines(raw))
  }
}
