/**
 * The batch-mode front end (src/part2.py): it reads statements line by line,
 * starts a game with `B`, then runs the one-letter commands against it,
 * answering on standard output and reporting `ERROR <line>` on standard error.
 */
module Batch {
  import opened Wrappers
  import opened Text
  import opened Territory
  import opened Moves
  import opened Boards
  import opened Engine
  import opened Api

  // ---------------------------------------------------------------------------
  // Reading arguments.

  /** The five characters `isspace` accepts: tab, space, vertical tab, form feed, carriage return. */
  const Whitespaces: string := "\t \U{0B}\U{0C}\r"

  predicate IsBlank(c: char) {
    c in Whitespaces
  }

  /** `isspace`: every character is one of the five; true of "". Such a text holds no words. */
  predicate IsSpace(s: string)
    ensures IsSpace(s) ==> IsGap(s) && Words(s) == []
  {
    if forall i :: 0 <= i < |s| ==> IsBlank(s[i]) then
      BlanksHoldNoWords(s);
      true
    else
      false
  }

  /** A text of blanks is whitespace to `str.split()`, so it splits into no words. */
  lemma BlanksHoldNoWords(s: string)
    requires forall i :: 0 <= i < |s| ==> IsBlank(s[i])
    ensures IsGap(s) && Words(s) == []
  {
    forall i | 0 <= i < |s|
      ensures IsWhitespace(s[i])
    {
      BlankIsWhitespace(s[i]);
    }
    WordsSkipGap(s, "");
    assert s + "" == s;
  }

  /** The largest unsigned 32-bit number. */
  const MaxUint32: int := 0x1_0000_0000 - 1

  /** `COMMAND_ARGS`: how many arguments each command letter takes; None for the KeyError. */
  function Arity(command: char): (r: Option<nat>)
    ensures r.Some? <==> command in "BImgbfqp"
    ensures r.Some? ==> r.value <= 4
  {
    if command == 'B' || command == 'I' then Some(4)
    else if command == 'm' || command == 'g' then Some(3)
    else if command == 'b' || command == 'f' || command == 'q' then Some(1)
    else if command == 'p' then Some(0)
    else None
  }

  /** Only blanks and ASCII decimal digits. */
  predicate BlanksAndDigits(s: string) {
    forall c :: c in s ==> IsBlank(c) || IsDigit(c)
  }

  /** Every word of a text of blanks and digits is a non-empty run of digits. */
  lemma WordsAreDigits(s: string)
    requires BlanksAndDigits(s)
    ensures forall k :: 0 <= k < |Words(s)| ==> AllDigits(Words(s)[k])
  {
    forall k, i | 0 <= k < |Words(s)| && 0 <= i < |Words(s)[k]| ensures IsDigit(Words(s)[k][i]) {
      var c := Words(s)[k][i];
      assert c in s && !IsWhitespace(c);
      if IsBlank(c) {
        BlankIsWhitespace(c);
      }
    }
  }

  /** The five blanks are whitespace to `str.split`. */
  lemma BlankIsWhitespace(c: char)
    requires IsBlank(c)
    ensures IsWhitespace(c)
  {
    assert c == Whitespaces[0] || c == Whitespaces[1] || c == Whitespaces[2] || c == Whitespaces[3] || c == Whitespaces[4];
  }

  /**
   * `parse_unsigned_ints`: None when a character is neither blank nor a digit,
   * when the count of numbers is not `expected`, or when one exceeds 2^32 - 1;
   * otherwise the numbers in order.
   */
  function ParseUnsignedInts(s: string, expected: int): (r: Option<seq<nat>>)
    ensures r.Some? <==> (BlanksAndDigits(s) && |Words(s)| == expected &&
      forall k :: 0 <= k < |Words(s)| ==> AllDigits(Words(s)[k]) && DigitsValue(Words(s)[k]) <= MaxUint32)
    ensures r.Some? ==> |r.value| == expected && forall k :: 0 <= k < |r.value| ==> r.value[k] <= MaxUint32
    ensures r.Some? ==> forall k :: 0 <= k < |r.value| ==> r.value[k] == DigitsValue(Words(s)[k])
  {
    if !BlanksAndDigits(s) then None
    else
      WordsAreDigits(s);
      var ws := Words(s);
      if |ws| != expected || exists k :: 0 <= k < |ws| && DigitsValue(ws[k]) > MaxUint32 then None
      else Some(seq(|ws|, k requires 0 <= k < |ws| => DigitsValue(ws[k])))
  }

  /** The arguments of a command as written: each number after one space. */
  function Spaced(xs: seq<nat>): string {
    if xs == [] then "" else " " + NatToString(xs[0]) + Spaced(xs[1..])
  }

  /** A number written after a blank is the first word. */
  lemma WordsOfNumber(x: nat, t: string)
    requires t == [] || IsWhitespace(t[0])
    ensures Words(" " + NatToString(x) + t) == [NatToString(x)] + Words(t)
  {
    var d := NatToString(x);
    var s := " " + d + t;
    assert s[1..] == d + t;
    assert forall i :: 0 <= i < |d| ==> !IsWhitespace(d[i]) by {
      forall i | 0 <= i < |d| ensures !IsWhitespace(d[i]) {
        assert IsDigit(d[i]);
      }
    }
    WordLengthOf(d, t);
    assert (d + t)[0] == d[0] && IsDigit(d[0]);
    assert (d + t)[..|d|] == d && (d + t)[|d|..] == t;
  }

  lemma {:induction false} WordsOfSpaced(xs: seq<nat>)
    ensures |Words(Spaced(xs))| == |xs|
    ensures forall k :: 0 <= k < |xs| ==> Words(Spaced(xs))[k] == NatToString(xs[k])
  {
    if xs != [] {
      WordsOfSpaced(xs[1..]);
      WordsOfNumber(xs[0], Spaced(xs[1..]));
      assert Spaced(xs) == " " + NatToString(xs[0]) + Spaced(xs[1..]);
    }
  }

  /** Arguments written one space apart parse back to themselves. */
  lemma ParseSpaced(xs: seq<nat>)
    requires forall k :: 0 <= k < |xs| ==> xs[k] <= MaxUint32
    ensures ParseUnsignedInts(Spaced(xs), |xs|) == Some(xs)
  {
    var s := Spaced(xs);
    assert BlanksAndDigits(s) by {
      SpacedBlanksAndDigits(xs);
    }
    var ws := Words(s);
    assert |ws| == |xs| && forall k :: 0 <= k < |xs| ==> AllDigits(ws[k]) && DigitsValue(ws[k]) == xs[k] by {
      WordsOfSpaced(xs);
      forall k | 0 <= k < |xs| ensures AllDigits(ws[k]) && DigitsValue(ws[k]) == xs[k] {
        DigitsValueOfNat(xs[k]);
      }
    }
    assert seq(|ws|, k requires 0 <= k < |ws| => DigitsValue(ws[k])) == xs;
  }

  /**
   * Numbers written with any runs of the five blanks between them (at least one
   * blank between two numbers, any number at either end, leading zeros
   * allowed) parse to their values in order.
   */
  lemma ParseLayout(ds: seq<string>, gaps: seq<string>)
    requires |gaps| == |ds| + 1
    requires forall k :: 0 <= k < |gaps| ==> IsSpace(gaps[k])
    requires forall k :: 0 < k < |ds| ==> gaps[k] != []
    requires forall k :: 0 <= k < |ds| ==> ds[k] != [] && AllDigits(ds[k]) && DigitsValue(ds[k]) <= MaxUint32
    ensures ParseUnsignedInts(Spread(ds, gaps), |ds|) == Some(seq(|ds|, k requires 0 <= k < |ds| => DigitsValue(ds[k])))
  {
    var s := Spread(ds, gaps);
    forall k | 0 <= k < |gaps| ensures IsGap(gaps[k]) {
      forall i | 0 <= i < |gaps[k]| ensures IsWhitespace(gaps[k][i]) {
        BlankIsWhitespace(gaps[k][i]);
      }
    }
    forall k | 0 <= k < |ds| ensures IsWord(ds[k]) {
      assert forall i :: 0 <= i < |ds[k]| ==> IsDigit(ds[k][i]);
    }
    WordsOfSpread(ds, gaps);
    SpreadBlanksAndDigits(ds, gaps);
  }

  lemma {:induction false} SpreadBlanksAndDigits(ds: seq<string>, gaps: seq<string>)
    requires |gaps| == |ds| + 1
    requires forall k :: 0 <= k < |gaps| ==> IsSpace(gaps[k])
    requires forall k :: 0 <= k < |ds| ==> AllDigits(ds[k])
    ensures BlanksAndDigits(Spread(ds, gaps))
    decreases |ds|
  {
    forall c | c in gaps[0] ensures IsBlank(c) {
      var i :| 0 <= i < |gaps[0]| && gaps[0][i] == c;
    }
    if ds != [] {
      SpreadBlanksAndDigits(ds[1..], gaps[1..]);
      forall c | c in ds[0] ensures IsDigit(c) {
        var i :| 0 <= i < |ds[0]| && ds[0][i] == c;
      }
    }
  }

  lemma {:induction false} SpacedBlanksAndDigits(xs: seq<nat>)
    ensures BlanksAndDigits(Spaced(xs))
  {
    if xs != [] {
      SpacedBlanksAndDigits(xs[1..]);
      var d := NatToString(xs[0]);
      forall c | c in d ensures IsDigit(c) {
        var i :| 0 <= i < |d| && d[i] == c;
      }
    }
  }

  // ---------------------------------------------------------------------------
  // Answers.

  /** A line of output: text for standard output, or the error report for a line. */
  datatype Output = Out(text: string) | Err(line: int)

  function BoolText(b: bool): string {
    if b then "1\n" else "0\n"
  }

  function NumberText(n: int): string {
    IntToString(n) + "\n"
  }

  /**
   * What `run_start_game_command` reports for a well-formed `B`, as the code
   * has it: "OK" always, and an error after it when no game was created.
   */
  function StartReportAsWritten(created: bool, line: int): (r: seq<Output>)
    ensures |r| >= 1 && r[0] == Out("OK " + IntToString(line) + "\n")
    ensures Err(line) in r <==> !created
  {
    [Out("OK " + IntToString(line) + "\n")] + (if created then [] else [Err(line)])
  }

  /** A `B` that `gamma_new` refuses is reported "OK" all the same. */
  lemma RefusedStartReportsOk(line: int)
    ensures StartReportAsWritten(false, line)[0] == Out("OK " + IntToString(line) + "\n")
    ensures Err(line) in StartReportAsWritten(false, line)
  {
    assert StartReportAsWritten(false, line)[1] == Err(line);
  }

  /** What a well-formed `B` reports: "OK" exactly when the game was created, the error otherwise. */
  function StartReport(created: bool, line: int): (r: seq<Output>)
    ensures |r| == 1 && (r[0].Out? <==> created) && (!created ==> r[0] == Err(line))
  {
    if created then [Out("OK " + IntToString(line) + "\n")] else [Err(line)]
  }

  // ---------------------------------------------------------------------------
  // The statements of an input.

  /**
   * The statements `main` runs, with their line numbers: every line but the
   * last that is neither empty nor a comment.
   */
  function Statements(lines: seq<string>, from: nat): seq<(int, string)>
    requires from <= |lines|
    decreases |lines| - from
  {
    if from + 1 >= |lines| then []
    else if lines[from] == [] || lines[from][0] == '#' then Statements(lines, from + 1)
    else [(from + 1, lines[from])] + Statements(lines, from + 1)
  }

  /**
   * Each of `st` is a numbered line after line `from` that is neither empty, a
   * comment nor the last line, and the line numbers increase.
   */
  ghost predicate LinesToRun(lines: seq<string>, st: seq<(int, string)>, from: nat) {
    (forall k :: 0 <= k < |st| ==> (from < st[k].0 < |lines| &&
      lines[st[k].0 - 1] == st[k].1 && st[k].1 != [] && st[k].1[0] != '#')) &&
    (forall k, j :: 0 <= k < j < |st| ==> st[k].0 < st[j].0)
  }

  /** The statements `main` runs are exactly such lines, in input order. */
  lemma {:induction false} StatementsAreLines(lines: seq<string>, from: nat)
    requires from <= |lines|
    ensures LinesToRun(lines, Statements(lines, from), from)
    decreases |lines| - from
  {
    if from + 1 < |lines| {
      StatementsAreLines(lines, from + 1);
      var rest := Statements(lines, from + 1);
      if !(lines[from] == [] || lines[from][0] == '#') {
        var st := [(from + 1, lines[from])] + rest;
        assert Statements(lines, from) == st;
        forall k | 0 <= k < |st|
          ensures from < st[k].0 < |lines| && lines[st[k].0 - 1] == st[k].1 && st[k].1 != [] && st[k].1[0] != '#'
        {
          if k > 0 {
            assert st[k] == rest[k - 1];
          }
        }
        forall k, j | 0 <= k < j < |st| ensures st[k].0 < st[j].0 {
          assert st[j] == rest[j - 1];
          if k > 0 {
            assert st[k] == rest[k - 1];
          }
        }
      }
    }
  }

  /** A line of the input that is not the last, not empty and not a comment is run. */
  lemma {:induction false} StatementRun(lines: seq<string>, from: nat, i: nat)
    requires from <= i < |lines| - 1 && lines[i] != [] && lines[i][0] != '#'
    ensures (i + 1, lines[i]) in Statements(lines, from)
    decreases i - from
  {
    if from < i {
      StatementRun(lines, from + 1, i);
    }
  }

  /** The state of `part2.py`: the game once started, and what has been written. */
  class Session {
    var game: Option<Gamma>
    var log: seq<Output>
    /** The numbered statements handed to `run_command`, in order. */
    ghost var ran: seq<(int, string)>

    ghost function Repr(): set<object>
      reads this
    {
      if game.Some? then {game.value, game.value.board} else {}
    }

    ghost predicate Valid()
      reads this, Repr()
    {
      game.Some? ==> game.value.Valid()
    }

    constructor ()
      ensures game.None? && log == [] && ran == [] && Valid()
    {
      game := None;
      log := [];
      ran := [];
    }

    /**
     * `run_batch_mode_command`: a letter other than m g f b q p, or arguments
     * that do not parse to its arity, is an error; otherwise the game answers.
     */
    method RunBatchModeCommand(command: char, rawArgs: string, line: int)
      requires Valid() && game.Some?
      modifies game.value, game.value.board, this
      ensures Valid() && game == old(game) && ran == old(ran)
      ensures var args := if Arity(command).Some? then ParseUnsignedInts(rawArgs, Arity(command).value) else None;
        var g := game.value;
        if command !in "mgfbqp" || args.None? then
          log == old(log) + [Err(line)] && g.board.grid == old(g.board.grid) && g.goldenDone == old(g.goldenDone)
        else if command == 'm' then
          var ok := old(MoveSucceeds(g, args.value[0], args.value[1], args.value[2]));
          log == old(log) + [Out(BoolText(ok))] && g.goldenDone == old(g.goldenDone) &&
          g.board.grid == if ok then Place(old(g.board.grid), (args.value[2], args.value[1]), args.value[0]) else old(g.board.grid)
        else if command == 'g' then
          var ok := old(GoldenSucceeds(g, args.value[0], args.value[1], args.value[2]));
          log == old(log) + [Out(BoolText(ok))] &&
          g.goldenDone == (if ok then old(g.goldenDone) + {args.value[0]} else old(g.goldenDone)) &&
          g.board.grid == if ok then Place(old(g.board.grid), (args.value[2], args.value[1]), args.value[0]) else old(g.board.grid)
        else (g.board.grid == old(g.board.grid) && g.goldenDone == old(g.goldenDone) &&
          log == old(log) + [Out(
            if command == 'f' then
              NumberText(if IsPlayer(g, args.value[0]) then |LegalMoves(g.board.grid, args.value[0], g.maxAreas)| else 0)
            else if command == 'b' then
              NumberText(if IsPlayer(g, args.value[0]) then |OwnedCells(g.board.grid, args.value[0])| else 0)
            else if command == 'q' then
              BoolText(GoldenPossible(g.board.grid, g.players, g.maxAreas, g.goldenDone, args.value[0]))
            else Render(g.board.grid))])
    {
      if command !in "mgfbqp" {
        log := log + [Err(line)];
        return;
      }
      var args := ParseUnsignedInts(rawArgs, Arity(command).value);
      if args.None? {
        log := log + [Err(line)];
        return;
      }
      var g := game.value;
      var a := args.value;
      if command == 'm' {
        var ok := GammaMove(g, a[0], a[1], a[2]);
        log := log + [Out(BoolText(ok))];
      } else if command == 'g' {
        var ok := GammaGoldenMove(g, a[0], a[1], a[2]);
        log := log + [Out(BoolText(ok))];
      } else if command == 'f' {
        var n := GammaFreeFields(g, a[0]);
        log := log + [Out(NumberText(n))];
      } else if command == 'b' {
        var n := GammaBusyFields(g, a[0]);
        log := log + [Out(NumberText(n))];
      } else if command == 'q' {
        var r := GammaGoldenPossible(g, a[0]);
        log := log + [Out(BoolText(r))];
      } else {
        log := log + [Out(GammaBoard(g))];
      }
    }

    /**
     * `run_start_game_command`: `I` aborts (interactive mode is not supported),
     * `B` with four numbers asks `gamma_new` for a game, anything else is an
     * error. An oversized board aborts with the board's ValueError.
     */
    method RunStartGameCommand(command: char, rawArgs: string, line: int) returns (aborted: bool)
      requires game.None?
      modifies this
      ensures Valid() && ran == old(ran)
      ensures aborted <==> (command == 'I' ||
        (command == 'B' && ParseUnsignedInts(rawArgs, 4).Some? &&
         var a := ParseUnsignedInts(rawArgs, 4).value;
         AcceptsNew(a[0], a[1], a[2], a[3]) && a[0] * a[1] > MaxFields))
      ensures aborted ==> log == old(log) && game.None?
      ensures !aborted && command == 'B' && ParseUnsignedInts(rawArgs, 4).Some? ==>
        var a := ParseUnsignedInts(rawArgs, 4).value;
        var created := AcceptsNew(a[0], a[1], a[2], a[3]);
        log == old(log) + StartReport(created, line) && (game.Some? <==> created) &&
        (created ==> (fresh(game.value) && fresh(game.value.board) && game.value.Valid() &&
          game.value.board.grid == EmptyGrid(a[0], a[1]) &&
          game.value.board.width == a[0] && game.value.board.height == a[1] &&
          game.value.players == a[2] && game.value.maxAreas == a[3] && game.value.goldenDone == {}))
      ensures !aborted && !(command == 'B' && ParseUnsignedInts(rawArgs, 4).Some?) ==>
        log == old(log) + [Err(line)] && game.None?
    {
      if command == 'I' {
        return true;
      }
      if command == 'B' {
        var args := ParseUnsignedInts(rawArgs, 4);
        if args.None? {
          log := log + [Err(line)];
          return false;
        }
        var a := args.value;
        var made := GammaNew(a[0], a[1], a[2], a[3]);
        if made.TooLarge? {
          return true;
        }
        if made.Created? {
          game := Some(made.game);
        }
        log := log + StartReport(made.Created?, line);
        return false;
      }
      log := log + [Err(line)];
      return false;
    }

    /**
     * `run_command`: the letter, then the arguments, which must start with a
     * blank when there are any; before a game only starting commands count.
     * True means the statement aborted the run.
     */
    method RunCommand(statement: string, line: int) returns (aborted: bool)
      requires Valid() && statement != []
      modifies this, Repr()
      ensures Valid() && ran == old(ran) + [(line, statement)]
      ensures |statement| > 1 && !IsBlank(statement[1]) ==>
        !aborted && log == old(log) + [Err(line)] && game == old(game)
      ensures old(game).Some? ==> !aborted && game == old(game)
      ensures old(game).None? && game.Some? ==> fresh(game.value) && fresh(game.value.board)
      ensures aborted ==> log == old(log)
      ensures (statement[1..] == [] || IsBlank(statement[1])) && old(game).Some? ==>
        var command, rawArgs := statement[0], statement[1..];
        var args := if Arity(command).Some? then ParseUnsignedInts(rawArgs, Arity(command).value) else None;
          var g := game.value;
          if command !in "mgfbqp" || args.None? then
            log == old(log) + [Err(line)] && g.board.grid == old(g.board.grid) && g.goldenDone == old(g.goldenDone)
          else if command == 'm' then
            var ok := old(MoveSucceeds(g, args.value[0], args.value[1], args.value[2]));
            log == old(log) + [Out(BoolText(ok))] && g.goldenDone == old(g.goldenDone) &&
            g.board.grid == if ok then Place(old(g.board.grid), (args.value[2], args.value[1]), args.value[0]) else old(g.board.grid)
          else if command == 'g' then
            var ok := old(GoldenSucceeds(g, args.value[0], args.value[1], args.value[2]));
            log == old(log) + [Out(BoolText(ok))] &&
            g.goldenDone == (if ok then old(g.goldenDone) + {args.value[0]} else old(g.goldenDone)) &&
            g.board.grid == if ok then Place(old(g.board.grid), (args.value[2], args.value[1]), args.value[0]) else old(g.board.grid)
          else (g.board.grid == old(g.board.grid) && g.goldenDone == old(g.goldenDone) &&
            log == old(log) + [Out(
              if command == 'f' then
                NumberText(if IsPlayer(g, args.value[0]) then |LegalMoves(g.board.grid, args.value[0], g.maxAreas)| else 0)
              else if command == 'b' then
                NumberText(if IsPlayer(g, args.value[0]) then |OwnedCells(g.board.grid, args.value[0])| else 0)
              else if command == 'q' then
                BoolText(GoldenPossible(g.board.grid, g.players, g.maxAreas, g.goldenDone, args.value[0]))
              else Render(g.board.grid))])
      ensures (statement[1..] == [] || IsBlank(statement[1])) && old(game).None? ==>
        var command, rawArgs := statement[0], statement[1..];
        (aborted <==> (command == 'I' ||
          (command == 'B' && ParseUnsignedInts(rawArgs, 4).Some? &&
           var a := ParseUnsignedInts(rawArgs, 4).value;
           AcceptsNew(a[0], a[1], a[2], a[3]) && a[0] * a[1] > MaxFields)))
      ensures (statement[1..] == [] || IsBlank(statement[1])) && old(game).None? ==>
        var command, rawArgs := statement[0], statement[1..];
        (aborted ==> log == old(log) && game.None?)
      ensures (statement[1..] == [] || IsBlank(statement[1])) && old(game).None? ==>
        var command, rawArgs := statement[0], statement[1..];
        (!aborted && command == 'B' && ParseUnsignedInts(rawArgs, 4).Some? ==>
          var a := ParseUnsignedInts(rawArgs, 4).value;
          var created := AcceptsNew(a[0], a[1], a[2], a[3]);
          log == old(log) + StartReport(created, line) && (game.Some? <==> created) &&
          (created ==> (fresh(game.value) && fresh(game.value.board) && game.value.Valid() &&
            game.value.board.grid == EmptyGrid(a[0], a[1]) &&
            game.value.board.width == a[0] && game.value.board.height == a[1] &&
            game.value.players == a[2] && game.value.maxAreas == a[3] && game.value.goldenDone == {})))
      ensures (statement[1..] == [] || IsBlank(statement[1])) && old(game).None? ==>
        var command, rawArgs := statement[0], statement[1..];
        (!aborted && !(command == 'B' && ParseUnsignedInts(rawArgs, 4).Some?) ==>
          log == old(log) + [Err(line)] && game.None?)
    {
      ran := ran + [(line, statement)];
      var command, rawArgs := statement[0], statement[1..];
      if rawArgs != [] && !IsBlank(rawArgs[0]) {
        log := log + [Err(line)];
        return false;
      }
      if game.None? {
        aborted := RunStartGameCommand(command, rawArgs, line);
      } else {
        RunBatchModeCommand(command, rawArgs, line);
        aborted := false;
      }
    }

    /**
     * One turn of `main`'s loop, on line i + 1: the last line is an error unless
     * empty, an empty or comment line is skipped, any other line is run.
     */
    method RunLine(lines: seq<string>, i: nat) returns (aborted: bool)
      requires Valid() && i < |lines|
      modifies this, Repr()
      ensures Valid()
      ensures old(game).Some? ==> game == old(game)
      ensures old(game).None? && game.Some? ==> fresh(game.value) && fresh(game.value.board)
      ensures !aborted ==> ran + Statements(lines, i + 1) == old(ran) + Statements(lines, i)
      ensures aborted ==> Statements(lines, i) != [] && ran == old(ran) + [Statements(lines, i)[0]]
      ensures i + 1 == |lines| ==> !aborted && log == old(log) + (if lines[i] != [] then [Err(i + 1)] else [])
    {
      var line := i + 1;
      var statement := lines[i];
      if line == |lines| {
        if statement != "" {
          log := log + [Err(line)];
        }
        return false;
      }
      if statement == "" || statement[0] == '#' {
        return false;
      }
      assert Statements(lines, i) == [(line, statement)] + Statements(lines, i + 1);
      aborted := RunCommand(statement, line);
    }

    /**
     * `main`: the input is split at line breaks; every line but the last that
     * is neither empty nor a comment is run, in order, until one aborts; a
     * last line that is not empty (input not ending in a line break) is an error.
     */
    method RunInput(input: string) returns (aborted: bool)
      requires Valid()
      modifies this, Repr()
      ensures Valid()
      ensures !aborted ==> ran == old(ran) + Statements(Split(input, '\n'), 0)
      ensures aborted ==> ran <= old(ran) + Statements(Split(input, '\n'), 0)
      ensures var lines := Split(input, '\n');
        !aborted && lines[|lines| - 1] != [] ==> |log| > 0 && log[|log| - 1] == Err(|lines|)
    {
      var lines := Split(input, '\n');
      ghost var st := Statements(lines, 0);
      var i := 0;
      while i < |lines|
        invariant 0 <= i <= |lines| && Valid()
        invariant ran + Statements(lines, i) == old(ran) + st
        invariant i == |lines| && lines[|lines| - 1] != [] ==> |log| > 0 && log[|log| - 1] == Err(|lines|)
        invariant old(game).Some? ==> game == old(game)
        invariant old(game).None? && game.Some? ==> fresh(game.value) && fresh(game.value.board)
      {
        ghost var before := ran;
        aborted := RunLine(lines, i);
        if aborted {
          ghost var rest := Statements(lines, i);
          assert old(ran) + st == ran + rest[1..] by {
            assert rest == [rest[0]] + rest[1..];
            assert before + rest == before + [rest[0]] + rest[1..];
          }
          return true;
        }
        i := i + 1;
      }
      assert Statements(lines, |lines|) == [];
      return false;
    }
  }
}
