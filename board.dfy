/**
 * The game board (src/gamma/board.py): a width-by-height grid of owners, its
 * text picture and its grouping into areas.
 */
module Boards {
  import opened Wrappers
  import opened Territory
  import opened Text
  import GroupAreas

  /** The largest number of fields a board may have. */
  const MaxFields: int := 1000 * 1000

  /** The length Python gives `[x] * n` and `range(n)`: a negative count is empty. */
  function Dim(n: int): nat {
    if n < 0 then 0 else n
  }

  /** `height` rows of `width` FREE cells. */
  function EmptyGrid(width: int, height: int): (g: Grid)
    ensures IsRectangle(g, Dim(width), Dim(height))
    ensures forall c :: InGrid(g, c) ==> At(g, c) == FREE
  {
    seq(Dim(height), _ => seq(Dim(width), _ => FREE))
  }

  class Board {
    const width: int
    const height: int
    var grid: Grid

    ghost predicate Valid()
      reads this
    {
      IsRectangle(grid, Dim(width), Dim(height))
    }

    /** A board of free fields; the size check is NewBoard's. */
    constructor (width: int, height: int)
      requires width * height <= MaxFields
      ensures Valid()
      ensures this.width == width && this.height == height
      ensures grid == EmptyGrid(width, height)
    {
      this.width := width;
      this.height := height;
      grid := EmptyGrid(width, height);
    }

    /** `print`: the rows from the highest to row 0, one line each. */
    function Print(): (s: string)
      reads this
      ensures FieldsAtLeastFree(grid) ==> ReadBoard(s) == Some(grid)
    {
      if FieldsAtLeastFree(grid) then RenderReadBack(grid); Render(grid) else Render(grid)
    }

    /** `get_grouped_areas`: the areas of every owner and the set of free cells. */
    method GetGroupedAreas() returns (areas: map<int, seq<set<Coord>>>)
      requires Valid()
      ensures ListsPlayerAreas(grid, areas)
      ensures FREE in areas <==> FreeCells(grid) != {}
      ensures FREE in areas ==> areas[FREE] == [FreeCells(grid)]
    {
      areas := GroupAreas.GroupAreasByPlayer(grid, Dim(width), Dim(height));
    }
  }

  /** `Board(width, height)`: None stands for the ValueError on an oversized board. */
  method NewBoard(width: int, height: int) returns (r: Option<Board>)
    ensures r.Some? <==> width * height <= MaxFields
    ensures r.Some? ==> (fresh(r.value) && r.value.Valid() &&
      r.value.width == width && r.value.height == height &&
      r.value.grid == EmptyGrid(width, height))
  {
    if width * height > MaxFields {
      return None;
    }
    var b := new Board(width, height);
    return Some(b);
  }

  // ---------------------------------------------------------------------------
  // The text picture.

  /** One field: "." when free, the number up to 9, the number in brackets from 10. */
  function CellText(p: int): string {
    if p == FREE then "." else if p < 10 then IntToString(p) else "[" + NatToString(p) + "]"
  }

  /** A row's fields side by side. */
  function RowText(row: seq<int>): string {
    if row == [] then "" else CellText(row[0]) + RowText(row[1..])
  }

  /** The highest row first, each followed by a line break. */
  function Render(g: Grid): (r: string)
    ensures multiset(r)['\n'] == |g|
  {
    if g == [] then ""
    else
      RowTextNoBreak(g[|g| - 1]);
      RowText(g[|g| - 1]) + "\n" + Render(g[..|g| - 1])
  }

  // ---------------------------------------------------------------------------
  // Reading a picture back: the partner of Render.

  /** The length of the run of decimal digits s starts with. */
  function DigitRun(s: string): (n: nat)
    ensures n <= |s| && AllDigits(s[..n]) && (n < |s| ==> !IsDigit(s[n]))
  {
    if s != [] && IsDigit(s[0]) then
      var k := DigitRun(s[1..]);
      assert s[..k + 1] == [s[0]] + s[1..][..k];
      k + 1
    else 0
  }

  /** The value of a one-field picture prefixed to the rest of a row. */
  function Cons(p: int, rest: Option<seq<int>>): Option<seq<int>> {
    if rest.Some? then Some([p] + rest.value) else None
  }

  /** The fields a row picture shows, or None when it is not a picture. */
  function ReadRow(s: string): Option<seq<int>>
    decreases |s|
  {
    if s == [] then Some([])
    else if s[0] == '.' then Cons(FREE, ReadRow(s[1..]))
    else if IsDigit(s[0]) then Cons(s[0] as int - '0' as int, ReadRow(s[1..]))
    else if s[0] == '[' then
      var n := DigitRun(s[1..]);
      assert s[1..][..n] == s[1..n + 1];
      if n >= 1 && n + 1 < |s| && s[n + 1] == ']' then
        Cons(DigitsValue(s[1..n + 1]), ReadRow(s[n + 2..]))
      else None
    else None
  }

  /** The position of the first line break, or |s| when there is none. */
  function LineEnd(s: string): (k: nat)
    ensures k <= |s| && '\n' !in s[..k] && (k < |s| ==> s[k] == '\n')
  {
    if s == [] || s[0] == '\n' then 0
    else
      var k := LineEnd(s[1..]);
      assert s[..k + 1] == [s[0]] + s[1..][..k];
      k + 1
  }

  /** The grid a picture shows: its lines are rows from the highest down. */
  function ReadBoard(s: string): Option<Grid>
    decreases |s|
  {
    if s == [] then Some([])
    else
      var k := LineEnd(s);
      if k == |s| then None
      else
        var row := ReadRow(s[..k]);
        var below := ReadBoard(s[k + 1..]);
        if row.Some? && below.Some? then Some(below.value + [row.value]) else None
  }

  lemma CellTextNoBreak(p: int)
    ensures '\n' !in CellText(p)
  {
    if p != FREE && p < 10 && p < 0 {
      assert CellText(p) == "-" + NatToString(-p);
      assert AllDigits(NatToString(-p));
    }
  }

  lemma {:induction false} RowTextNoBreak(row: seq<int>)
    ensures '\n' !in RowText(row)
  {
    if row != [] {
      CellTextNoBreak(row[0]);
      RowTextNoBreak(row[1..]);
    }
  }

  /** Reading a field's picture followed by more text reads the field first. */
  lemma ReadCell(p: int, t: string)
    requires p >= FREE
    ensures ReadRow(CellText(p) + t) == Cons(p, ReadRow(t))
  {
    if p == FREE {
      assert (CellText(p) + t)[1..] == t;
    } else if p < 10 {
      ReadDigitCell(p, t);
    } else {
      ReadBracketCell(p, t);
    }
  }

  lemma ReadDigitCell(p: int, t: string)
    requires 0 <= p < 10
    ensures ReadRow(CellText(p) + t) == Cons(p, ReadRow(t))
  {
    var s := CellText(p) + t;
    assert CellText(p) == [DigitChar(p)];
    assert s[0] == DigitChar(p) && s[1..] == t;
  }

  lemma ReadBracketCell(p: int, t: string)
    requires p >= 10
    ensures ReadRow(CellText(p) + t) == Cons(p, ReadRow(t))
  {
    var d := NatToString(p);
    assert CellText(p) + t == "[" + d + ("]" + t);
    ReadBracketDigits(d, t);
    DigitsValueOfNat(p);
  }

  lemma ReadBracketDigits(d: string, t: string)
    requires d != [] && AllDigits(d)
    ensures ReadRow("[" + d + ("]" + t)) == Cons(DigitsValue(d), ReadRow(t))
  {
    var s := "[" + d + ("]" + t);
    assert s[1..] == d + ("]" + t);
    assert DigitRun(s[1..]) == |d| by {
      DigitRunOf(d, "]" + t);
    }
    assert s[1..|d| + 1] == d by {
      assert s[1..|d| + 1] == s[1..][..|d|];
    }
    assert s[|d| + 1] == ']' by {
      assert s[|d| + 1] == s[1..][|d|];
    }
    assert s[|d| + 2..] == t by {
      assert s[|d| + 2..] == s[1..][|d| + 1..];
    }
    ReadBracket(s, |d|);
  }

  /** A bracketed run of digits reads as one field. */
  lemma ReadBracket(s: string, n: nat)
    requires |s| > n + 1 >= 2 && s[0] == '[' && DigitRun(s[1..]) == n && s[n + 1] == ']'
    ensures AllDigits(s[1..n + 1])
    ensures ReadRow(s) == Cons(DigitsValue(s[1..n + 1]), ReadRow(s[n + 2..]))
  {
    assert s[1..][..n] == s[1..n + 1];
  }

  lemma {:induction false} DigitRunOf(d: string, t: string)
    requires AllDigits(d) && t != [] && !IsDigit(t[0])
    ensures DigitRun(d + t) == |d|
  {
    if d != [] {
      assert (d + t)[1..] == d[1..] + t;
      DigitRunOf(d[1..], t);
    } else {
      assert d + t == t;
    }
  }

  /** A row of owners no smaller than FREE reads back from its picture. */
  lemma {:induction false} ReadRowText(row: seq<int>)
    requires forall i :: 0 <= i < |row| ==> row[i] >= FREE
    ensures ReadRow(RowText(row)) == Some(row)
  {
    if row != [] {
      ReadRowText(row[1..]);
      ReadCell(row[0], RowText(row[1..]));
      assert [row[0]] + row[1..] == row;
    }
  }

  /** Every field holds FREE or a number that is not negative, as every move leaves it. */
  predicate FieldsAtLeastFree(g: Grid) {
    forall r, i :: 0 <= r < |g| && 0 <= i < |g[r]| ==> g[r][i] >= FREE
  }

  /** The picture of a board is lossless: reading it gives the grid back. */
  lemma {:induction false} RenderReadBack(g: Grid)
    requires FieldsAtLeastFree(g)
    ensures ReadBoard(Render(g)) == Some(g)
  {
    if g != [] {
      var r := |g| - 1;
      var top, below := g[r], g[..r];
      assert ReadRow(RowText(top)) == Some(top) by {
        ReadRowText(top);
      }
      assert ReadBoard(Render(below)) == Some(below) by {
        forall k, i | 0 <= k < r && 0 <= i < |below[k]| ensures below[k][i] >= FREE {
          assert below[k] == g[k];
        }
        RenderReadBack(below);
      }
      assert ReadBoard(RowText(top) + "\n" + Render(below)) == Some(below + [top]) by {
        RowTextNoBreak(top);
        ReadLine(RowText(top), Render(below));
      }
      assert Render(g) == RowText(top) + "\n" + Render(below);
      assert below + [top] == g;
    }
  }

  /** A line and a line break in front of more lines read as one more row on top. */
  lemma ReadLine(line: string, rest: string)
    requires '\n' !in line
    ensures var row, below := ReadRow(line), ReadBoard(rest);
      ReadBoard(line + "\n" + rest) ==
        if row.Some? && below.Some? then Some(below.value + [row.value]) else None
  {
    var s := line + "\n" + rest;
    assert s == line + ("\n" + rest);
    LineEndAt(line, "\n" + rest);
    assert s[..|line|] == line;
    assert s[|line| + 1..] == rest;
  }

  lemma {:induction false} LineEndAt(line: string, t: string)
    requires '\n' !in line && t != [] && t[0] == '\n'
    ensures LineEnd(line + t) == |line|
  {
    if line != [] {
      assert (line + t)[1..] == line[1..] + t;
      LineEndAt(line[1..], t);
    } else {
      assert line + t == t;
    }
  }
}
