/**
 * The line-oriented C-to-Python transformer of the test converter
 * (src/convert_to_py.py): dropping `#include` lines, merging statements that
 * span lines, collapsing runs of spaces, and the small rewrites of one
 * statement. Text is Python's `str` as a sequence of characters; a
 * one-character pattern (`";" in line`) is character membership.
 */
module Converter {
  import opened Text

  // ---------------------------------------------------------------------------
  // Lines.

  /** The lines that do not mention `#include`, in order. */
  function KeepLines(lines: seq<string>): (kept: seq<string>)
    ensures |kept| <= |lines|
    ensures forall k :: 0 <= k < |kept| ==> !Contains(kept[k], "#include") && kept[k] in lines
    ensures forall k :: 0 <= k < |lines| && !Contains(lines[k], "#include") ==> lines[k] in kept
  {
    if lines == [] then []
    else (if Contains(lines[0], "#include") then [] else [lines[0]]) + KeepLines(lines[1..])
  }

  /** Filtering twice keeps what filtering once keeps. */
  lemma {:induction false} KeepLinesTwice(lines: seq<string>)
    ensures KeepLines(KeepLines(lines)) == KeepLines(lines)
  {
    if lines != [] {
      KeepLinesTwice(lines[1..]);
      var rest := KeepLines(lines[1..]);
      if !Contains(lines[0], "#include") {
        assert KeepLines(lines) == [lines[0]] + rest;
        assert ([lines[0]] + rest)[1..] == rest;
        assert KeepLines([lines[0]] + rest) == [lines[0]] + KeepLines(rest);
      } else {
        assert KeepLines(lines) == rest;
      }
    }
  }

  /** `remove_includes`. */
  function RemoveIncludes(text: string): (r: string)
    ensures forall line :: line in Split(r, '\n') ==> !Contains(line, "#include")
  {
    var kept := KeepLines(Split(text, '\n'));
    if kept == [] then
      assert Split("", '\n') == [""];
      ""
    else
      SplitJoin(kept, '\n');
      Join(kept, "\n")
  }

  /** The lines of the result are exactly the lines kept, when any are kept. */
  lemma RemoveIncludesLines(text: string)
    ensures KeepLines(Split(text, '\n')) != [] ==>
      Split(RemoveIncludes(text), '\n') == KeepLines(Split(text, '\n'))
  {
    var kept := KeepLines(Split(text, '\n'));
    if kept != [] {
      SplitJoin(kept, '\n');
    }
  }

  /** Removing includes again changes nothing. */
  lemma RemoveIncludesIdempotent(text: string)
    ensures RemoveIncludes(RemoveIncludes(text)) == RemoveIncludes(text)
  {
    var kept := KeepLines(Split(text, '\n'));
    if kept != [] {
      RemoveIncludesLines(text);
      KeepLinesTwice(Split(text, '\n'));
    } else {
      assert RemoveIncludes(text) == "";
      assert Split("", '\n') == [""];
      assert !Contains("", "#include");
      assert KeepLines([""]) == [""];
    }
  }

  // ---------------------------------------------------------------------------
  // Merging statements.

  /**
   * What `merge_lines` emits for the lines still to come, with `buffer` the
   * lines gathered since the last ';': each line with a ';' closes one
   * output line, the space-join of the buffered lines and itself.
   */
  function Merged(lines: seq<string>, buffer: seq<string>): (out: seq<string>)
    ensures forall k :: 0 <= k < |out| ==> ';' in out[k]
  {
    if lines == [] then []
    else if ';' in lines[0] then
      JoinEndsWith(buffer, lines[0]);
      [Join(buffer + [lines[0]], " ")] + Merged(lines[1..], [])
    else Merged(lines[1..], buffer + [lines[0]])
  }

  /** A join ends with its last piece, so a ';' in that piece is in the join. */
  lemma {:induction false} JoinEndsWith(buffer: seq<string>, last: string)
    ensures forall c :: c in last ==> c in Join(buffer + [last], " ")
  {
    if buffer != [] {
      JoinEndsWith(buffer[1..], last);
      assert (buffer + [last])[1..] == buffer[1..] + [last];
    }
  }

  /** How many lines hold a ';'. */
  function Closing(lines: seq<string>): nat {
    if lines == [] then 0 else (if ';' in lines[0] then 1 else 0) + Closing(lines[1..])
  }

  /** One output line per line that holds a ';'. */
  lemma {:induction false} MergedCount(lines: seq<string>, buffer: seq<string>)
    ensures |Merged(lines, buffer)| == Closing(lines)
  {
    if lines != [] {
      if ';' in lines[0] {
        MergedCount(lines[1..], []);
      } else {
        MergedCount(lines[1..], buffer + [lines[0]]);
      }
    }
  }

  /** Lines after the last ';' are dropped: appending lines without one changes nothing. */
  lemma {:induction false} MergedDropsTail(lines: seq<string>, buffer: seq<string>, tail: seq<string>)
    requires forall k :: 0 <= k < |tail| ==> ';' !in tail[k]
    ensures Merged(lines + tail, buffer) == Merged(lines, buffer)
  {
    if lines == [] {
      assert lines + tail == tail;
      TailMergesToNothing(tail, buffer);
    } else {
      assert (lines + tail)[0] == lines[0];
      assert (lines + tail)[1..] == lines[1..] + tail;
      if ';' in lines[0] {
        MergedDropsTail(lines[1..], [], tail);
      } else {
        MergedDropsTail(lines[1..], buffer + [lines[0]], tail);
      }
    }
  }

  lemma {:induction false} TailMergesToNothing(tail: seq<string>, buffer: seq<string>)
    requires forall k :: 0 <= k < |tail| ==> ';' !in tail[k]
    ensures Merged(tail, buffer) == []
  {
    if tail != [] {
      TailMergesToNothing(tail[1..], buffer + [tail[0]]);
    }
  }

  /** `merge_lines`: the buffer and the result are lists the loop appends to and resets. */
  method MergeLines(text: string) returns (r: string)
    ensures r == Join(Merged(Split(text, '\n'), []), "\n")
  {
    var lines := Split(text, '\n');
    var buffer: seq<string> := [];
    var res: seq<string> := [];
    for i := 0 to |lines|
      invariant res + Merged(lines[i..], buffer) == Merged(lines, [])
    {
      assert lines[i..][0] == lines[i] && lines[i..][1..] == lines[i + 1..];
      buffer := buffer + [lines[i]];
      if ';' in lines[i] {
        res := res + [Join(buffer, " ")];
        buffer := [];
      }
    }
    assert lines[|lines|..] == [];
    assert res == Merged(lines, []);
    return Join(res, "\n");
  }

  // ---------------------------------------------------------------------------
  // Collapsing spaces.

  /** No two spaces stand next to each other. */
  predicate NoDoubleSpace(s: string) {
    forall i :: 0 <= i < |s| - 1 ==> !(s[i] == ' ' && s[i + 1] == ' ')
  }

  /** The length of the run of spaces s starts with. */
  function LeadingSpaces(s: string): (n: nat)
    ensures n <= |s| && (n < |s| ==> s[n] != ' ')
    ensures forall i :: 0 <= i < n ==> s[i] == ' '
    ensures s != [] && s[0] == ' ' ==> n >= 1
  {
    if s == [] || s[0] != ' ' then 0 else LeadingSpaces(s[1..]) + 1
  }

  /** `re.sub(r" +", " ", s)`: every run of spaces becomes one space. */
  function CollapseSpaces(s: string): (r: string)
    ensures NoDoubleSpace(r)
    ensures (r != [] && r[0] == ' ') <==> (s != [] && s[0] == ' ')
    ensures |r| <= |s|
    decreases |s|
  {
    if s == [] then ""
    else if s[0] == ' ' then
      var rest := CollapseSpaces(s[LeadingSpaces(s)..]);
      assert NoDoubleSpace(" " + rest) by {
        forall i | 0 <= i < |" " + rest| - 1
          ensures !((" " + rest)[i] == ' ' && (" " + rest)[i + 1] == ' ')
        {
          if i > 0 {
            assert (" " + rest)[i] == rest[i - 1] && (" " + rest)[i + 1] == rest[i];
          }
        }
      }
      " " + rest
    else
      var rest := CollapseSpaces(s[1..]);
      assert NoDoubleSpace([s[0]] + rest) by {
        forall i | 0 <= i < |[s[0]] + rest| - 1
          ensures !(([s[0]] + rest)[i] == ' ' && ([s[0]] + rest)[i + 1] == ' ')
        {
          if i > 0 {
            assert ([s[0]] + rest)[i] == rest[i - 1] && ([s[0]] + rest)[i + 1] == rest[i];
          }
        }
      }
      [s[0]] + rest
  }

  /** The characters of s other than the space, in order. */
  function NonSpace(s: string): string {
    if s == [] then "" else (if s[0] == ' ' then "" else [s[0]]) + NonSpace(s[1..])
  }

  lemma {:induction false} NonSpaceOfSpaces(s: string, n: nat)
    requires n <= |s| && forall i :: 0 <= i < n ==> s[i] == ' '
    ensures NonSpace(s) == NonSpace(s[n..])
  {
    if n > 0 {
      NonSpaceOfSpaces(s[1..], n - 1);
      assert s[1..][n - 1..] == s[n..];
    }
  }

  /** Collapsing keeps every other character, in order. */
  lemma {:induction false} CollapseKeepsText(s: string)
    ensures NonSpace(CollapseSpaces(s)) == NonSpace(s)
    decreases |s|
  {
    if s != [] {
      if s[0] == ' ' {
        var n := LeadingSpaces(s);
        CollapseKeepsText(s[n..]);
        NonSpaceOfSpaces(s, n);
        var rest := CollapseSpaces(s[n..]);
        assert (" " + rest)[1..] == rest;
      } else {
        CollapseKeepsText(s[1..]);
        var rest := CollapseSpaces(s[1..]);
        assert ([s[0]] + rest)[1..] == rest;
      }
    }
  }

  /** Text without two spaces in a row is left as it is. */
  lemma {:induction false} CollapseFixed(s: string)
    requires NoDoubleSpace(s)
    ensures CollapseSpaces(s) == s
    decreases |s|
  {
    if s != [] {
      assert NoDoubleSpace(s[1..]) by {
        forall i | 0 <= i < |s[1..]| - 1 ensures !(s[1..][i] == ' ' && s[1..][i + 1] == ' ') {
          assert s[1..][i] == s[i + 1] && s[1..][i + 1] == s[i + 2];
        }
      }
      CollapseFixed(s[1..]);
      if s[0] == ' ' {
        assert LeadingSpaces(s) == 1;
      }
      assert s == [s[0]] + s[1..];
    }
  }

  /** Collapsing twice is collapsing once. */
  lemma CollapseIdempotent(s: string)
    ensures CollapseSpaces(CollapseSpaces(s)) == CollapseSpaces(s)
  {
    CollapseFixed(CollapseSpaces(s));
  }

  /**
   * `preprocess_c_code` after its comments are gone: includes dropped,
   * statements merged, runs of spaces collapsed.
   */
  method Preprocess(noComments: string) returns (r: string)
    ensures r == CollapseSpaces(Join(Merged(Split(RemoveIncludes(noComments), '\n'), []), "\n"))
    ensures NoDoubleSpace(r)
  {
    var merged := MergeLines(RemoveIncludes(noComments));
    r := CollapseSpaces(merged);
  }

  // ---------------------------------------------------------------------------
  // Rewriting one statement.

  /** `check_exclamation_mark`: every '!' becomes "not ". */
  function CheckExclamationMark(text: string): (r: string)
    ensures r == Join(Split(text, '!'), "not ")
    ensures '!' !in r
    ensures '!' !in text ==> r == text
  {
    NoBangUnchanged(text);
    ReplaceChar(text, '!', "not ")
  }

  lemma {:induction false} NoBangUnchanged(text: string)
    ensures '!' !in text ==> ReplaceChar(text, '!', "not ") == text
  {
    if text != [] {
      NoBangUnchanged(text[1..]);
      assert text == [text[0]] + text[1..];
    }
  }

  /** `check_null`: anything mentioning NULL becomes None; the rest is kept. */
  function CheckNull(text: string): (r: string)
    ensures Contains(text, "NULL") ==> r == "None"
    ensures !Contains(text, "NULL") ==> r == text
  {
    if Contains(text, "NULL") then "None" else text
  }

  /** Checking for NULL twice is checking once. */
  lemma CheckNullIdempotent(text: string)
    ensures CheckNull(CheckNull(text)) == CheckNull(text)
  {
    if Contains(text, "NULL") {
      assert !Contains("None", "NULL") by {
        assert "None"[..4] != "NULL" by {
          assert "None"[..4][1] == 'o';
        }
        assert "None"[1..] == "one";
        assert !Contains("one", "NULL");
      }
    }
  }

  /** The non-empty pieces, in order (`filter(lambda s: s != "", ...)`). */
  function NonEmpty(parts: seq<string>): (r: seq<string>)
    ensures forall k :: 0 <= k < |r| ==> r[k] != "" && r[k] in parts
  {
    if parts == [] then []
    else (if parts[0] == "" then [] else [parts[0]]) + NonEmpty(parts[1..])
  }

  /** Every non-empty piece is kept as often as it occurs, and no empty one. */
  lemma {:induction false} NonEmptyCounts(parts: seq<string>)
    ensures multiset(NonEmpty(parts)) == multiset(parts)["" := 0]
  {
    if parts != [] {
      NonEmptyCounts(parts[1..]);
      assert parts == [parts[0]] + parts[1..];
    }
  }

  lemma {:induction false} NonEmptyAppend(a: seq<string>, b: seq<string>)
    ensures NonEmpty(a + b) == NonEmpty(a) + NonEmpty(b)
  {
    if a != [] {
      NonEmptyAppend(a[1..], b);
      assert (a + b)[1..] == a[1..] + b;
    } else {
      assert a + b == b;
    }
  }

  /**
   * `re.sub(r"\*|(\[\])", "", name)`, scanning left to right: a '*' is
   * deleted, a "[]" is deleted, anything else is kept.
   */
  function StripMarks(s: string): (r: string)
    ensures '*' !in r && |r| <= |s|
    ensures forall c :: c in r ==> c in s
  {
    if s == [] then ""
    else if s[0] == '*' then StripMarks(s[1..])
    else if |s| >= 2 && s[0] == '[' && s[1] == ']' then StripMarks(s[2..])
    else [s[0]] + StripMarks(s[1..])
  }

  /** s has a '[' immediately followed by a ']'. */
  predicate HasEmptyBrackets(s: string) {
    exists i :: 0 <= i < |s| - 1 && s[i] == '[' && s[i + 1] == ']'
  }

  /** The characters of s other than '*', '[' and ']', in order. */
  function Unmarked(s: string): string {
    if s == [] then ""
    else (if s[0] == '*' || s[0] == '[' || s[0] == ']' then "" else [s[0]]) + Unmarked(s[1..])
  }

  /**
   * Stripping keeps every other character, in order; without a "[]" it
   * deletes exactly the stars.
   */
  lemma {:induction false} StripMarksKeeps(s: string)
    ensures Unmarked(StripMarks(s)) == Unmarked(s)
    ensures !HasEmptyBrackets(s) ==> StripMarks(s) == ReplaceChar(s, '*', "")
    decreases |s|
  {
    if s == [] {
    } else if s[0] == '*' {
      StripMarksKeeps(s[1..]);
      NoEmptyBracketsTail(s);
    } else if |s| >= 2 && s[0] == '[' && s[1] == ']' {
      StripMarksKeeps(s[2..]);
      assert s[1..][1..] == s[2..];
    } else {
      var rest := StripMarks(s[1..]);
      StripMarksKeeps(s[1..]);
      NoEmptyBracketsTail(s);
      assert ([s[0]] + rest)[1..] == rest;
    }
  }

  lemma NoEmptyBracketsTail(s: string)
    requires s != []
    ensures !HasEmptyBrackets(s) ==> !HasEmptyBrackets(s[1..])
  {
    if HasEmptyBrackets(s[1..]) {
      var i :| 0 <= i < |s[1..]| - 1 && s[1..][i] == '[' && s[1..][i + 1] == ']';
      assert s[i + 1] == '[' && s[i + 2] == ']';
    }
  }

  /** A name in a declaration: no space, star or bracket. */
  predicate IsIdentifier(n: string) {
    n != [] && forall c :: c in n ==> c != ' ' && c != '*' && c != '[' && c != ']' && c != '='
  }

  lemma {:induction false} StripMarksOfIdentifier(n: string, t: string)
    requires forall c :: c in n ==> c != '*' && c != '['
    ensures StripMarks(n + t) == n + StripMarks(t)
  {
    if n != [] {
      assert forall c :: c in n[1..] ==> c in n;
      StripMarksOfIdentifier(n[1..], t);
      assert (n + t)[0] == n[0] && n[0] in n;
      assert (n + t)[1..] == n[1..] + t;
      assert n + StripMarks(t) == [n[0]] + (n[1..] + StripMarks(t));
    } else {
      assert n + t == t;
    }
  }

  /**
   * `get_name`: the last non-empty space-separated token, or the one before a
   * final "[]" (nothing when there is none), without its stars and brackets.
   */
  function GetName(text: string): (r: string)
    ensures ' ' !in r && '*' !in r
    ensures forall c :: c in r ==> c in text
  {
    var split := NonEmpty(Split(text, ' '));
    var name :=
      if split == [] then ""
      else if split[|split| - 1] == "[]" then (if |split| > 1 then split[|split| - 2] else "")
      else split[|split| - 1];
    assert forall c :: c in name ==> c in text && c != ' ' by {
      if name != "" {
        var k :| 0 <= k < |split| && name == split[k];
        assert name in Split(text, ' ');
        var j :| 0 <= j < |Split(text, ' ')| && Split(text, ' ')[j] == name;
        JoinPiece(Split(text, ' '), j, ' ');
        JoinSplit(text, ' ');
      }
    }
    StripMarks(name)
  }

  /** Every character of a piece is in the text the pieces join to. */
  lemma {:induction false} JoinPiece(parts: seq<string>, j: int, sep: char)
    requires 0 <= j < |parts|
    ensures forall c :: c in parts[j] ==> c in Join(parts, [sep])
  {
    if j > 0 {
      JoinPiece(parts[1..], j - 1, sep);
    }
  }

  /** Splitting at a separator splits each side. */
  lemma SplitAround(a: string, b: string, sep: char)
    ensures Split(a + [sep] + b, sep) == Split(a, sep) + Split(b, sep)
  {
    var pa, pb := Split(a, sep), Split(b, sep);
    assert a + [sep] + b == Join(pa + pb, [sep]) by {
      JoinSplit(a, sep);
      JoinSplit(b, sep);
      JoinAppend(pa, pb, [sep]);
    }
    assert forall i :: 0 <= i < |pa + pb| ==> sep !in (pa + pb)[i] by {
      forall i | 0 <= i < |pa + pb| ensures sep !in (pa + pb)[i] {
        if i < |pa| {
          assert (pa + pb)[i] == pa[i];
        } else {
          assert (pa + pb)[i] == pb[i - |pa|];
        }
      }
    }
    SplitJoin(pa + pb, sep);
  }

  /** Joining two runs of pieces is joining each and putting the separator between. */
  lemma {:induction false} JoinAppend(xs: seq<string>, ys: seq<string>, sep: string)
    requires |xs| >= 1 && |ys| >= 1
    ensures Join(xs + ys, sep) == Join(xs, sep) + sep + Join(ys, sep)
  {
    assert (xs + ys)[0] == xs[0];
    if |xs| == 1 {
      assert (xs + ys)[1..] == ys;
    } else {
      assert (xs + ys)[1..] == xs[1..] + ys;
      JoinAppend(xs[1..], ys, sep);
    }
  }

  /** Text without the separator is one piece. */
  lemma SplitWhole(n: string, sep: char)
    requires sep !in n
    ensures Split(n, sep) == [n]
  {
    SplitPrefix(n, "", sep);
    assert n + "" == n;
  }

  /** The tokens of "p t" for a token t without spaces: those of p, then t. */
  lemma TokensAfter(p: string, t: string)
    requires t != [] && ' ' !in t
    ensures NonEmpty(Split(p + " " + t, ' ')) == NonEmpty(Split(p, ' ')) + [t]
  {
    SplitWhole(t, ' ');
    assert p + " " + t == p + [' '] + t;
    SplitAround(p, t, ' ');
    NonEmptyAppend(Split(p, ' '), [t]);
    assert NonEmpty([t]) == [t];
  }

  /** The declared name is read back from a declaration: "int x", "int *x", "int x[]", "int x []". */
  lemma GetNameOfDeclaration(p: string, n: string)
    requires IsIdentifier(n)
    ensures GetName(p + " " + n) == n
    ensures GetName(p + " *" + n) == n
    ensures GetName(p + " " + n + "[]") == n
    ensures GetName(p + " " + n + " []") == n
  {
    GetNamePlain(p, n);
    GetNameStar(p, n);
    GetNameBrackets(p, n);
    GetNameSpacedBrackets(p, n);
  }

  lemma GetNamePlain(p: string, n: string)
    requires IsIdentifier(n)
    ensures GetName(p + " " + n) == n
  {
    var tokens := NonEmpty(Split(p + " " + n, ' '));
    assert tokens == NonEmpty(Split(p, ' ')) + [n] by {
      TokensAfter(p, n);
    }
    assert tokens[|tokens| - 1] == n && n != "[]" by {
      assert n[0] in n;
    }
    assert StripMarks(n) == n by {
      StripMarksOfIdentifier(n, "");
      assert n + "" == n;
    }
  }

  lemma GetNameStar(p: string, n: string)
    requires IsIdentifier(n)
    ensures GetName(p + " *" + n) == n
  {
    var t := "*" + n;
    assert p + " *" + n == p + " " + t;
    var tokens := NonEmpty(Split(p + " " + t, ' '));
    assert tokens == NonEmpty(Split(p, ' ')) + [t] by {
      assert ' ' !in t;
      TokensAfter(p, t);
    }
    assert tokens[|tokens| - 1] == t && t != "[]" by {
      assert t[0] == '*';
    }
    assert StripMarks(t) == n by {
      assert t[0] == '*' && t[1..] == n;
      StripMarksOfIdentifier(n, "");
      assert n + "" == n;
    }
  }

  lemma GetNameBrackets(p: string, n: string)
    requires IsIdentifier(n)
    ensures GetName(p + " " + n + "[]") == n
  {
    var t := n + "[]";
    assert p + " " + n + "[]" == p + " " + t;
    var tokens := NonEmpty(Split(p + " " + t, ' '));
    assert tokens == NonEmpty(Split(p, ' ')) + [t] by {
      assert ' ' !in t;
      TokensAfter(p, t);
    }
    assert tokens[|tokens| - 1] == t && t != "[]" by {
      assert |t| > 2;
    }
    assert StripMarks(t) == n by {
      StripMarksOfIdentifier(n, "[]");
      assert StripMarks("[]") == "";
      assert n + "" == n;
    }
  }

  lemma GetNameSpacedBrackets(p: string, n: string)
    requires IsIdentifier(n)
    ensures GetName(p + " " + n + " []") == n
  {
    var q := p + " " + n;
    assert p + " " + n + " []" == q + " " + "[]";
    var tokens := NonEmpty(Split(q + " " + "[]", ' '));
    assert tokens == NonEmpty(Split(p, ' ')) + [n] + ["[]"] by {
      assert ' ' !in "[]";
      TokensAfter(q, "[]");
      TokensAfter(p, n);
    }
    assert tokens[|tokens| - 1] == "[]" && |tokens| > 1 && tokens[|tokens| - 2] == n;
    StripMarksOfIdentifier(n, "");
    assert n + "" == n;
  }

  /**
   * `process_assignment`: with exactly one '=', the name on its left and the
   * value up to the first ';', joined as "name = value"; otherwise " = ".
   */
  function ProcessAssignment(line: string): (r: string)
    ensures |Split(line, '=')| != 2 ==> r == " = "
  {
    var split := Split(line, '=');
    var name := if |split| == 2 then GetName(split[0]) else "";
    var value := if |split| == 2 then Split(split[1], ';')[0] else "";
    JoinThree(name, "=", value, " ");
    Join([name, "=", value], " ")
  }

  lemma JoinThree(a: string, b: string, c: string, sep: string)
    ensures Join([a, b, c], sep) == a + sep + b + sep + c
  {
    assert [a, b, c][1..] == [b, c];
    assert [b, c][1..] == [c];
    assert Join([c], sep) == c;
    assert Join([b, c], sep) == b + sep + c;
    assert Join([a, b, c], sep) == a + sep + (b + sep + c);
  }

  /** A declaration with an initial value reads back as "name = value". */
  lemma ProcessAssignmentOfDeclaration(p: string, n: string, v: string, rest: string)
    requires IsIdentifier(n) && '=' !in p && '=' !in v && ';' !in v && '=' !in rest
    ensures ProcessAssignment(p + " " + n + "=" + v + ";" + rest) == n + " = " + v
  {
    var decl := p + " " + n;
    assert '=' !in decl;
    var line := decl + "=" + v + ";" + rest;
    assert line == decl + ['='] + (v + ";" + rest);
    SplitAround(decl, v + ";" + rest, '=');
    SplitWhole(decl, '=');
    assert '=' !in v + ";" + rest;
    SplitWhole(v + ";" + rest, '=');
    assert Split(line, '=') == [decl, v + ";" + rest];
    assert v + ";" + rest == v + (";" + rest);
    SplitPrefix(v, ";" + rest, ';');
    assert (";" + rest)[0] == ';' && (";" + rest)[1..] == rest;
    assert Split(";" + rest, ';')[0] == "";
    assert Split(v + ";" + rest, ';')[0] == v + "";
    assert v + "" == v;
    GetNamePlain(p, n);
    JoinThree(n, "=", v, " ");
    assert n + " " + "=" + " " + v == n + " = " + v;
  }

  /** What `process_line` makes of one preprocessed line. */
  datatype Translation =
    | Assertion(line: string)    // handed to `process_assertion`
    | Assignment(text: string)
    | Deletion(line: string)     // handed to `process_gamma_deletion`
    | Dropped

  /** `process_line`: "assert" first, then '=', then "gamma_delete"; anything else is dropped. */
  function ProcessLine(line: string): (r: Translation)
    ensures r.Assertion? <==> Contains(line, "assert")
    ensures r.Assignment? <==> !Contains(line, "assert") && '=' in line
    ensures r.Deletion? <==> !Contains(line, "assert") && '=' !in line && Contains(line, "gamma_delete")
    ensures r.Assignment? ==> r.text == ProcessAssignment(line)
    ensures r.Assertion? || r.Deletion? ==> r.line == line
  {
    if Contains(line, "assert") then Assertion(line)
    else if '=' in line then Assignment(ProcessAssignment(line))
    else if Contains(line, "gamma_delete") then Deletion(line)
    else Dropped
  }
}
