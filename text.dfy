/**
 * The string handling the tools share, stated as Python does it: splitting on a
 * one-character separator, joining with a separator, substring search, character
 * replacement, and decimal rendering and reading of integers.
 */
module Text {
  import opened Wrappers

  // ---------------------------------------------------------------------------
  // Splitting and joining.

  /**
   * `s.split(sep)` for a one-character separator: the pieces between separators,
   * in order; there is always at least one piece, and none holds the separator.
   */
  function Split(s: string, sep: char): (parts: seq<string>)
    ensures |parts| >= 1
    ensures forall i :: 0 <= i < |parts| ==> sep !in parts[i]
  {
    if s == [] then [""]
    else
      var rest := Split(s[1..], sep);
      if s[0] == sep then [""] + rest
      else [[s[0]] + rest[0]] + rest[1..]
  }

  /** `sep.join(parts)`. */
  function Join(parts: seq<string>, sep: string): string {
    if |parts| == 0 then ""
    else if |parts| == 1 then parts[0]
    else parts[0] + sep + Join(parts[1..], sep)
  }

  /** Joining the pieces of a split with the separator gives the text back. */
  lemma {:induction false} JoinSplit(s: string, sep: char)
    ensures Join(Split(s, sep), [sep]) == s
  {
    if s != [] {
      var rest := Split(s[1..], sep);
      JoinSplit(s[1..], sep);
      if s[0] == sep {
        assert Split(s, sep) == [""] + rest;
      } else {
        var parts := Split(s, sep);
        assert parts == [[s[0]] + rest[0]] + rest[1..];
        if |rest| == 1 {
          assert Join(rest, [sep]) == rest[0];
        } else {
          assert Join(rest, [sep]) == rest[0] + [sep] + Join(rest[1..], [sep]);
          assert parts[1..] == rest[1..];
        }
      }
    }
  }

  /** Text without the separator splits into itself, whatever follows a separator. */
  lemma {:induction false} SplitPrefix(a: string, t: string, sep: char)
    requires sep !in a
    ensures var r := Split(t, sep);
      Split(a + t, sep) == [a + r[0]] + r[1..]
  {
    if a != [] {
      var r := Split(t, sep);
      SplitPrefix(a[1..], t, sep);
      assert (a + t)[1..] == a[1..] + t;
      var rest := Split(a[1..] + t, sep);
      assert rest == [a[1..] + r[0]] + r[1..];
      assert (a + t)[0] == a[0] != sep;
      assert Split(a + t, sep) == [[a[0]] + rest[0]] + rest[1..];
      assert [a[0]] + (a[1..] + r[0]) == a + r[0];
    } else {
      var r := Split(t, sep);
      assert a + t == t && a + r[0] == r[0];
      assert [r[0]] + r[1..] == r;
    }
  }

  /** Splitting pieces joined by the separator gives the pieces back. */
  lemma {:induction false} SplitJoin(parts: seq<string>, sep: char)
    requires |parts| >= 1
    requires forall i :: 0 <= i < |parts| ==> sep !in parts[i]
    ensures Split(Join(parts, [sep]), sep) == parts
  {
    if |parts| == 1 {
      SplitPrefix(parts[0], "", sep);
      assert parts[0] + "" == parts[0];
    } else {
      var tail := Join(parts[1..], [sep]);
      SplitJoin(parts[1..], sep);
      assert Split([sep] + tail, sep) == [""] + parts[1..];
      assert Join(parts, [sep]) == parts[0] + ([sep] + tail);
      SplitPrefix(parts[0], [sep] + tail, sep);
      assert parts[0] + "" == parts[0];
      assert [parts[0]] + parts[1..] == parts;
    }
  }

  /**
   * Whitespace to Python's `str.split()` and `str.strip()`: the ASCII controls
   * tab to carriage return and 0x1C to 0x1F, the space, and the Unicode spaces
   * and separators.
   */
  predicate IsWhitespace(c: char) {
    ('\t' <= c <= '\r') || ('\U{1C}' <= c <= '\U{1F}') || c == ' ' || c == '\U{85}' || c == '\U{A0}' ||
    c == '\U{1680}' || ('\U{2000}' <= c <= '\U{200A}') || c == '\U{2028}' || c == '\U{2029}' ||
    c == '\U{202F}' || c == '\U{205F}' || c == '\U{3000}'
  }

  /** The length of the run of characters that are not whitespace s starts with. */
  function WordLength(s: string): (n: nat)
    ensures n <= |s| && (n < |s| ==> IsWhitespace(s[n]))
    ensures forall i :: 0 <= i < n ==> !IsWhitespace(s[i])
    ensures s != [] && !IsWhitespace(s[0]) ==> n >= 1
  {
    if s == [] || IsWhitespace(s[0]) then 0 else WordLength(s[1..]) + 1
  }

  /** `s.split()`: the runs of characters that are not whitespace, in order. */
  function Words(s: string): (ws: seq<string>)
    ensures forall k :: 0 <= k < |ws| ==> ws[k] != []
    ensures forall k, i :: 0 <= k < |ws| && 0 <= i < |ws[k]| ==> ws[k][i] in s && !IsWhitespace(ws[k][i])
    decreases |s|
  {
    if s == [] then []
    else if IsWhitespace(s[0]) then Words(s[1..])
    else
      var n := WordLength(s);
      var rest := Words(s[n..]);
      assert forall k, i :: 0 <= k < |rest| && 0 <= i < |rest[k]| ==> rest[k][i] in s by {
        forall k, i | 0 <= k < |rest| && 0 <= i < |rest[k]| ensures rest[k][i] in s {
          var j :| 0 <= j < |s[n..]| && s[n..][j] == rest[k][i];
          assert s[n + j] == rest[k][i];
        }
      }
      [s[..n]] + rest
  }

  /** A run of whitespace, possibly empty. */
  predicate IsGap(g: string) {
    forall i :: 0 <= i < |g| ==> IsWhitespace(g[i])
  }

  /** A non-empty run of characters that are not whitespace. */
  predicate IsWord(w: string) {
    w != [] && forall i :: 0 <= i < |w| ==> !IsWhitespace(w[i])
  }

  /** gaps[0] + words[0] + gaps[1] + ... + words[n-1] + gaps[n]. */
  function Spread(words: seq<string>, gaps: seq<string>): string
    requires |gaps| == |words| + 1
    decreases |words|
  {
    if words == [] then gaps[0] else gaps[0] + words[0] + Spread(words[1..], gaps[1..])
  }

  lemma {:induction false} WordLengthOf(d: string, t: string)
    requires forall i :: 0 <= i < |d| ==> !IsWhitespace(d[i])
    requires t == [] || IsWhitespace(t[0])
    ensures WordLength(d + t) == |d|
  {
    if d != [] {
      assert (d + t)[1..] == d[1..] + t;
      WordLengthOf(d[1..], t);
    } else {
      assert d + t == t;
    }
  }

  /** Leading whitespace does not change the words. */
  lemma {:induction false} WordsSkipGap(g: string, t: string)
    requires IsGap(g)
    ensures Words(g + t) == Words(t)
  {
    if g != [] {
      assert (g + t)[0] == g[0];
      assert (g + t)[1..] == g[1..] + t;
      WordsSkipGap(g[1..], t);
    } else {
      assert g + t == t;
    }
  }

  /** A word followed by whitespace, or by nothing, is the first word. */
  lemma WordsOfWordThen(w: string, t: string)
    requires IsWord(w)
    requires t == [] || IsWhitespace(t[0])
    ensures Words(w + t) == [w] + Words(t)
  {
    WordLengthOf(w, t);
    assert (w + t)[0] == w[0];
    assert (w + t)[..|w|] == w && (w + t)[|w|..] == t;
  }

  /**
   * The words of a text laid out as whitespace, word, whitespace, ..., word,
   * whitespace (the inner runs non-empty, the outer ones of any length) are
   * exactly the words laid out, in order.
   */
  lemma {:induction false} WordsOfSpread(words: seq<string>, gaps: seq<string>)
    requires |gaps| == |words| + 1
    requires forall k :: 0 <= k < |gaps| ==> IsGap(gaps[k])
    requires forall k :: 0 < k < |words| ==> gaps[k] != []
    requires forall k :: 0 <= k < |words| ==> IsWord(words[k])
    ensures Words(Spread(words, gaps)) == words
    decreases |words|
  {
    if words == [] {
      WordsSkipGap(gaps[0], []);
      assert gaps[0] + [] == gaps[0];
    } else {
      var tail := Spread(words[1..], gaps[1..]);
      assert tail == [] || IsWhitespace(tail[0]) by {
        if words[1..] == [] {
          assert tail == gaps[1];
        } else {
          assert tail == gaps[1] + words[1] + Spread(words[2..], gaps[2..]);
          assert gaps[1] != [] && tail[0] == gaps[1][0];
        }
      }
      WordsOfSpread(words[1..], gaps[1..]);
      WordsOfWordThen(words[0], tail);
      WordsSkipGap(gaps[0], words[0] + tail);
      assert Spread(words, gaps) == gaps[0] + (words[0] + tail);
      assert [words[0]] + words[1..] == words;
    }
  }

  // ---------------------------------------------------------------------------
  // Substrings and replacement.

  /** `sub in s`: sub occurs in s at some position. */
  predicate Contains(s: string, sub: string) {
    if |s| < |sub| then false
    else s[..|sub|] == sub || (s != [] && Contains(s[1..], sub))
  }

  /** `s.replace(c, by)` for a one-character pattern. */
  function ReplaceChar(s: string, c: char, with: string): (r: string)
    ensures r == Join(Split(s, c), with)
    ensures c !in with ==> c !in r
    ensures forall d :: d in r ==> d in s || d in with
  {
    if s == [] then ""
    else
      var rest := ReplaceChar(s[1..], c, with);
      var parts := Split(s[1..], c);
      assert (if s[0] == c then with else [s[0]]) + rest == Join(Split(s, c), with) by {
        if s[0] == c {
          assert Split(s, c) == [""] + parts;
          assert ([""] + parts)[1..] == parts;
        } else if |parts| == 1 {
          assert Split(s, c) == [[s[0]] + parts[0]];
        } else {
          assert Split(s, c) == [[s[0]] + parts[0]] + parts[1..];
          assert ([[s[0]] + parts[0]] + parts[1..])[1..] == parts[1..];
        }
      }
      (if s[0] == c then with else [s[0]]) + rest
  }

  // ---------------------------------------------------------------------------
  // Decimal numbers.

  predicate IsDigit(c: char) {
    '0' <= c <= '9'
  }

  predicate AllDigits(s: string) {
    forall i :: 0 <= i < |s| ==> IsDigit(s[i])
  }

  function DigitChar(d: nat): (c: char)
    requires d < 10
    ensures IsDigit(c) && c as int - '0' as int == d
  {
    ('0' as int + d) as char
  }

  /** `str(n)` for a natural number: its shortest decimal digits. */
  function NatToString(n: nat): (s: string)
    ensures |s| >= 1 && AllDigits(s)
    ensures n >= 10 ==> s[0] != '0'
  {
    if n < 10 then [DigitChar(n)] else NatToString(n / 10) + [DigitChar(n % 10)]
  }

  /** `str(i)` for any integer: a minus sign before the digits of a negative number. */
  function IntToString(i: int): string {
    if i < 0 then "-" + NatToString(-i) else NatToString(i)
  }

  /** The value of a string of decimal digits, leading zeros allowed. */
  function DigitsValue(s: string): nat
    requires AllDigits(s)
  {
    if s == [] then 0
    else DigitsValue(s[..|s| - 1]) * 10 + (s[|s| - 1] as int - '0' as int)
  }

  /** Reading back the digits `str` writes gives the number. */
  lemma {:induction false} DigitsValueOfNat(n: nat)
    ensures DigitsValue(NatToString(n)) == n
  {
    if n >= 10 {
      var s := NatToString(n);
      DigitsValueOfNat(n / 10);
      assert s[..|s| - 1] == NatToString(n / 10);
    }
  }

  /** Two naturals with the same decimal rendering are equal. */
  lemma NatToStringInjective(m: nat, n: nat)
    requires NatToString(m) == NatToString(n)
    ensures m == n
  {
    DigitsValueOfNat(m);
    DigitsValueOfNat(n);
  }

  /**
   * `int(token)` on a token without surrounding blanks: an optional sign and
   * at least one decimal digit. Anything else is the ValueError case.
   */
  function ParseInt(t: string): (r: Option<int>)
    ensures r.Some? <==>
      ((AllDigits(t) && t != []) || (|t| >= 2 && (t[0] == '-' || t[0] == '+') && AllDigits(t[1..])))
  {
    if t != [] && AllDigits(t) then Some(DigitsValue(t))
    else if |t| >= 2 && t[0] == '-' && AllDigits(t[1..]) then Some(-(DigitsValue(t[1..]) as int))
    else if |t| >= 2 && t[0] == '+' && AllDigits(t[1..]) then Some(DigitsValue(t[1..]))
    else None
  }

  /** Reading what `str` writes gives the number back. */
  lemma ParseIntToString(i: int)
    ensures ParseInt(IntToString(i)) == Some(i)
  {
    var s := IntToString(i);
    if i < 0 {
      var d := NatToString(-i);
      assert s == "-" + d;
      assert s[1..] == d && s[0] == '-';
      assert !AllDigits(s) by {
        assert !IsDigit(s[0]);
      }
      DigitsValueOfNat(-i);
      assert AllDigits(s[1..]) && |s| >= 2;
    } else {
      DigitsValueOfNat(i);
      assert ParseInt(s) == Some(DigitsValue(s));
    }
  }
}
