/** The two java.lang.String operations the dispatch applies to captured pipeline
    output: `split("\\R")` and `trim()`. */
module Text {
  import opened Sequences

  /** A single character that Java's `\R` matches on its own:
      LF, VT, FF, CR, NEL, LINE SEPARATOR and PARAGRAPH SEPARATOR. */
  predicate IsBreakChar(c: char) {
    c == '\n' || c == '\U{0B}' || c == '\U{0C}' || c == '\r'
    || c == '\U{85}' || c == '\U{2028}' || c == '\U{2029}'
  }

  predicate NoBreak(s: string) {
    forall i :: 0 <= i < |s| ==> !IsBreakChar(s[i])
  }

  /** Concatenation of a sequence of strings. */
  function Flatten(xs: seq<string>): string {
    if xs == [] then [] else xs[0] + Flatten(xs[1..])
  }

  /** `s` with every line-break character removed. */
  function RemoveBreaks(s: string): string {
    if s == [] then []
    else if IsBreakChar(s[0]) then RemoveBreaks(s[1..])
    else [s[0]] + RemoveBreaks(s[1..])
  }

  /** The pieces between the matches of `\R`, scanning left to right; a CR
      immediately followed by LF is one match. Nothing is dropped yet. */
  function Pieces(s: string): (r: seq<string>)
    ensures |r| >= 1
  {
    if s == [] then [[]]
    else if s[0] == '\r' && |s| > 1 && s[1] == '\n' then [[]] + Pieces(s[2..])
    else if IsBreakChar(s[0]) then [[]] + Pieces(s[1..])
    else
      var rest := Pieces(s[1..]);
      [[s[0]] + rest[0]] + rest[1..]
  }

  lemma NoBreakTail(s: string)
    requires s != []
    ensures NoBreak(s) <==> !IsBreakChar(s[0]) && NoBreak(s[1..])
  {
    if !IsBreakChar(s[0]) && NoBreak(s[1..]) {
      forall i | 0 < i < |s| ensures !IsBreakChar(s[i]) {
        assert s[i] == s[1..][i - 1];
      }
    }
  }

  /** No piece holds a break. */
  lemma {:induction false} PiecesNoBreak(s: string)
    ensures forall i :: 0 <= i < |Pieces(s)| ==> NoBreak(Pieces(s)[i])
  {
    if s == [] {
    } else if s[0] == '\r' && |s| > 1 && s[1] == '\n' {
      PiecesNoBreak(s[2..]);
    } else if IsBreakChar(s[0]) {
      PiecesNoBreak(s[1..]);
    } else {
      var rest := Pieces(s[1..]);
      PiecesNoBreak(s[1..]);
      var r := Pieces(s);
      assert r == [[s[0]] + rest[0]] + rest[1..];
      NoBreakTail([s[0]] + rest[0]);
      assert ([s[0]] + rest[0])[1..] == rest[0];
      forall i | 1 <= i < |r| ensures NoBreak(r[i]) {
        assert r[i] == rest[i];
      }
    }
  }

  /** The pieces hold every character that is not a break, in order. */
  lemma {:induction false} PiecesFlatten(s: string)
    ensures Flatten(Pieces(s)) == RemoveBreaks(s)
  {
    if s == [] {
    } else if s[0] == '\r' && |s| > 1 && s[1] == '\n' {
      PiecesFlatten(s[2..]);
      assert s[1..][1..] == s[2..];
      assert Flatten(Pieces(s)) == [] + Flatten(Pieces(s[2..]));
    } else if IsBreakChar(s[0]) {
      PiecesFlatten(s[1..]);
      assert Flatten(Pieces(s)) == [] + Flatten(Pieces(s[1..]));
    } else {
      PiecesFlatten(s[1..]);
      FlattenExtendHead(s[0], Pieces(s[1..]));
    }
  }

  /** Prepending a character to the first string prepends it to the whole. */
  lemma FlattenExtendHead(c: char, xs: seq<string>)
    requires |xs| >= 1
    ensures Flatten([[c] + xs[0]] + xs[1..]) == [c] + Flatten(xs)
  {
    var r := [[c] + xs[0]] + xs[1..];
    var tail := Flatten(xs[1..]);
    assert r[0] == [c] + xs[0] && r[1..] == xs[1..];
    assert Flatten(r) == ([c] + xs[0]) + tail;
    assert Flatten(xs) == xs[0] + tail;
    AppendAssoc([c], xs[0], tail);
  }

  /** There is more than one piece exactly when `\R` matched somewhere. */
  lemma {:induction false} PiecesSingle(s: string)
    ensures |Pieces(s)| == 1 <==> NoBreak(s)
  {
    if s == [] {
    } else if s[0] == '\r' && |s| > 1 && s[1] == '\n' {
      assert !NoBreak(s);
    } else if IsBreakChar(s[0]) {
      assert !NoBreak(s);
    } else {
      PiecesSingle(s[1..]);
      NoBreakTail(s);
    }
  }

  /** Removes the empty strings at the end, as `split` with limit 0 does. */
  function DropTrailingEmpty(xs: seq<string>): (r: seq<string>)
    ensures r <= xs
    ensures r == [] || r[|r| - 1] != []
    ensures forall i :: |r| <= i < |xs| ==> xs[i] == []
  {
    if xs == [] then []
    else if xs[|xs| - 1] == [] then DropTrailingEmpty(xs[..|xs| - 1])
    else xs
  }

  /** `s.split("\\R")`: when `\R` never matches the whole input is the only
      element (so the empty string gives one empty line); otherwise the pieces
      between matches with trailing empty pieces removed. */
  function SplitLines(s: string): seq<string> {
    var p := Pieces(s);
    if |p| == 1 then p else DropTrailingEmpty(p)
  }

  /** No line holds a break; the lines hold every other character of `s` in
      order; input without a break is its own only line; and when `\R` matched,
      the last line (if any) is not empty. */
  lemma SplitLinesSound(s: string)
    ensures forall i :: 0 <= i < |SplitLines(s)| ==> NoBreak(SplitLines(s)[i])
    ensures Flatten(SplitLines(s)) == RemoveBreaks(s)
    ensures NoBreak(s) ==> SplitLines(s) == [s]
    ensures !NoBreak(s) ==> SplitLines(s) == [] || SplitLines(s)[|SplitLines(s)| - 1] != []
  {
    var p := Pieces(s);
    PiecesNoBreak(s);
    PiecesFlatten(s);
    PiecesSingle(s);
    if |p| == 1 {
      assert p == [p[0]];
      assert Flatten(p) == p[0] by { assert Flatten(p) == p[0] + Flatten(p[1..]); }
      assert p[0] == s by { NoBreakUnchanged(s); }
    } else {
      var r := DropTrailingEmpty(p);
      FlattenEmptyTail(p, |r|);
      assert r == p[..|r|];
    }
  }

  lemma {:induction false} NoBreakUnchanged(s: string)
    requires NoBreak(s)
    ensures RemoveBreaks(s) == s
  {
    if s != [] {
      assert NoBreak(s[1..]) by {
        forall i | 0 <= i < |s[1..]| ensures !IsBreakChar(s[1..][i]) {
          assert s[1..][i] == s[i + 1];
        }
      }
      NoBreakUnchanged(s[1..]);
    }
  }

  lemma {:induction false} FlattenAppend(a: seq<string>, b: seq<string>)
    ensures Flatten(a + b) == Flatten(a) + Flatten(b)
  {
    if a == [] {
      assert a + b == b;
    } else {
      assert (a + b)[1..] == a[1..] + b;
      FlattenAppend(a[1..], b);
      assert Flatten(a + b) == (a + b)[0] + Flatten((a + b)[1..]);
      AppendAssoc(a[0], Flatten(a[1..]), Flatten(b));
    }
  }

  /** Flattening ignores a tail of empty strings. */
  lemma {:induction false} FlattenEmptyTail(xs: seq<string>, n: nat)
    requires n <= |xs|
    requires forall i :: n <= i < |xs| ==> xs[i] == []
    ensures Flatten(xs) == Flatten(xs[..n])
  {
    if n < |xs| {
      FlattenEmptyTail(xs[..|xs| - 1], n);
      assert xs == xs[..|xs| - 1] + [xs[|xs| - 1]];
      FlattenAppend(xs[..|xs| - 1], [xs[|xs| - 1]]);
      assert Flatten([xs[|xs| - 1]]) == [] by {
        assert Flatten([xs[|xs| - 1]]) == xs[|xs| - 1] + Flatten([]);
      }
      assert xs[..|xs| - 1][..n] == xs[..n];
    } else {
      assert xs[..n] == xs;
    }
  }

  /** The lines joined with LF, the form a line-per-record sink writes. */
  function JoinLines(lines: seq<string>): string
    requires |lines| >= 1
  {
    if |lines| == 1 then lines[0] else lines[0] + "\n" + JoinLines(lines[1..])
  }

  /** A break-free prefix glues onto the first piece of what follows it. */
  lemma {:induction false} PiecesOfLinePrefix(line: string, rest: string, tail: seq<string>)
    requires NoBreak(line)
    requires Pieces(rest) == tail
    ensures Pieces(line + rest) == [line + tail[0]] + tail[1..]
  {
    if line != [] {
      var s := line + rest;
      assert s[0] == line[0];
      assert !IsBreakChar(line[0]);
      assert s[1..] == line[1..] + rest;
      assert Pieces(s) == [[s[0]] + Pieces(s[1..])[0]] + Pieces(s[1..])[1..];
      NoBreakTail(line);
      PiecesOfLinePrefix(line[1..], rest, tail);
      assert [line[0]] + (line[1..] + tail[0]) == line + tail[0];
    } else {
      assert line + rest == rest;
      assert line + tail[0] == tail[0];
      assert tail == [tail[0]] + tail[1..];
    }
  }

  /** A single match of `\R`: CR LF, or one break character on its own. */
  predicate IsSeparator(sep: string) {
    sep == "\r\n" || (|sep| == 1 && IsBreakChar(sep[0]))
  }

  /** Where the text is cut: a break-free line followed by one match of `\R`
      is a piece of its own, and the scan goes on after the match. A lone CR
      is one match only when no LF follows it; CR LF is one match, not two. */
  lemma PiecesOfSep(line: string, sep: string, rest: string)
    requires NoBreak(line)
    requires IsSeparator(sep)
    requires sep == "\r" ==> rest == [] || rest[0] != '\n'
    ensures Pieces(line + sep + rest) == [line] + Pieces(rest)
  {
    var tail := Pieces(sep + rest);
    if sep == "\r\n" {
      assert (sep + rest)[2..] == rest;
    } else {
      assert (sep + rest)[1..] == rest;
    }
    assert tail == [[]] + Pieces(rest);
    PiecesOfLinePrefix(line, sep + rest, tail);
    assert line + sep + rest == line + (sep + rest);
    assert line + tail[0] == line;
    assert tail[1..] == Pieces(rest);
  }

  /** Round trip: splitting lines that were joined with LF gives back the lines. */
  lemma {:induction false} PiecesOfJoin(lines: seq<string>)
    requires |lines| >= 1
    requires forall i :: 0 <= i < |lines| ==> NoBreak(lines[i])
    ensures Pieces(JoinLines(lines)) == lines
  {
    if |lines| == 1 {
      var p := Pieces(lines[0]);
      PiecesFlatten(lines[0]);
      PiecesSingle(lines[0]);
      NoBreakUnchanged(lines[0]);
      assert p == [p[0]];
      assert p[1..] == [];
      assert Flatten(p) == p[0] + Flatten(p[1..]);
      assert p[0] + [] == p[0];
    } else {
      var rest := JoinLines(lines[1..]);
      PiecesOfJoin(lines[1..]);
      var nl := "\n" + rest;
      assert nl[0] == '\n' && nl[1..] == rest;
      assert Pieces(nl) == [[]] + lines[1..];
      PiecesOfLinePrefix(lines[0], nl, [[]] + lines[1..]);
      assert lines[0] + "\n" + rest == lines[0] + nl;
      assert lines[0] + [] == lines[0];
      assert ([[]] + lines[1..])[1..] == lines[1..];
      assert lines == [lines[0]] + lines[1..];
    }
  }

  /** Java's split of LF-joined lines returns them, minus trailing empty lines
      when there was more than one. */
  lemma SplitLinesOfJoin(lines: seq<string>)
    requires |lines| >= 1
    requires forall i :: 0 <= i < |lines| ==> NoBreak(lines[i])
    ensures SplitLines(JoinLines(lines)) ==
              if |lines| == 1 then lines else DropTrailingEmpty(lines)
  {
    PiecesOfJoin(lines);
  }

  /** Putting a line in front keeps the trailing empty strings where they were. */
  lemma {:induction false} DropTrailingEmptyCons(x: string, ys: seq<string>)
    requires DropTrailingEmpty(ys) != []
    ensures DropTrailingEmpty([x] + ys) == [x] + DropTrailingEmpty(ys)
  {
    var xs := [x] + ys;
    assert xs[|xs| - 1] == ys[|ys| - 1];
    if ys[|ys| - 1] == [] {
      assert xs[..|xs| - 1] == [x] + ys[..|ys| - 1];
      DropTrailingEmptyCons(x, ys[..|ys| - 1]);
    }
  }

  /** `split("\\R")` cuts at each match: a break-free line, one match of `\R`
      and a remainder whose last line is kept split into that line followed
      by the lines of the remainder. */
  lemma SplitLinesOfSep(line: string, sep: string, rest: string)
    requires NoBreak(line)
    requires IsSeparator(sep)
    requires sep == "\r" ==> rest == [] || rest[0] != '\n'
    requires SplitLines(rest) != [] && SplitLines(rest)[|SplitLines(rest)| - 1] != []
    ensures SplitLines(line + sep + rest) == [line] + SplitLines(rest)
  {
    PiecesOfSep(line, sep, rest);
    var p := Pieces(rest);
    assert DropTrailingEmpty(p) == SplitLines(rest);
    DropTrailingEmptyCons(line, p);
  }

  /** Any one match of `\R` separates two lines: CR LF counts once, and a
      lone CR, NEL or other break character counts like LF. */
  lemma SplitLinesTwoLines(sep: string)
    requires IsSeparator(sep)
    ensures SplitLines("a" + sep + "b") == ["a", "b"]
  {
    SplitLinesSound("b");
    SplitLinesOfSep("a", sep, "b");
  }

  /** An inner empty line is kept. */
  lemma SplitLinesInnerEmpty()
    ensures SplitLines("a\n\nb") == ["a", "", "b"]
  {
    SplitLinesSound("b");
    assert "\nb" == "" + "\n" + "b";
    SplitLinesOfSep("", "\n", "b");
    assert "a\n\nb" == "a" + "\n" + "\nb";
    SplitLinesOfSep("a", "\n", "\nb");
  }

  /** A final break adds no line. */
  lemma SplitLinesFinalBreak()
    ensures SplitLines("a\n") == ["a"]
  {
    assert "a\n" == "a" + "\n" + "";
    PiecesOfSep("a", "\n", "");
  }

  /** Number of leading characters `trim` removes (those at or below U+0020). */
  function LeadingBlank(s: string): (n: nat)
    ensures n <= |s|
  {
    if s == [] || s[0] > ' ' then 0 else 1 + LeadingBlank(s[1..])
  }

  /** Number of trailing characters `trim` removes. */
  function TrailingBlank(s: string): (n: nat)
    ensures n <= |s|
  {
    if s == [] || s[|s| - 1] > ' ' then 0 else 1 + TrailingBlank(s[..|s| - 1])
  }

  /** `LeadingBlank` counts the longest blank prefix: everything before it is
      at or below U+0020 and the character after it is not. */
  lemma {:induction false} LeadingBlankSound(s: string)
    ensures forall k :: 0 <= k < LeadingBlank(s) ==> s[k] <= ' '
    ensures LeadingBlank(s) < |s| ==> s[LeadingBlank(s)] > ' '
  {
    if s != [] && s[0] <= ' ' {
      LeadingBlankSound(s[1..]);
      forall k | 1 <= k < LeadingBlank(s) ensures s[k] <= ' ' {
        assert s[k] == s[1..][k - 1];
      }
    }
  }

  /** `TrailingBlank` counts the longest blank suffix. */
  lemma {:induction false} TrailingBlankSound(s: string)
    ensures forall k :: |s| - TrailingBlank(s) <= k < |s| ==> s[k] <= ' '
    ensures TrailingBlank(s) < |s| ==> s[|s| - 1 - TrailingBlank(s)] > ' '
  {
    if s != [] && s[|s| - 1] <= ' ' {
      var u := s[..|s| - 1];
      TrailingBlankSound(u);
      forall k | |s| - TrailingBlank(s) <= k < |s| - 1 ensures s[k] <= ' ' {
        assert s[k] == u[k];
      }
    }
  }

  predicate Blank(s: string) {
    forall k :: 0 <= k < |s| ==> s[k] <= ' '
  }

  /** `String.trim()`: `s` without its leading and trailing characters at or
      below U+0020. */
  function Trim(s: string): string {
    var t := s[LeadingBlank(s)..];
    t[..|t| - TrailingBlank(t)]
  }

  /** `trim` returns the empty string exactly for blank input, and otherwise a
      string that starts and ends with a character above U+0020. */
  lemma TrimSound(s: string)
    ensures Trim(s) == [] <==> Blank(s)
    ensures Trim(s) != [] ==> Trim(s)[0] > ' ' && Trim(s)[|Trim(s)| - 1] > ' '
  {
    var a := LeadingBlank(s);
    var t := s[a..];
    var r := Trim(s);
    LeadingBlankSound(s);
    TrailingBlankSound(t);
    if a == |s| {
      assert Blank(s);
    } else {
      assert t[0] > ' ';
      assert !Blank(s) by { assert s[a] > ' '; }
      assert r[0] == t[0];
      assert r[|r| - 1] == t[|t| - 1 - TrailingBlank(t)];
    }
  }

  /** What `trim` removes is blank: the result is the slice of `s` that starts
      at `LeadingBlank(s)`, and everything outside it is at or below U+0020. */
  lemma TrimIsSlice(s: string)
    ensures LeadingBlank(s) + |Trim(s)| <= |s|
    ensures Trim(s) == s[LeadingBlank(s)..LeadingBlank(s) + |Trim(s)|]
    ensures forall k :: 0 <= k < |s| && !(LeadingBlank(s) <= k < LeadingBlank(s) + |Trim(s)|) ==> s[k] <= ' '
  {
    var a := LeadingBlank(s);
    var t := s[a..];
    var r := Trim(s);
    LeadingBlankSound(s);
    TrailingBlankSound(t);
    forall k | a + |r| <= k < |s| ensures s[k] <= ' ' {
      assert s[k] == t[k - a];
    }
  }

  /** Trimming twice is trimming once. */
  lemma TrimIdempotent(s: string)
    ensures Trim(Trim(s)) == Trim(s)
  {
    var t := Trim(s);
    TrimSound(s);
    if t != [] {
      assert LeadingBlank(t) == 0;
      assert TrailingBlank(t[0..]) == 0 by { assert t[0..] == t; }
    }
  }
}
