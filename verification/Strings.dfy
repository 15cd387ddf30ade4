/** Splitting and joining, as Python's `str.split(sep)`, `sep.join` and `str.splitlines` do it. */
module Strings {

  /** `s.split(sep)` for a one-element separator. */
  function Split<T(==)>(s: seq<T>, sep: T): (parts: seq<seq<T>>)
    ensures |parts| > 0
  {
    if s == [] then [[]]
    else
      var rest := Split(s[1..], sep);
      if s[0] == sep then [[]] + rest else [[s[0]] + rest[0]] + rest[1..]
  }

  function Join<T>(parts: seq<seq<T>>, sep: T): seq<T> {
    if parts == [] then []
    else if |parts| == 1 then parts[0]
    else parts[0] + [sep] + Join(parts[1..], sep)
  }

  lemma {:induction false} JoinUnfolds<T>(first: seq<T>, rest: seq<seq<T>>, sep: T)
    requires |rest| > 0
    ensures Join([first] + rest, sep) == first + [sep] + Join(rest, sep)
  {
    assert ([first] + rest)[1..] == rest;
  }

  lemma {:induction false} JoinUndoesSplit<T>(s: seq<T>, sep: T)
    ensures Join(Split(s, sep), sep) == s
  {
    if s != [] {
      JoinUndoesSplit(s[1..], sep);
      var rest := Split(s[1..], sep);
      assert s == [s[0]] + s[1..];
      if s[0] == sep {
        JoinUnfolds([], rest, sep);
        assert Join(Split(s, sep), sep) == [sep] + s[1..];
      } else if |rest| == 1 {
        assert Split(s, sep) == [[s[0]] + rest[0]];
      } else {
        var tail := rest[1..];
        JoinUnfolds([s[0]] + rest[0], tail, sep);
        JoinUnfolds(rest[0], tail, sep);
        assert rest == [rest[0]] + tail;
        assert ([s[0]] + rest[0]) + [sep] + Join(tail, sep) == [s[0]] + (rest[0] + [sep] + Join(tail, sep));
      }
    }
  }

  lemma {:induction false} SplitAtSeparator<T>(first: seq<T>, sep: T, rest: seq<T>)
    requires sep !in first
    ensures Split(first + [sep] + rest, sep) == [first] + Split(rest, sep)
  {
    var s := first + [sep] + rest;
    if first == [] {
      assert s[1..] == rest;
    } else {
      assert s[1..] == first[1..] + [sep] + rest;
      SplitAtSeparator(first[1..], sep, rest);
      assert [first[0]] + first[1..] == first;
    }
  }

  lemma {:induction false} SplitWithoutSeparator<T>(s: seq<T>, sep: T)
    requires sep !in s
    ensures Split(s, sep) == [s]
  {
    if s != [] {
      SplitWithoutSeparator(s[1..], sep);
      assert [s[0]] + s[1..] == s;
    }
  }

  lemma {:induction false} SplitUndoesJoin<T>(parts: seq<seq<T>>, sep: T)
    requires |parts| > 0 && forall i :: 0 <= i < |parts| ==> sep !in parts[i]
    ensures Split(Join(parts, sep), sep) == parts
  {
    if |parts| == 1 {
      SplitWithoutSeparator(parts[0], sep);
    } else {
      SplitUndoesJoin(parts[1..], sep);
      SplitAtSeparator(parts[0], sep, Join(parts[1..], sep));
    }
  }

  lemma {:induction false} PartsHoldNoSeparator<T>(s: seq<T>, sep: T)
    ensures forall i :: 0 <= i < |Split(s, sep)| ==> sep !in Split(s, sep)[i]
  {
    if s != [] {
      PartsHoldNoSeparator(s[1..], sep);
    }
  }

  lemma {:induction false} SplitAddsNothing<T>(s: seq<T>, sep: T, x: T)
    requires x !in s
    ensures forall i :: 0 <= i < |Split(s, sep)| ==> x !in Split(s, sep)[i]
  {
    if s != [] {
      SplitAddsNothing(s[1..], sep, x);
    }
  }

  lemma {:induction false} JoinHoldsParts<T>(parts: seq<seq<T>>, sep: T, x: T)
    ensures x in Join(parts, sep) ==> x == sep || exists i :: 0 <= i < |parts| && x in parts[i]
    ensures (exists i :: 0 <= i < |parts| && x in parts[i]) ==> x in Join(parts, sep)
  {
    if |parts| > 1 {
      var rest := parts[1..];
      JoinHoldsParts(rest, sep, x);
      if i :| 0 <= i < |parts| && x in parts[i] {
        if i > 0 {
          assert x in rest[i - 1];
        }
      }
      if x in Join(parts, sep) && x != sep && x !in parts[0] {
        var i :| 0 <= i < |rest| && x in rest[i];
        assert x in parts[i + 1];
      }
    }
  }

  // ---- lines ----

  /** Where `str.splitlines` breaks a line: more places than `\n`. */
  predicate IsBreak(c: char) {
    || '\n' <= c <= '\r'   // line feed, vertical tab, form feed, carriage return
    || '\U{001C}' <= c <= '\U{001E}'
    || c == '\U{0085}'
    || '\U{2028}' <= c <= '\U{2029}'
  }

  predicate BreakFree(line: string) {
    forall i :: 0 <= i < |line| ==> !IsBreak(line[i])
  }

  /** The length of the first line, without its break. */
  function FirstLine(s: string): (n: nat)
    ensures n <= |s| && BreakFree(s[..n]) && (n < |s| ==> IsBreak(s[n]))
  {
    if s == [] || IsBreak(s[0]) then 0 else 1 + FirstLine(s[1..])
  }

  /** Where the line after the first begins. */
  function NextLine(s: string): (next: nat)
    requires FirstLine(s) < |s|
    ensures FirstLine(s) < next <= |s|
  {
    var n := FirstLine(s);
    if s[n] == '\r' && n + 1 < |s| && s[n + 1] == '\n' then n + 2 else n + 1
  }

  /** `s.splitlines()`: `\r\n` is one break, and no empty line follows a final break. */
  function SplitLines(s: string): (lines: seq<string>)
    ensures forall i :: 0 <= i < |lines| ==> BreakFree(lines[i])
    decreases |s|
  {
    if s == [] then []
    else
      var n := FirstLine(s);
      if n == |s| then [s] else [s[..n]] + SplitLines(s[NextLine(s)..])
  }

  lemma {:induction false} FirstLineEnds(line: string, rest: string)
    requires BreakFree(line) && rest != [] && IsBreak(rest[0])
    ensures FirstLine(line + rest) == |line|
  {
    if line != [] {
      assert (line + rest)[1..] == line[1..] + rest;
      FirstLineEnds(line[1..], rest);
    }
  }

  /** A break-free line before `\n` or `\r\n` comes off whole. */
  lemma {:induction false} SplitLinesAtNewline(line: string, cr: bool, rest: string)
    requires BreakFree(line)
    ensures SplitLines(line + (if cr then "\r" else "") + ['\n'] + rest) == [line] + SplitLines(rest)
  {
    var ending := (if cr then "\r" else "") + ['\n'];
    var s := line + (if cr then "\r" else "") + ['\n'] + rest;
    assert s == line + (ending + rest);
    FirstLineEnds(line, ending + rest);
    assert s[..|line|] == line;
    assert s[|line| + |ending|..] == rest;
  }

  lemma {:induction false} SplitLinesAtLineFeed(line: string, rest: string)
    requires BreakFree(line)
    ensures SplitLines(line + ['\n'] + rest) == [line] + SplitLines(rest)
  {
    SplitLinesAtNewline(line, false, rest);
    assert line + "" == line;
  }

  /** Every line followed by a line feed. */
  function Unlines(lines: seq<string>): string {
    if lines == [] then "" else lines[0] + ['\n'] + Unlines(lines[1..])
  }

  lemma {:induction false} SplitLinesUndoesUnlines(lines: seq<string>)
    requires AllBreakFree(lines)
    ensures SplitLines(Unlines(lines)) == lines
  {
    if lines != [] {
      SplitLinesUndoesUnlines(lines[1..]);
      SplitLinesAtLineFeed(lines[0], Unlines(lines[1..]));
    }
  }

  function DropCr(line: string): string {
    if line != "" && line[|line| - 1] == '\r' then line[..|line| - 1] else line
  }

  function DropCrs(lines: seq<string>): seq<string> {
    seq(|lines|, i requires 0 <= i < |lines| => DropCr(lines[i]))
  }

  /** `text.split("\n")` with one trailing carriage return removed from each line. */
  function NewlineLines(text: string): (lines: seq<string>)
    ensures |lines| > 0
  {
    DropCrs(Split(text, '\n'))
  }

  ghost predicate AllBreakFree(lines: seq<string>) {
    forall i :: 0 <= i < |lines| ==> BreakFree(lines[i])
  }

  lemma FirstPartComesOff<T>(s: seq<T>, sep: T) returns (first: seq<T>, rest: seq<T>)
    requires |Split(s, sep)| > 1
    ensures sep !in first && s == first + [sep] + rest && Split(s, sep) == [first] + Split(rest, sep)
  {
    var parts := Split(s, sep);
    JoinUndoesSplit(s, sep);
    PartsHoldNoSeparator(s, sep);
    first, rest := parts[0], Join(parts[1..], sep);
    SplitAtSeparator(first, sep, rest);
  }

  lemma DropCrsOfFirst(first: string, rest: seq<string>)
    ensures DropCrs([first] + rest) == [DropCr(first)] + DropCrs(rest)
  {
  }

  // ---- lines that hold other breaks ----

  /** What `splitlines` makes of one line and its end. */
  function Pieces(line: string): seq<string> {
    SplitLines(line + "\r\n")
  }

  function AllPieces(lines: seq<string>): seq<string> {
    if lines == [] then [] else Pieces(lines[0]) + AllPieces(lines[1..])
  }

  lemma {:induction false} AllPiecesAppend(a: seq<string>, b: seq<string>)
    ensures AllPieces(a + b) == AllPieces(a) + AllPieces(b)
  {
    if a == [] {
      assert a + b == b;
    } else {
      assert (a + b)[1..] == a[1..] + b;
      AllPiecesAppend(a[1..], b);
    }
  }

  lemma {:induction false} FirstPieces(line: string, lines: seq<string>)
    ensures AllPieces([line] + lines) == Pieces(line) + AllPieces(lines)
  {
    assert ([line] + lines)[1..] == lines;
  }

  lemma PiecesOfBreakFree(line: string)
    requires BreakFree(line)
    ensures Pieces(line) == [line]
  {
    SplitLinesAtNewline(line, true, "");
    assert line + "\r" + ['\n'] + "" == line + "\r\n";
  }

  lemma {:induction false} AllPiecesOfBreakFree(lines: seq<string>)
    requires AllBreakFree(lines)
    ensures AllPieces(lines) == lines
  {
    if lines != [] {
      PiecesOfBreakFree(lines[0]);
      AllPiecesOfBreakFree(lines[1..]);
    }
  }

  lemma {:induction false} FirstLineOfPrefix(a: string, b: string)
    requires FirstLine(a) < |a|
    ensures FirstLine(a + b) == FirstLine(a)
  {
    if !IsBreak(a[0]) {
      assert (a + b)[1..] == a[1..] + b;
      FirstLineOfPrefix(a[1..], b);
    }
  }

  lemma {:induction false} FirstLineIsShort(s: string)
    requires s != [] && IsBreak(s[|s| - 1])
    ensures FirstLine(s) < |s|
  {
  }

  /** The first line of a text comes off as it does of a longer one that goes on after its break. */
  lemma {:induction false} StepOfPrefix(a: string, b: string)
    requires FirstLine(a) < |a| && (a[FirstLine(a)] == '\r' ==> FirstLine(a) + 1 < |a|)
    ensures SplitLines(a + b) == [a[..FirstLine(a)]] + SplitLines(a[NextLine(a)..] + b)
  {
    FirstLineOfPrefix(a, b);
    assert (a + b)[..FirstLine(a)] == a[..FirstLine(a)];
    assert NextLine(a + b) == NextLine(a);
    assert (a + b)[NextLine(a)..] == a[NextLine(a)..] + b;
  }

  /** Any break but a carriage return ends a line by itself. */
  lemma {:induction false} SplitLinesAtBreak(line: string, c: char, rest: string)
    requires BreakFree(line) && IsBreak(c) && c != '\r'
    ensures SplitLines(line + [c] + rest) == [line] + SplitLines(rest)
  {
    var s := line + [c] + rest;
    assert s == line + ([c] + rest);
    FirstLineEnds(line, [c] + rest);
    assert s[..|line|] == line && s[|line| + 1..] == rest;
  }

  lemma FirstLineOfBoth(a: string, b: string) returns (first: string, rest: string)
    requires a != [] && a[|a| - 1] == '\n'
    ensures SplitLines(a) == [first] + SplitLines(rest) && SplitLines(a + b) == [first] + SplitLines(rest + b)
    ensures |rest| < |a| && (rest != [] ==> rest[|rest| - 1] == '\n')
  {
    FirstLineIsShort(a);
    StepOfPrefix(a, b);
    first, rest := a[..FirstLine(a)], a[NextLine(a)..];
  }

  lemma Regroup(x: seq<string>, y: seq<string>, z: seq<string>)
    ensures x + (y + z) == x + y + z
  {
  }

  /** Splitting can be done up to a line feed and after it. */
  lemma {:induction false} SplitLinesAfterNewline(a: string, b: string)
    requires a == "" || a[|a| - 1] == '\n'
    ensures SplitLines(a + b) == SplitLines(a) + SplitLines(b)
    decreases |a|
  {
    if a == "" {
      assert a + b == b;
    } else {
      var first, rest := FirstLineOfBoth(a, b);
      SplitLinesAfterNewline(rest, b);
      Regroup([first], SplitLines(rest), SplitLines(b));
    }
  }

  /** A line without line feeds splits alike whether it ends in `\n` or in `\r\n`. */
  lemma {:induction false} SplitLinesIgnoresCr(line: string)
    requires '\n' !in line && (line != "" ==> line[|line| - 1] != '\r')
    ensures SplitLines(line + "\n") == Pieces(line)
    decreases |line|
  {
    if FirstLine(line) < |line| {
      StepOfPrefix(line, "\n");
      StepOfPrefix(line, "\r\n");
      SplitLinesIgnoresCr(line[NextLine(line)..]);
    } else {
      assert line[..|line|] == line;
      PiecesOfBreakFree(line);
      SplitLinesAtLineFeed(line, "");
      assert line + ['\n'] + "" == line + "\n";
    }
  }

  lemma {:induction false} PiecesOfRawLine(raw: string)
    requires '\n' !in raw
    ensures SplitLines(raw + "\n") == Pieces(DropCr(raw))
  {
    var line := DropCr(raw);
    if line == raw {
      SplitLinesIgnoresCr(raw);
    } else {
      assert raw + "\n" == line + "\r\n";
    }
  }

  lemma FirstPiecesComeOff(text: string) returns (line: string, after: string)
    requires |NewlineLines(text)| > 1
    ensures NewlineLines(text) == [line] + NewlineLines(after)
    ensures SplitLines(text) == Pieces(line) + SplitLines(after)
  {
    var first;
    first, after := FirstPartComesOff(text, '\n');
    line := DropCr(first);
    DropCrsOfFirst(first, Split(after, '\n'));
    PiecesOfRawLine(first);
    SplitLinesAfterNewline(first + "\n", after);
    assert first + "\n" + after == text;
  }

  /** What `splitlines` sees of all lines before the last. */
  lemma {:induction false} SplitLinesSeesPieces(text: string, k: nat) returns (rest: seq<string>)
    requires k < |NewlineLines(text)|
    ensures SplitLines(text) == AllPieces(NewlineLines(text)[..k]) + rest
    decreases k
  {
    if k == 0 {
      rest := SplitLines(text);
    } else {
      var line, after := FirstPiecesComeOff(text);
      rest := SplitLinesSeesPieces(after, k - 1);
      var lines := NewlineLines(after)[..k - 1];
      assert NewlineLines(text)[..k] == [line] + lines;
      FirstPieces(line, lines);
    }
  }

  /** As long as the lines hold no other break, both ways of splitting see the same ones. */
  lemma {:induction false} SameLines(text: string, k: nat)
    requires k < |NewlineLines(text)| && AllBreakFree(NewlineLines(text)[..k])
    ensures k <= |SplitLines(text)| && SplitLines(text)[..k] == NewlineLines(text)[..k]
  {
    AllPiecesOfBreakFree(NewlineLines(text)[..k]);
    var rest := SplitLinesSeesPieces(text, k);
  }

  /** Lines that survive joining at line feeds and splitting again. */
  ghost predicate Tidy(lines: seq<string>) {
    forall i :: 0 <= i < |lines| ==> '\n' !in lines[i] && DropCr(lines[i]) == lines[i]
  }

  lemma {:induction false} NewlineLinesOfJoinIffTidy(lines: seq<string>)
    requires |lines| > 0
    ensures NewlineLines(Join(lines, '\n')) == lines <==> Tidy(lines)
  {
    if Tidy(lines) {
      SplitUndoesJoin(lines, '\n');
    }
    if NewlineLines(Join(lines, '\n')) == lines {
      var parts := Split(Join(lines, '\n'), '\n');
      PartsHoldNoSeparator(Join(lines, '\n'), '\n');
      forall i | 0 <= i < |lines| ensures '\n' !in lines[i] {
        assert lines[i] == DropCr(parts[i]);
      }
      SplitUndoesJoin(lines, '\n');
    }
  }
}
