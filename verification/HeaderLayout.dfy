/**
 * The headers of a message laid out in lines: whatever the sender writes below a header, and however the message is cut
 * into chunks, what is read is the topmost header of its kind, unfolded. Past the cap the exact condition is given.
 */
module HeaderLayout {
  import opened Wrappers
  import opened Text
  import opened AuthHeaders

  // ----- lines, folded or not -----

  datatype End = Crlf | Lf

  function Mark(e: End): string {
    if e.Crlf? then "\r\n" else "\n"
  }

  /** A line after the first: the line end in front of it, and its text. */
  datatype Line = Line(end: End, text: string)

  function Body(lines: seq<Line>): string {
    if lines == [] then "" else Mark(lines[0].end) + lines[0].text + Body(lines[1..])
  }

  /** The text of one line. */
  predicate Clean(t: string) {
    '\n' !in t
  }

  /** A carriage return at the end of `t` is not half of a line end. */
  predicate Meets(t: string, x: string) {
    t == "" || t[|t| - 1] != '\r' || x == "" || x[0] != '\n'
  }

  predicate StartsUnfolded(x: string) {
    x == "" || (x[0] != ' ' && x[0] != '\t')
  }

  /** What follows the last line: nothing, or a line end and anything that does not continue the line. */
  predicate EndsLine(tail: string) {
    tail == "" || (EolLen(tail, 0) > 0 && StartsUnfolded(tail[EolLen(tail, 0)..]))
  }

  ghost predicate RestOk(lines: seq<Line>, tail: string) {
    if lines == [] then EndsLine(tail)
    else
      lines[0].text != "" && Clean(lines[0].text) && Meets(lines[0].text, Body(lines[1..]) + tail) && RestOk(lines[1..], tail)
  }

  /** The first line, the lines after it (none of them blank), and what follows. */
  ghost predicate Layout(first: string, lines: seq<Line>, tail: string) {
    Clean(first) && Meets(first, Body(lines) + tail) && RestOk(lines, tail)
  }

  /** A line without the blanks and tabs it starts with. */
  function Indented(t: string): string {
    if t != "" && (t[0] == ' ' || t[0] == '\t') then Indented(t[1..]) else t
  }

  lemma {:induction false} IndentedIs(t: string)
    ensures Indented(t) == SkipFold(t)
  {
    if t != "" && (t[0] == ' ' || t[0] == '\t') {
      IndentedIs(t[1..]);
    }
  }

  /** The unfolded lines: a line that starts with a blank continues the one before, its leading blanks made one space. */
  function Logical(first: string, lines: seq<Line>): (r: seq<string>)
    ensures |r| >= 1
    decreases |lines|
  {
    if lines == [] then [first]
    else if !StartsUnfolded(lines[0].text) then Logical(first + " " + Indented(lines[0].text), lines[1..])
    else [first] + Logical(lines[0].text, lines[1..])
  }

  // ----- unfolding and splitting -----

  lemma {:induction false} UnfoldPlain(c: string, x: string)
    requires Clean(c) && Meets(c, x)
    ensures Unfold(c + x) == c + Unfold(x)
  {
    if c == "" {
      assert c + x == x;
    } else {
      var s := c + x;
      assert s[0] == c[0] && s[1..] == c[1..] + x && EolLen(s, 0) == 0;
      UnfoldPlain(c[1..], x);
      assert [c[0]] + (c[1..] + Unfold(x)) == c + Unfold(x);
    }
  }

  lemma {:induction false} LinesPlain(c: string, x: string)
    requires Clean(c) && Meets(c, x)
    ensures Lines(c + x) == [c + Lines(x)[0]] + Lines(x)[1..]
  {
    if c == "" {
      assert c + x == x && c + Lines(x)[0] == Lines(x)[0];
    } else {
      var s := c + x;
      assert s[0] == c[0] && s[1..] == c[1..] + x && EolLen(s, 0) == 0;
      LinesPlain(c[1..], x);
      assert [c[0]] + (c[1..] + Lines(x)[0]) == c + Lines(x)[0];
    }
  }

  lemma MarkIs(e: End, y: string)
    ensures EolLen(Mark(e) + y, 0) == |Mark(e)| && (Mark(e) + y)[|Mark(e)|..] == y
  {
  }

  lemma UnfoldEnd(e: End, y: string)
    requires StartsUnfolded(y)
    ensures Unfold(Mark(e) + y) == Mark(e) + Unfold(y)
  {
    var s := Mark(e) + y;
    MarkIs(e, y);
    if e.Crlf? {
      assert s[1..] == "\n" + y && s[1..][1..] == y;
      assert y != "" ==> s[2] == y[0] && s[1..][1] == y[0];
      assert Unfold(s[1..]) == ['\n'] + Unfold(y);
      assert Unfold(s) == ['\r'] + (['\n'] + Unfold(y));
    } else {
      assert s[1..] == y && (y != "" ==> s[1] == y[0]);
    }
  }

  lemma UnfoldFold(e: End, y: string)
    requires !StartsUnfolded(y)
    ensures Unfold(Mark(e) + y) == " " + Unfold(SkipFold(y))
  {
    var s := Mark(e) + y;
    MarkIs(e, y);
    assert s[|Mark(e)|] == y[0];
  }

  lemma LinesEnd(e: End, z: string)
    ensures Lines(Mark(e) + z) == [""] + Lines(z)
  {
    MarkIs(e, z);
  }

  lemma {:induction false} SkipFoldConcat(t: string, x: string)
    requires StartsUnfolded(x)
    ensures SkipFold(t + x) == SkipFold(t) + x
  {
    if t == "" {
      assert t + x == x;
    } else {
      assert (t + x)[1..] == t[1..] + x;
      SkipFoldConcat(t[1..], x);
    }
  }

  lemma {:induction false} SkipFoldCuts(t: string)
    ensures |SkipFold(t)| <= |t| && SkipFold(t) == t[|t| - |SkipFold(t)|..]
  {
    if t != "" && IsFold(t[0]) {
      SkipFoldCuts(t[1..]);
    }
  }

  lemma Nothing()
    ensures Unfold("") == "" && Lines("") == [""]
  {
  }

  lemma BodyStarts(lines: seq<Line>, tail: string)
    requires RestOk(lines, tail)
    ensures StartsUnfolded(Body(lines) + tail)
  {
    if lines != [] {
      assert (Body(lines) + tail)[0] == Mark(lines[0].end)[0];
    } else {
      assert Body(lines) + tail == tail;
    }
  }

  /** A continuation joined to the line before it still meets what follows. */
  lemma JoinedMeets(c: string, text: string, x: string)
    requires Clean(c) && Clean(text) && Meets(text, x)
    ensures Clean(c + " " + SkipFold(text)) && Meets(c + " " + SkipFold(text), x)
  {
    SkipFoldCuts(text);
    var d := c + " " + SkipFold(text);
    assert SkipFold(text) == "" ==> d[|d| - 1] == ' ';
    assert SkipFold(text) != "" ==> d[|d| - 1] == text[|text| - 1];
  }

  ghost predicate StartsWith(all: seq<string>, these: seq<string>) {
    |these| <= |all| && all[..|these|] == these
  }

  lemma BodyCons(lines: seq<Line>, tail: string)
    requires lines != []
    ensures Body(lines) + tail == Mark(lines[0].end) + (lines[0].text + (Body(lines[1..]) + tail))
  {
  }

  /** Unfolding and splitting a laid-out text gives its unfolded lines first. */
  lemma {:induction false} SplitsIntoLogical(c: string, lines: seq<Line>, tail: string)
    requires Clean(c) && Meets(c, Body(lines) + tail) && RestOk(lines, tail)
    ensures StartsWith(Lines(c + Unfold(Body(lines) + tail)), Logical(c, lines))
    ensures tail == "" ==> Lines(c + Unfold(Body(lines) + tail)) == Logical(c, lines)
    decreases |lines|
  {
    hide Unfold, Lines, SkipFold, Indented;
    if lines == [] {
      assert Body(lines) + tail == tail;
      LastLine(c, tail);
    } else {
      var text, rest := lines[0].text, Body(lines[1..]) + tail;
      BodyCons(lines, tail);
      IndentedIs(text);
      if IsFold(text[0]) {
        FoldedLine(c, lines[0], rest, lines[1..], tail);
        JoinedMeets(c, text, rest);
        SplitsIntoLogical(c + " " + SkipFold(text), lines[1..], tail);
      } else {
        NewLine(c, lines[0], rest);
        SplitsIntoLogical(text, lines[1..], tail);
        assert Logical(c, lines) == [c] + Logical(text, lines[1..]);
      }
    }
  }

  lemma LastLine(c: string, tail: string)
    requires Clean(c) && Meets(c, tail) && EndsLine(tail)
    ensures StartsWith(Lines(c + Unfold(tail)), [c])
    ensures tail == "" ==> Lines(c + Unfold(tail)) == [c]
  {
    hide Unfold, Lines;
    Nothing();
    if tail == "" {
      LinesPlain(c, "");
      assert c + "" == c;
    } else {
      var e := if EolLen(tail, 0) == 2 then Crlf else Lf;
      var z := tail[EolLen(tail, 0)..];
      assert tail == Mark(e) + z;
      UnfoldEnd(e, z);
      assert (Mark(e) + Unfold(z))[0] == tail[0];
      LinesPlain(c, Mark(e) + Unfold(z));
      LinesEnd(e, Unfold(z));
      assert c + "" == c;
    }
  }

  lemma FoldedLine(c: string, line: Line, rest: string, lines: seq<Line>, tail: string)
    requires line.text != "" && IsFold(line.text[0]) && Clean(line.text) && Meets(line.text, rest)
    requires rest == Body(lines) + tail && RestOk(lines, tail)
    ensures c + Unfold(Mark(line.end) + (line.text + rest)) == (c + " " + SkipFold(line.text)) + Unfold(rest)
  {
    hide Unfold, SkipFold;
    UnfoldFold(line.end, line.text + rest);
    BodyStarts(lines, tail);
    SkipFoldConcat(line.text, rest);
    JoinedMeets("", line.text, rest);
    SkipFoldCuts(line.text);
    UnfoldPlain(SkipFold(line.text), rest);
  }

  lemma NewLine(c: string, line: Line, rest: string)
    requires Clean(c) && Meets(c, Mark(line.end) + (line.text + rest))
    requires line.text != "" && !IsFold(line.text[0]) && Clean(line.text) && Meets(line.text, rest)
    ensures Lines(c + Unfold(Mark(line.end) + (line.text + rest))) == [c] + Lines(line.text + Unfold(rest))
  {
    hide Unfold, Lines;
    UnfoldEnd(line.end, line.text + rest);
    UnfoldPlain(line.text, rest);
    assert (Mark(line.end) + (line.text + Unfold(rest)))[0] == (Mark(line.end) + (line.text + rest))[0];
    LinesPlain(c, Mark(line.end) + (line.text + Unfold(rest)));
    LinesEnd(line.end, line.text + Unfold(rest));
    assert c + "" == c;
  }

  // ----- what is kept of it by the read and by the cut at the blank line -----

  lemma NoEnd(c: string, x: string, j: nat)
    requires Clean(c) && Meets(c, x) && j < |c|
    ensures EolLen(c + x, j) == 0
  {
    assert (c + x)[j] == c[j];
    assert j + 1 < |c| ==> (c + x)[j + 1] == c[j + 1];
  }

  lemma Shift(a: string, b: string, i: nat)
    ensures EolLen(a + b, |a| + i) == EolLen(b, i) && BlankLen(a + b, |a| + i) == BlankLen(b, i)
  {
  }

  function Top(first: string, lines: seq<Line>): string {
    first + Body(lines)
  }

  /** No blank line starts within laid-out lines. */
  lemma {:induction false} NoBlank(first: string, lines: seq<Line>, tail: string, j: nat)
    requires Layout(first, lines, tail) && j < |Top(first, lines)|
    ensures BlankLen(Top(first, lines) + tail, j) == 0
    decreases |lines|
  {
    hide EolLen;
    var after := Body(lines) + tail;
    assert Top(first, lines) + tail == first + after;
    if j < |first| {
      NoEnd(first, after, j);
    } else {
      Shift(first, after, j - |first|);
      NoBlankBelow(lines, tail, j - |first|);
    }
  }

  lemma {:induction false} NoBlankBelow(lines: seq<Line>, tail: string, i: nat)
    requires RestOk(lines, tail) && i < |Body(lines)|
    ensures BlankLen(Body(lines) + tail, i) == 0
    decreases |lines|, 0
  {
    hide EolLen, BlankLen;
    var mark, text, rest := Mark(lines[0].end), lines[0].text, Body(lines[1..]) + tail;
    BodyCons(lines, tail);
    if i < |mark| {
      NoBlankAtMark(lines[0].end, text, rest, i);
    } else {
      Shift(mark, text + rest, i - |mark|);
      assert Top(text, lines[1..]) + tail == text + rest;
      NoBlank(text, lines[1..], tail, i - |mark|);
    }
  }

  lemma NoBlankAtMark(e: End, text: string, rest: string, i: nat)
    requires text != "" && Clean(text) && Meets(text, rest) && i < |Mark(e)|
    ensures BlankLen(Mark(e) + (text + rest), i) == 0
  {
    var s := Mark(e) + (text + rest);
    NoEnd(text, rest, 0);
    Shift(Mark(e), text + rest, 0);
    assert EolLen(s, i) == |Mark(e)| - i by {
      if i == 0 {
        MarkIs(e, text + rest);
      }
    }
  }

  /** Cut within what follows, but not within its first line end, the lines are still laid out. */
  lemma {:induction false} RestCut(lines: seq<Line>, tail: string, n: nat)
    requires RestOk(lines, tail) && n <= |tail| && (n == 0 || EolLen(tail, 0) <= n)
    ensures RestOk(lines, tail[..n])
    decreases |lines|
  {
    if lines == [] {
      if n > 0 {
        var k := EolLen(tail, 0);
        assert tail[..n][k..] == tail[k..n];
      }
    } else {
      RestCut(lines[1..], tail, n);
    }
  }

  lemma LayoutCut(first: string, lines: seq<Line>, tail: string, n: nat)
    requires Layout(first, lines, tail)
    requires n <= |tail| && (n == 0 || EolLen(tail, 0) <= n)
    ensures Layout(first, lines, tail[..n])
    ensures (Top(first, lines) + tail)[..|Top(first, lines)| + n] == Top(first, lines) + tail[..n]
  {
    RestCut(lines, tail, n);
  }

  /** The first blank line does not start within a line end. */
  lemma BlankNotInside(s: string, i: nat)
    requires EolLen(s, i) > 0 && BlankLen(s, i) == 0
    ensures forall j :: i <= j < i + EolLen(s, i) ==> BlankLen(s, j) == 0
  {
  }

  /** The lines are kept by the cut at the blank line. */
  lemma HeadKeeps(first: string, lines: seq<Line>, tail: string) returns (kept: string)
    requires Layout(first, lines, tail)
    ensures Head(Top(first, lines) + tail) == Top(first, lines) + kept && Layout(first, lines, kept)
    ensures tail == "" ==> kept == ""
  {
    hide Layout, BlankLen;
    var top := Top(first, lines);
    var m := top + tail;
    FirstBlankMeans(m, 0);
    var k := FirstBlank(m, 0);
    if k < |top| {
      NoBlank(first, lines, tail, k);
    }
    var n := k - |top|;
    Shift(top, tail, 0);
    if n > 0 && n < EolLen(tail, 0) {
      assert BlankLen(m, |top|) == 0;
      BlankNotInside(m, |top|);
    }
    LayoutCut(first, lines, tail, n);
    kept := tail[..n];
  }

  /** They are kept by the read, when their last line ends within the cap. */
  lemma ReadKeeps(chunks: seq<string>, first: string, lines: seq<Line>, tail: string) returns (kept: string)
    requires Layout(first, lines, tail) && Concat(chunks) == Top(first, lines) + tail
    requires |Top(first, lines)| + EolLen(tail, 0) <= MAX_HEADER_BYTES
    ensures Read("", chunks) == Top(first, lines) + kept && Layout(first, lines, kept)
  {
    hide Layout, BlankLen, EolLen;
    var top := Top(first, lines);
    var m := top + tail;
    var n := ReadIsPrefix("", chunks);
    assert "" + m == m;
    Shift(top, tail, 0);
    EndFits(tail);
    if n < |m| && n < MAX_HEADER_BYTES {
      var p := m[..n];
      FirstBlankMeans(p, 0);
      var k := FirstBlank(p, 0);
      BlankInPrefix(m, n, k);
      BlankFits(p, k);
      if k < |top| {
        NoBlank(first, lines, tail, k);
      }
      BlankHoldsEnd(m, k, |top|);
    }
    LayoutCut(first, lines, tail, n - |top|);
    kept := tail[..n - |top|];
  }

  lemma EndFits(s: string)
    ensures EolLen(s, 0) <= |s|
  {
  }

  lemma BlankFits(s: string, k: nat)
    requires BlankLen(s, k) > 0
    ensures k + BlankLen(s, k) <= |s|
  {
  }

  lemma BlankHoldsEnd(s: string, k: nat, i: nat)
    requires i <= k && BlankLen(s, k) > 0
    ensures i + EolLen(s, i) <= k + BlankLen(s, k)
  {
  }

  // ----- the topmost header of a kind -----

  lemma {:induction false} TopmostIsAt(all: seq<string>, name: string, k: nat)
    requires k < |all| && HeaderValue(all[k], name).Some?
    requires forall j :: 0 <= j < k ==> HeaderValue(all[j], name).None?
    ensures Topmost(all, name) == HeaderValue(all[k], name)
    decreases k
  {
    hide HeaderValue;
    if k > 0 {
      assert HeaderValue(all[0], name).None?;
      TopmostIsAt(all[1..], name, k - 1);
    }
  }

  lemma {:induction false} TopmostOfPrefix(all: seq<string>, these: seq<string>, name: string)
    requires StartsWith(all, these) && Topmost(these, name).Some?
    ensures Topmost(all, name) == Topmost(these, name)
    decreases |these|
  {
    hide HeaderValue;
    assert all[0] == all[..|these|][0];
    if HeaderValue(these[0], name).None? {
      assert all[1..][..|these| - 1] == all[..|these|][1..];
      TopmostOfPrefix(all[1..], these[1..], name);
    }
  }

  lemma SplitsHead(first: string, lines: seq<Line>, kept: string)
    requires Layout(first, lines, kept)
    ensures StartsWith(Lines(Unfold(Top(first, lines) + kept)), Logical(first, lines))
    ensures kept == "" ==> Lines(Unfold(Top(first, lines))) == Logical(first, lines)
  {
    hide Unfold, Lines, Logical;
    assert Top(first, lines) + kept == first + (Body(lines) + kept);
    assert kept == "" ==> Body(lines) + kept == Body(lines);
    UnfoldPlain(first, Body(lines) + kept);
    SplitsIntoLogical(first, lines, kept);
  }

  /** What is read of laid-out lines: the topmost header among them, if there is one. */
  lemma ReadsTopmost(text: string, first: string, lines: seq<Line>, tail: string)
    requires Layout(first, lines, tail) && text == Top(first, lines) + tail
    ensures Topmost(Logical(first, lines), AR).Some? ==> Parsed(text).ar == Topmost(Logical(first, lines), AR)
    ensures Topmost(Logical(first, lines), ARC).Some? ==> Parsed(text).arc == Topmost(Logical(first, lines), ARC)
    ensures tail == "" ==> Parsed(text) == Headers(Topmost(Logical(first, lines), AR), Topmost(Logical(first, lines), ARC))
  {
    hide Layout, Head, Unfold, Lines, Topmost, Logical;
    var all := Logical(first, lines);
    var kept := HeadKeeps(first, lines, tail);
    SplitsHead(first, lines, kept);
    assert kept == "" ==> Top(first, lines) + kept == Top(first, lines);
    if Topmost(all, AR).Some? {
      TopmostOfPrefix(Lines(Unfold(Top(first, lines) + kept)), all, AR);
    }
    if Topmost(all, ARC).Some? {
      TopmostOfPrefix(Lines(Unfold(Top(first, lines) + kept)), all, ARC);
    }
  }

  /** Line `k` is the topmost header of its kind. */
  ghost predicate IsTopmost(all: seq<string>, k: nat, name: string) {
    k < |all| && HeaderValue(all[k], name).Some? && forall j :: 0 <= j < k ==> HeaderValue(all[j], name).None?
  }

  /**
   * Whatever lines stand above a header and whatever follows it, folded or not, and however the message is cut: the
   * topmost header of a kind, if its line ends within the cap, is what is read, unfolded.
   */
  lemma TopmostHeaderWins(chunks: seq<string>, first: string, lines: seq<Line>, tail: string, k: nat)
    requires Layout(first, lines, tail) && Concat(chunks) == Top(first, lines) + tail
    requires |Top(first, lines)| + EolLen(tail, 0) <= MAX_HEADER_BYTES
    ensures IsTopmost(Logical(first, lines), k, "authentication-results") ==>
      Parsed(Read("", chunks)).ar == HeaderValue(Logical(first, lines)[k], "authentication-results")
    ensures IsTopmost(Logical(first, lines), k, "arc-authentication-results") ==>
      Parsed(Read("", chunks)).arc == HeaderValue(Logical(first, lines)[k], "arc-authentication-results")
  {
    hide Layout, EolLen, Parsed, HeaderValue, Topmost, Logical;
    var kept := ReadKeeps(chunks, first, lines, tail);
    ReadsTopmost(Read("", chunks), first, lines, kept);
    if IsTopmost(Logical(first, lines), k, AR) {
      TopmostIsAt(Logical(first, lines), AR, k);
    }
    if IsTopmost(Logical(first, lines), k, ARC) {
      TopmostIsAt(Logical(first, lines), ARC, k);
    }
  }

  /** Every message has such a layout: its lines as far as the blank line or the last line end. */
  lemma {:induction false} EveryMessageIsLaidOut(m: string) returns (first: string, lines: seq<Line>, tail: string)
    ensures Layout(first, lines, tail) && m == Top(first, lines) + tail
    ensures tail == "" || |tail| == EolLen(tail, 0) || BlankLen(tail, 0) > 0
    decreases |m|
  {
    hide EolLen, BlankLen, Layout, Top;
    EolCases(m);
    var n := EolLen(m, 0);
    if m == "" {
      first, lines, tail := "", [], "";
      NoLines(m);
    } else if n == 0 {
      first, lines, tail := EveryMessageIsLaidOut(m[1..]);
      LongerFirst(m, first, lines, tail);
      first := [m[0]] + first;
    } else {
      var y := m[n..];
      EolCases(y);
      assert m == m[..n] + y;
      if y == "" || EolLen(y, 0) > 0 {
        first, lines, tail := "", [], m;
        NoLines(m);
        BlankOrLast(m);
      } else {
        first, lines, tail := EveryMessageIsLaidOut(y);
        var e := if n == 2 then Crlf else Lf;
        LineAbove(e, y, first, lines, tail);
        first, lines := "", [Line(e, first)] + lines;
      }
    }
  }

  lemma BlankOrLast(m: string)
    requires EolLen(m, 0) > 0
    requires m[EolLen(m, 0)..] == "" || EolLen(m[EolLen(m, 0)..], 0) > 0
    ensures |m| == EolLen(m, 0) || BlankLen(m, 0) > 0
  {
  }

  lemma NoLines(m: string)
    requires EndsLine(m)
    ensures Layout("", [], m) && m == Top("", []) + m
  {
    var x := Body([]) + m;
    assert Body([]) == "" && x == m;
  }

  lemma LongerFirst(m: string, first: string, lines: seq<Line>, tail: string)
    requires m != "" && EolLen(m, 0) == 0 && m[1..] == Top(first, lines) + tail && Layout(first, lines, tail)
    ensures Layout([m[0]] + first, lines, tail) && m == Top([m[0]] + first, lines) + tail
  {
    hide EolLen, Body, RestOk, Clean, Meets;
    var x := Body(lines) + tail;
    assert Top(first, lines) + tail == first + x;
    LongerMeets(m, first, x);
    assert Top([m[0]] + first, lines) + tail == ([m[0]] + first) + x;
  }

  lemma LongerMeets(m: string, first: string, x: string)
    requires m != "" && EolLen(m, 0) == 0 && m[1..] == first + x && Clean(first) && Meets(first, x)
    ensures Clean([m[0]] + first) && Meets([m[0]] + first, x) && m == ([m[0]] + first) + x
  {
    hide EolLen;
    EolCases(m);
    assert first == "" && x != "" ==> m[1] == x[0];
  }

  lemma LineAbove(e: End, y: string, first: string, lines: seq<Line>, tail: string)
    requires y != "" && EolLen(y, 0) == 0 && y == Top(first, lines) + tail && Layout(first, lines, tail)
    ensures Layout("", [Line(e, first)] + lines, tail) && Mark(e) + y == Top("", [Line(e, first)] + lines) + tail
  {
    hide EolLen, Body, RestOk, Clean, Meets;
    var x := Body(lines) + tail;
    assert y == first + x;
    if first == "" {
      assert y == x;
      StartsWithEnd(lines, tail);
    }
    RestCons(e, first, lines, tail);
  }

  lemma RestCons(e: End, first: string, lines: seq<Line>, tail: string)
    requires first != "" && Layout(first, lines, tail)
    ensures var all := [Line(e, first)] + lines;
      Layout("", all, tail) && Top("", all) + tail == Mark(e) + (first + (Body(lines) + tail))
  {
    hide Body;
    var all := [Line(e, first)] + lines;
    assert all[1..] == lines && all[0] == Line(e, first);
    BodyCons(all, tail);
    assert "" + Body(all) == Body(all);
  }

  lemma EolCases(s: string)
    ensures var n := EolLen(s, 0); n <= |s| && (n > 0 ==> s[..n] == Mark(if n == 2 then Crlf else Lf))
    ensures EolLen(s, 0) == 0 && s != "" ==> s[0] != '\n' && (|s| > 1 && s[0] == '\r' ==> s[1] != '\n')
    ensures EolLen(s, 0) > 0 ==> StartsUnfolded(s)
    ensures EolLen(s, 0) > 0 && StartsUnfolded(s[EolLen(s, 0)..]) ==> EndsLine(s)
  {
  }

  lemma StartsWithEnd(lines: seq<Line>, tail: string)
    requires RestOk(lines, tail) && Body(lines) + tail != ""
    ensures EolLen(Body(lines) + tail, 0) > 0
  {
    if lines != [] {
      BodyCons(lines, tail);
      MarkIs(lines[0].end, lines[0].text + (Body(lines[1..]) + tail));
    } else {
      assert Body(lines) + tail == tail;
    }
  }

  // ----- past the cap -----

  /** However the message is cut into chunks, the same headers are read. */
  ghost predicate AllCutsAgree(m: string) {
    forall chunks, others :: Concat(chunks) == m && Concat(others) == m ==> Parsed(Read("", chunks)) == Parsed(Read("", others))
  }

  /** Where the header block ends, its blank line included. */
  function HeadEnd(m: string): nat {
    if HasBlank(m) then FirstBlank(m, 0) + BlankLen(m, FirstBlank(m, 0)) else |m|
  }

  /** The cuts agree exactly when every prefix from the cap to the end of the header block shows the same headers. */
  lemma AllCutsAgreeExactly(m: string)
    ensures AllCutsAgree(m) <==> forall n :: MAX_HEADER_BYTES <= n <= HeadEnd(m) && n <= |m| ==> Parsed(m[..n]) == Parsed(m)
  {
    hide Parsed, HeadEnd, HasBlank, Read, Concat;
    CutInTwo(m, |m|);
    assert m[..|m|] == m;
    if AllCutsAgree(m) {
      forall n | MAX_HEADER_BYTES <= n <= HeadEnd(m) && n <= |m| ensures Parsed(m[..n]) == Parsed(m) {
        CutInTwo(m, n);
        assert Parsed(Read("", [m[..n], m[n..]])) == Parsed(Read("", [m[..|m|], m[|m|..]]));
      }
    }
    if forall n :: MAX_HEADER_BYTES <= n <= HeadEnd(m) && n <= |m| ==> Parsed(m[..n]) == Parsed(m) {
      forall chunks | Concat(chunks) == m ensures Parsed(Read("", chunks)) == Parsed(m) {
        CutReads(m, chunks);
      }
    }
  }

  /** A first chunk as long as the cap, or as long as the message, is all that is read. */
  lemma CutInTwo(m: string, n: nat)
    requires n <= |m| && (n >= MAX_HEADER_BYTES || n == |m|)
    ensures Concat([m[..n], m[n..]]) == m && Read("", [m[..n], m[n..]]) == m[..n]
  {
    hide HasBlank;
    var two := [m[..n], m[n..]];
    assert two[1..] == [m[n..]] && two[1..][1..] == [];
    assert Concat(two[1..]) == m[n..] + "" && m[n..] + "" == m[n..];
    assert "" + m[..n] == m[..n] && m[..n] + m[n..] == m;
    assert n == |m| ==> m[n..] == "" && m[..n] + "" == m[..n] && m == m[..n];
    assert Read(m[..n], two[1..]) == m[..n] || n < MAX_HEADER_BYTES;
    if n < MAX_HEADER_BYTES && !HasBlank(m[..n]) {
      assert Read(m[..n], two[1..]) == Read(m[..n], []);
    }
  }

  /** Every other read shows the headers of a prefix that long, or those of the whole message. */
  lemma CutReads(m: string, chunks: seq<string>)
    requires Concat(chunks) == m
    requires forall n :: MAX_HEADER_BYTES <= n <= HeadEnd(m) && n <= |m| ==> Parsed(m[..n]) == Parsed(m)
    ensures Parsed(Read("", chunks)) == Parsed(m)
  {
    hide Head, BlankLen, FirstBlank, Unfold, Lines, Topmost;
    var n := ReadIsPrefix("", chunks);
    assert "" + m == m;
    if n == |m| {
      assert m[..n] == m;
    } else if HasBlank(m[..n]) || (HasBlank(m) && HeadEnd(m) <= n) {
      SameFirstBlank(m, n);
    } else {
      assert n <= HeadEnd(m);
    }
  }

  lemma {:induction false} BodyConcat(above: seq<Line>, below: seq<Line>)
    ensures Body(above + below) == Body(above) + Body(below)
  {
    if above == [] {
      assert above + below == below;
    } else {
      assert (above + below)[1..] == above[1..] + below;
      BodyConcat(above[1..], below);
    }
  }

  lemma {:induction false} RestAbove(above: seq<Line>, below: seq<Line>, tail: string)
    requires RestOk(above + below, tail)
    ensures RestOk(above, "")
  {
    if above != [] {
      assert (above + below)[1..] == above[1..] + below;
      RestAbove(above[1..], below, tail);
      BodyConcat(above[1..], below);
      assert Body(above[1..]) + "" == Body(above[1..]);
    }
  }

  /** A header that stands only below lines as long as the cap is found in one chunk and missed in two. */
  lemma PastTheCapChunksMatter(first: string, above: seq<Line>, below: seq<Line>, tail: string)
    requires Layout(first, above + below, tail) && |Top(first, above)| >= MAX_HEADER_BYTES
    requires Topmost(Logical(first, above), AR).None? && Topmost(Logical(first, above + below), AR).Some?
    ensures Parsed(Top(first, above)).ar.None? && Parsed(Top(first, above + below) + tail).ar.Some?
    ensures !AllCutsAgree(Top(first, above + below) + tail)
  {
    hide Parsed, Topmost, Logical, EolLen, BlankLen;
    var m := Top(first, above + below) + tail;
    var n := |Top(first, above)|;
    ReadsTopmost(m, first, above + below, tail);
    RestAbove(above, below, tail);
    BodyConcat(above, below);
    assert Body(above) + "" == Body(above) && Top(first, above) + "" == Top(first, above);
    ReadsTopmost(Top(first, above), first, above, "");
    assert m[..n] == Top(first, above);
    FirstBlankMeans(m, 0);
    if FirstBlank(m, 0) < n {
      NoBlank(first, above + below, tail, FirstBlank(m, 0));
    }
    AllCutsAgreeExactly(m);
  }

  /** For one, the header below a first line of as many letters as the cap. */
  lemma CutsDisagree(pad: string, text: string)
    requires |pad| == 131072 && forall i :: 0 <= i < |pad| ==> pad[i] == 'x'
    requires text == AR + ":"
    ensures !AllCutsAgree(pad + Body([Line(Crlf, text)]))
  {
    hide HeaderValue, AllCutsAgree, EolLen;
    var below := [Line(Crlf, text)];
    var above: seq<Line> := [];
    assert above + below == below && below[1..] == [];
    assert Body(above) == "" && Body(below[1..]) == "";
    NoHeader(pad);
    EmptyHeader(text);
    assert Logical(pad, above) == [pad];
    assert Logical(text, below[1..]) == [text];
    assert Logical(pad, below) == [pad, text];
    assert [pad][1..] == [] && [pad, text][1..] == [text];
    assert Body(below) + "" == Body(below) && Top(pad, below) + "" == Top(pad, below);
    assert RestOk(below[1..], "");
    assert RestOk(below, "");
    assert Clean(pad) && Layout(pad, above + below, "");
    PastTheCapChunksMatter(pad, above, below, "");
  }

  lemma NoHeader(pad: string)
    requires pad != "" && pad[0] == 'x'
    ensures HeaderValue(pad, AR).None?
  {
    if |pad| >= |AR| + 1 {
      assert Lower(pad[..|AR| + 1])[0] == 'x' && (AR + ":")[0] == 'a';
    }
  }

  lemma EmptyHeader(text: string)
    requires text == AR + ":"
    ensures HeaderValue(text, AR) == Some("") && Clean(text) && text != "" && !IsFold(text[0]) && text[|text| - 1] == ':'
  {
    assert Lower(AR) == AR;
    assert AR + ":" + "" == text;
    HeaderLineValue(AR, AR, "");
  }
}
