/**
 * Reading the topmost Authentication-Results headers of a raw message from a stream: chunk by chunk until a blank line
 * or a cap, then unfolded line by line. A character stands for one byte as the decoder maps it.
 */
module AuthHeaders {
  import opened Wrappers
  import opened Text

  const MAX_HEADER_BYTES: nat := 131072

  // ----- line ends -----

  /** Length of `\r?\n` at `i`; 0 when it does not match there. */
  function EolLen(s: string, i: nat): (n: nat)
    ensures i + n <= |s| || n == 0
  {
    if i < |s| && s[i] == '\n' then 1
    else if i + 1 < |s| && s[i] == '\r' && s[i + 1] == '\n' then 2
    else 0
  }

  /** Length of `\r?\n\r?\n` at `i`; 0 when it does not match there. */
  function BlankLen(s: string, i: nat): (n: nat)
    ensures i + n <= |s| || n == 0
  {
    var a := EolLen(s, i);
    if a == 0 then 0
    else
      var b := EolLen(s, i + a);
      if b == 0 then 0 else a + b
  }

  /** Where the first blank line starts, from `i` on; |s| when there is none. */
  function FirstBlank(s: string, i: nat): (k: nat)
    requires i <= |s|
    ensures i <= k <= |s|
    decreases |s| - i
  {
    if i == |s| || BlankLen(s, i) > 0 then i else FirstBlank(s, i + 1)
  }

  predicate HasBlank(s: string) {
    FirstBlank(s, 0) < |s|
  }

  /** `text.split(/\r?\n\r?\n/)[0]`. */
  function Head(s: string): string {
    s[..FirstBlank(s, 0)]
  }

  lemma {:induction false} FirstBlankIs(s: string, i: nat, k: nat)
    requires i <= k <= |s| && (k < |s| ==> BlankLen(s, k) > 0) && forall j :: i <= j < k ==> BlankLen(s, j) == 0
    ensures FirstBlank(s, i) == k
    decreases k - i
  {
    if i < k {
      assert BlankLen(s, i) == 0;
      FirstBlankIs(s, i + 1, k);
    }
  }

  lemma {:induction false} FirstBlankMeans(s: string, i: nat)
    requires i <= |s|
    ensures var k := FirstBlank(s, i); (k < |s| ==> BlankLen(s, k) > 0) && forall j :: i <= j < k ==> BlankLen(s, j) == 0
    decreases |s| - i
  {
    if i < |s| && BlankLen(s, i) == 0 {
      FirstBlankMeans(s, i + 1);
    }
  }

  /** A blank line that ends within a prefix is seen there too, and a prefix shows no blank line that is not there. */
  lemma BlankInPrefix(m: string, n: nat, i: nat)
    requires n <= |m|
    ensures BlankLen(m[..n], i) > 0 ==> BlankLen(m, i) == BlankLen(m[..n], i)
    ensures BlankLen(m, i) > 0 && i + BlankLen(m, i) <= n ==> BlankLen(m[..n], i) > 0
  {
  }

  /** A blank line that starts before one seen in the prefix ends in the prefix as well. */
  lemma EarlierEndsEarlier(m: string, n: nat, i: nat, k: nat)
    requires n <= |m| && i < k && BlankLen(m, i) > 0 && BlankLen(m[..n], k) > 0
    ensures i + BlankLen(m, i) <= n
  {
  }

  /** A prefix that shows a blank line shows the first one of the message. */
  lemma SameFirstBlank(m: string, n: nat)
    requires n <= |m|
    requires HasBlank(m[..n]) || (HasBlank(m) && FirstBlank(m, 0) + BlankLen(m, FirstBlank(m, 0)) <= n)
    ensures FirstBlank(m[..n], 0) == FirstBlank(m, 0) && Head(m[..n]) == Head(m)
  {
    hide BlankLen;
    var p := m[..n];
    FirstBlankMeans(m, 0);
    FirstBlankMeans(p, 0);
    var k := FirstBlank(m, 0);
    forall j | 0 <= j < k ensures BlankLen(p, j) == 0 {
      BlankInPrefix(m, n, j);
    }
    if HasBlank(p) {
      var q := FirstBlank(p, 0);
      BlankInPrefix(m, n, q);
      if k < q {
        EarlierEndsEarlier(m, n, k, q);
        BlankInPrefix(m, n, k);
      }
    } else {
      BlankInPrefix(m, n, k);
    }
    FirstBlankIs(p, 0, k);
  }

  // ----- the read loop -----

  /** What has been read when the loop stops: at a blank line, at the cap, or at the end. */
  function Read(buffer: string, chunks: seq<string>): string
    decreases |chunks|
  {
    if |buffer| >= MAX_HEADER_BYTES || chunks == [] then buffer
    else if HasBlank(buffer + chunks[0]) then buffer + chunks[0]
    else Read(buffer + chunks[0], chunks[1..])
  }

  function Concat(chunks: seq<string>): string {
    if chunks == [] then "" else chunks[0] + Concat(chunks[1..])
  }

  /** It is a prefix of the message: all of it, or with a blank line, or of at least the cap's length. */
  lemma {:induction false} ReadIsPrefix(buffer: string, chunks: seq<string>) returns (n: nat)
    ensures n <= |buffer + Concat(chunks)| && Read(buffer, chunks) == (buffer + Concat(chunks))[..n]
    ensures n == |buffer + Concat(chunks)| || n >= MAX_HEADER_BYTES || HasBlank(Read(buffer, chunks))
    decreases |chunks|
  {
    hide HasBlank;
    var m := buffer + Concat(chunks);
    if |buffer| >= MAX_HEADER_BYTES || chunks == [] {
      n := |buffer|;
      assert m[..n] == buffer;
    } else {
      var next := buffer + chunks[0];
      assert m == next + Concat(chunks[1..]);
      if HasBlank(next) {
        n := |next|;
        assert m[..n] == next;
      } else {
        n := ReadIsPrefix(next, chunks[1..]);
      }
    }
  }

  /** The header block ends, or the message does, within the cap. */
  predicate WithinCap(m: string) {
    |m| <= MAX_HEADER_BYTES
    || (HasBlank(m) && FirstBlank(m, 0) + BlankLen(m, FirstBlank(m, 0)) <= MAX_HEADER_BYTES)
  }

  lemma HeadOfRead(chunks: seq<string>)
    requires WithinCap(Concat(chunks))
    ensures Head(Read("", chunks)) == Head(Concat(chunks))
  {
    hide Head, BlankLen, FirstBlank;
    var m := Concat(chunks);
    var n := ReadIsPrefix("", chunks);
    assert "" + m == m;
    if n == |m| {
      assert m[..n] == m;
    } else {
      SameFirstBlank(m, n);
    }
  }

  // ----- unfolding and lines -----

  predicate IsFold(c: char) {
    c == ' ' || c == '\t'
  }

  function SkipFold(s: string): (r: string)
    ensures |r| <= |s|
  {
    if s != "" && IsFold(s[0]) then SkipFold(s[1..]) else s
  }

  /** `s.replace(/\r?\n[ \t]+/g, ' ')`. */
  function Unfold(s: string): string
    decreases |s|
  {
    if s == "" then ""
    else
      var n := EolLen(s, 0);
      if n > 0 && n < |s| && IsFold(s[n]) then " " + Unfold(SkipFold(s[n..])) else [s[0]] + Unfold(s[1..])
  }

  /** `s.split(/\r?\n/)`. */
  function Lines(s: string): (r: seq<string>)
    ensures |r| >= 1
    decreases |s|
  {
    if s == "" then [""]
    else
      var n := EolLen(s, 0);
      if n > 0 then [""] + Lines(s[n..])
      else
        var rest := Lines(s[1..]);
        [[s[0]] + rest[0]] + rest[1..]
  }

  predicate IsTerminator(c: char) {
    c == '\n' || c == '\r' || c == '\U{2028}' || c == '\U{2029}'
  }

  /** The value of header `name` when `line` is one: `/^name:\s*(.*)$/i`. */
  function HeaderValue(line: string, name: string): Option<string> {
    var k := |name| + 1;
    if |line| < k || Lower(line[..k]) != name + ":" then None
    else
      var v := TrimStart(line[k..]);
      if exists i :: 0 <= i < |v| && IsTerminator(v[i]) then None else Some(v)
  }

  function Topmost(lines: seq<string>, name: string): Option<string> {
    if lines == [] then None
    else match HeaderValue(lines[0], name) case Some(v) => Some(v) case None => Topmost(lines[1..], name)
  }

  datatype Headers = Headers(ar: Option<string>, arc: Option<string>)

  const AR := "authentication-results"
  const ARC := "arc-authentication-results"
  const NONE := Headers(None, None)

  function Parsed(text: string): Headers {
    var lines := Lines(Unfold(Head(text)));
    Headers(Topmost(lines, AR), Topmost(lines, ARC))
  }

  lemma {:induction false} TopmostSnoc(lines: seq<string>, line: string, name: string)
    ensures Topmost(lines + [line], name) == if Topmost(lines, name).Some? then Topmost(lines, name) else HeaderValue(line, name)
  {
    hide HeaderValue;
    if lines == [] {
      assert [] + [line] == [line];
      assert [line][1..] == [];
    } else {
      assert (lines + [line])[1..] == lines[1..] + [line];
      TopmostSnoc(lines[1..], line, name);
    }
  }

  /** How many reads the loop makes, the one that finds the end included. */
  function ReadsMade(buffer: string, chunks: seq<string>): nat
    decreases |chunks|
  {
    if |buffer| >= MAX_HEADER_BYTES then 0
    else if chunks == [] then 1
    else 1 + if HasBlank(buffer + chunks[0]) then 0 else ReadsMade(buffer + chunks[0], chunks[1..])
  }

  /** A stream gives chunks until it ends; `fails` is the read that throws, if one does: it counts if it is made. */
  method ReadAuthHeaders(chunks: seq<string>, fails: Option<nat>) returns (out: Headers)
    ensures out == if fails.Some? && fails.value < ReadsMade("", chunks) then NONE else Parsed(Read("", chunks))
  {
    hide HasBlank, Head, Unfold, Lines, HeaderValue;
    var bytes := "";
    var n := 0;
    ghost var made := 0;
    while |bytes| < MAX_HEADER_BYTES
      invariant n <= |chunks| && Read("", chunks) == Read(bytes, chunks[n..])
      invariant ReadsMade("", chunks) == n + ReadsMade(bytes, chunks[n..]) && made == n
      invariant fails.Some? ==> fails.value >= n
      decreases |chunks| - n
    {
      if fails == Some(n) {
        return NONE;
      }
      made := n + 1;
      if n == |chunks| {
        break;
      }
      bytes := bytes + chunks[n];
      n := n + 1;
      if HasBlank(bytes) {
        break;
      }
    }
    assert ReadsMade("", chunks) == made;
    out := NONE;
    var lines := Lines(Unfold(Head(bytes)));
    for i := 0 to |lines|
      invariant out.ar == Topmost(lines[..i], AR) && out.arc == Topmost(lines[..i], ARC)
    {
      TopmostSnoc(lines[..i], lines[i], AR);
      TopmostSnoc(lines[..i], lines[i], ARC);
      assert lines[..i + 1] == lines[..i] + [lines[i]];
      var ar := HeaderValue(lines[i], AR);
      if ar.Some? && out.ar.None? {
        out := out.(ar := ar);
      }
      var arc := HeaderValue(lines[i], ARC);
      if arc.Some? && out.arc.None? {
        out := out.(arc := arc);
      }
    }
    assert lines[..|lines|] == lines;
  }

  /** However a message is cut into chunks, the headers read are those of the whole message. */
  lemma ChunksDoNotMatter(chunks: seq<string>, others: seq<string>)
    requires Concat(chunks) == Concat(others) && WithinCap(Concat(chunks))
    ensures Parsed(Read("", chunks)) == Parsed(Concat(chunks)) && Parsed(Read("", chunks)) == Parsed(Read("", others))
  {
    hide Head, Unfold, Lines, Topmost, WithinCap;
    HeadOfRead(chunks);
    HeadOfRead(others);
  }

  /** A header line gives its value without leading blanks, exactly when no bare line terminator is left in it. */
  lemma HeaderLineValue(name: string, written: string, v: string)
    requires Lower(written) == name
    ensures HeaderValue(written + ":" + v, name) ==
      if exists c :: c in TrimStart(v) && (c == '\n' || c == '\r' || c == '\U{2028}' || c == '\U{2029}') then None else Some(TrimStart(v))
  {
    var line, value := written + ":" + v, TrimStart(v);
    assert forall i :: 0 <= i < |value| ==> value[i] in value;
    assert |written| == |name|;
    assert line[..|name| + 1] == written + ":" && line[|name| + 1..] == v;
    assert Lower(written + ":") == name + ":";
  }
}
