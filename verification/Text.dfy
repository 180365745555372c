/**
 * JavaScript string operations the parsers and printers are written with: split, join, trim, toLowerCase,
 * indexOf, parseInt. Strings are sequences of characters; lower-casing covers ASCII.
 */
module Text {
  import opened Wrappers

  // ----- characters -----

  /** The characters `String.prototype.trim` and `\s` remove. */
  predicate IsSpace(c: char) {
    '\t' <= c <= '\r' || c == ' ' || c == '\U{00A0}' || c == '\U{1680}' || '\U{2000}' <= c <= '\U{200A}'
    || c == '\U{2028}' || c == '\U{2029}' || c == '\U{202F}' || c == '\U{205F}' || c == '\U{3000}' || c == '\U{FEFF}'
  }

  const SPACES: string := "\t\n\U{000B}\U{000C}\r \U{00A0}\U{1680}\U{2028}\U{2029}\U{202F}\U{205F}\U{3000}\U{FEFF}"
  const EN_SPACES: string := "\U{2000}\U{2001}\U{2002}\U{2003}\U{2004}\U{2005}\U{2006}\U{2007}\U{2008}\U{2009}\U{200A}"

  /** White space is exactly what ECMA-262 lists as white space and line terminators (sections 12.2 and 12.3). */
  lemma SpacesAre(c: char)
    ensures IsSpace(c) <==> c in SPACES || c in EN_SPACES
  {
    if '\t' <= c <= '\r' {
      assert SPACES[c as int - 9] == c;
    } else if '\U{2000}' <= c <= '\U{200A}' {
      assert EN_SPACES[c as int - 0x2000] == c;
    } else if IsSpace(c) {
      assert SPACES[5] == ' ' && SPACES[6] == '\U{00A0}' && SPACES[7] == '\U{1680}' && SPACES[8] == '\U{2028}' && SPACES[9] == '\U{2029}';
      assert SPACES[10] == '\U{202F}' && SPACES[11] == '\U{205F}' && SPACES[12] == '\U{3000}' && SPACES[13] == '\U{FEFF}';
    }
  }

  predicate IsDigit(c: char) {
    '0' <= c <= '9'
  }

  function LowerChar(c: char): char {
    if 'A' <= c <= 'Z' then c - 'A' + 'a' else c
  }

  function Lower(s: string): string {
    seq(|s|, i requires 0 <= i < |s| => LowerChar(s[i]))
  }

  lemma LowerAlphabet()
    ensures Lower("ABCDEFGHIJKLMNOPQRSTUVWXYZ") == "abcdefghijklmnopqrstuvwxyz"
  {
  }

  lemma LowerIdempotent(s: string)
    ensures Lower(Lower(s)) == Lower(s)
  {
  }

  // ----- indexOf -----

  /** `s.indexOf(c)`, with |s| for "not found". */
  function IndexOf(s: string, c: char): (i: nat)
    ensures i <= |s|
  {
    if s == "" || s[0] == c then 0 else 1 + IndexOf(s[1..], c)
  }

  lemma {:induction false} IndexOfFirst(s: string, c: char)
    ensures var i := IndexOf(s, c); c !in s[..i] && (i < |s| ==> s[i] == c) && (i < |s| <==> c in s)
  {
    if s != "" && s[0] != c {
      IndexOfFirst(s[1..], c);
      var i := IndexOf(s[1..], c);
      assert s[..1 + i] == [s[0]] + s[1..][..i];
    }
  }

  lemma {:induction false} IndexOfAt(head: string, c: char, rest: string)
    requires c !in head
    ensures IndexOf(head + [c] + rest, c) == |head|
  {
    if head == "" {
      assert head + [c] + rest == [c] + rest;
    } else {
      assert (head + [c] + rest)[1..] == head[1..] + [c] + rest;
      IndexOfAt(head[1..], c, rest);
    }
  }

  /** Text that contains `c` is what precedes its first occurrence, `c`, and the rest. */
  lemma CutAt(s: string, c: char)
    requires c in s
    ensures var i := IndexOf(s, c); i < |s| && c !in s[..i] && s == s[..i] + [c] + s[i + 1..]
  {
    IndexOfFirst(s, c);
  }

  // ----- trim -----

  function TrimStart(s: string): string {
    if s != "" && IsSpace(s[0]) then TrimStart(s[1..]) else s
  }

  function TrimEnd(s: string): string {
    if s != "" && IsSpace(s[|s| - 1]) then TrimEnd(s[..|s| - 1]) else s
  }

  /** `s.trim()`. */
  function Trim(s: string): string {
    TrimEnd(TrimStart(s))
  }

  predicate AllSpace(s: string) {
    forall i :: 0 <= i < |s| ==> IsSpace(s[i])
  }

  predicate Trimmed(s: string) {
    s != "" ==> !IsSpace(s[0]) && !IsSpace(s[|s| - 1])
  }

  lemma {:induction false} TrimStartBefore(a: string, c: char, b: string)
    requires !IsSpace(c)
    ensures TrimStart(a + [c] + b) == TrimStart(a) + [c] + b
  {
    if a == "" {
      assert a + [c] + b == [c] + b;
    } else {
      assert (a + [c] + b)[1..] == a[1..] + [c] + b;
      TrimStartBefore(a[1..], c, b);
    }
  }

  lemma {:induction false} TrimEndAfter(a: string, c: char, b: string)
    requires !IsSpace(c)
    ensures TrimEnd(a + [c] + b) == a + [c] + TrimEnd(b)
  {
    if b == "" {
      assert a + [c] + b == a + [c];
      assert (a + [c])[|a|] == c;
    } else {
      var n := |b| - 1;
      assert (a + [c] + b)[..|a + [c] + b| - 1] == a + [c] + b[..n];
      assert (a + [c] + b)[|a + [c] + b| - 1] == b[n];
      TrimEndAfter(a, c, b[..n]);
    }
  }

  lemma TrimOfTrimmed(s: string)
    requires Trimmed(s)
    ensures Trim(s) == s
  {
  }

  predicate IsLower(s: string) {
    forall i :: 0 <= i < |s| ==> !('A' <= s[i] <= 'Z')
  }

  lemma LowerOfLower(s: string)
    requires IsLower(s)
    ensures Lower(s) == s
  {
  }

  lemma {:induction false} TrimOfSpaces(s: string)
    requires AllSpace(s)
    ensures TrimStart(s) == "" && TrimEnd(s) == "" && Trim(s) == ""
  {
    if s != "" {
      TrimOfSpaces(s[1..]);
      TrimOfSpaces(s[..|s| - 1]);
    }
  }

  lemma {:induction false} TrimStartCuts(s: string)
    ensures TrimStart(s) == "" || !IsSpace(TrimStart(s)[0])
    ensures TrimStart(TrimStart(s)) == TrimStart(s)
    ensures forall c :: c in TrimStart(s) ==> c in s
  {
    if s != "" && IsSpace(s[0]) {
      TrimStartCuts(s[1..]);
    }
  }

  lemma {:induction false} TrimEndCuts(s: string)
    ensures TrimEnd(s) == "" || !IsSpace(TrimEnd(s)[|TrimEnd(s)| - 1])
    ensures TrimEnd(TrimEnd(s)) == TrimEnd(s)
    ensures forall c :: c in TrimEnd(s) ==> c in s
  {
    if s != "" && IsSpace(s[|s| - 1]) {
      TrimEndCuts(s[..|s| - 1]);
    }
  }

  lemma TrimsCommute(s: string)
    ensures TrimStart(TrimEnd(s)) == TrimEnd(TrimStart(s))
  {
    if AllSpace(s) {
      TrimOfSpaces(s);
    } else {
      var i :| 0 <= i < |s| && !IsSpace(s[i]);
      var a, c, b := s[..i], s[i], s[i + 1..];
      assert s == a + [c] + b;
      TrimStartBefore(a, c, b);
      TrimEndAfter(a, c, b);
      TrimStartBefore(a, c, TrimEnd(b));
      TrimEndAfter(TrimStart(a), c, b);
    }
  }

  lemma TrimIsTrimmed(s: string)
    ensures Trimmed(Trim(s)) && Trim(Trim(s)) == Trim(s)
    ensures forall c :: c in Trim(s) ==> c in s
  {
    TrimsCommute(s);
    TrimStartCuts(s);
    TrimEndCuts(TrimStart(s));
    TrimStartCuts(TrimEnd(s));
  }

  /** Trimming one end first changes nothing: what the parsers rely on when they trim twice. */
  lemma TrimAbsorbs(s: string)
    ensures Trim(TrimStart(s)) == Trim(s) && Trim(TrimEnd(s)) == Trim(s)
  {
    TrimStartCuts(s);
    TrimsCommute(s);
    TrimEndCuts(TrimStart(s));
  }

  lemma TrimGrows(s: string, c: char)
    requires !IsSpace(c)
    ensures |Trim(s + [c])| == |TrimStart(s)| + 1 && |TrimStart(s)| >= |Trim(s)|
  {
    TrimStartBefore(s, c, "");
    TrimEndAfter(TrimStart(s), c, "");
    assert s + [c] + "" == s + [c];
    TrimsShrink(TrimStart(s));
  }

  lemma TrimsShrink(s: string)
    ensures |TrimStart(s)| <= |s| && |TrimEnd(s)| <= |s|
  {
  }

  // ----- split and join -----

  /** `s.split(sep)` for a one-character separator. */
  function Split(s: string, sep: char): (parts: seq<string>)
    ensures |parts| >= 1
    decreases |s|
  {
    var i := IndexOf(s, sep);
    if i == |s| then [s] else [s[..i]] + Split(s[i + 1..], sep)
  }

  lemma {:induction false} SplitParts(s: string, sep: char)
    ensures forall i :: 0 <= i < |Split(s, sep)| ==> sep !in Split(s, sep)[i]
    ensures sep !in s ==> Split(s, sep) == [s]
    decreases |s|
  {
    IndexOfFirst(s, sep);
    if sep in s {
      SplitParts(s[IndexOf(s, sep) + 1..], sep);
    }
  }

  /** `parts.join(sep)`. */
  function Join(parts: seq<string>, sep: string): string {
    if |parts| == 0 then ""
    else if |parts| == 1 then parts[0]
    else parts[0] + sep + Join(parts[1..], sep)
  }

  lemma SplitAt(head: string, sep: char, rest: string)
    requires sep !in head
    ensures Split(head + [sep] + rest, sep) == [head] + Split(rest, sep)
  {
    IndexOfAt(head, sep, rest);
    var s := head + [sep] + rest;
    assert s[..|head|] == head && s[|head| + 1..] == rest;
  }

  lemma SplitPrepend(p: string, s: string, sep: char)
    requires sep !in p
    ensures Split(p + s, sep) == [p + Split(s, sep)[0]] + Split(s, sep)[1..]
  {
    IndexOfFirst(s, sep);
    SplitParts(s, sep);
    if sep in s {
      var i := IndexOf(s, sep);
      CutAt(s, sep);
      assert p + s == (p + s[..i]) + [sep] + s[i + 1..];
      SplitAt(p + s[..i], sep, s[i + 1..]);
    } else {
      SplitParts(p + s, sep);
    }
  }

  lemma JoinNone(sep: string)
    ensures Join([], sep) == ""
  {
  }

  lemma JoinOne(part: string, sep: string)
    ensures Join([part], sep) == part
  {
  }

  lemma JoinCons(head: string, rest: seq<string>, sep: string)
    requires rest != []
    ensures Join([head] + rest, sep) == head + sep + Join(rest, sep)
  {
    assert ([head] + rest)[1..] == rest;
  }

  /** Splitting undoes joining, for parts that do not contain the separator. */
  lemma {:induction false} SplitOfJoin(parts: seq<string>, sep: char)
    requires |parts| >= 1
    requires forall i :: 0 <= i < |parts| ==> sep !in parts[i]
    ensures Split(Join(parts, [sep]), sep) == parts
  {
    if |parts| == 1 {
      SplitParts(parts[0], sep);
    } else {
      SplitAt(parts[0], sep, Join(parts[1..], [sep]));
      SplitOfJoin(parts[1..], sep);
    }
  }

  /** Joining undoes splitting, for every string. */
  lemma {:induction false} JoinOfSplit(s: string, sep: char)
    ensures Join(Split(s, sep), [sep]) == s
    decreases |s|
  {
    IndexOfFirst(s, sep);
    if sep in s {
      var i := IndexOf(s, sep);
      CutAt(s, sep);
      JoinOfSplit(s[i + 1..], sep);
      JoinCons(s[..i], Split(s[i + 1..], sep), [sep]);
    }
  }

  /** A space in front of every part: what splitting text joined with "; " on ';' gives, after the first part. */
  function Spaced(parts: seq<string>): seq<string> {
    seq(|parts|, i requires 0 <= i < |parts| => " " + parts[i])
  }

  lemma SpacedCons(tail: seq<string>, split: seq<string>)
    requires |tail| >= 1 && split == [tail[0]] + Spaced(tail[1..])
    ensures [" " + split[0]] + split[1..] == Spaced(tail)
  {
  }

  lemma {:induction false} SplitOfSpacedJoin(parts: seq<string>)
    requires |parts| >= 1
    requires forall i :: 0 <= i < |parts| ==> ';' !in parts[i]
    ensures Split(Join(parts, "; "), ';') == [parts[0]] + Spaced(parts[1..])
  {
    if |parts| == 1 {
      SplitParts(parts[0], ';');
    } else {
      var tail := parts[1..];
      var rest := Join(tail, "; ");
      assert Join(parts, "; ") == parts[0] + [';'] + (" " + rest) by {
        assert "; " + rest == [';'] + (" " + rest);
      }
      SplitAt(parts[0], ';', " " + rest);
      SplitPrepend(" ", rest, ';');
      SplitOfSpacedJoin(tail);
      SpacedCons(tail, Split(rest, ';'));
    }
  }

  lemma {:induction false} JoinEndsWithLast(parts: seq<string>, sep: string)
    requires |parts| >= 1
    ensures Join(parts, sep) == Join(parts[..|parts| - 1] + [""], sep) + parts[|parts| - 1]
  {
    var n := |parts| - 1;
    if n > 0 {
      JoinEndsWithLast(parts[1..], sep);
      assert parts[1..][..n - 1] == parts[..n][1..];
      assert (parts[..n] + [""])[1..] == parts[..n][1..] + [""];
    }
  }

  /** `s.endsWith(suffix)`. */
  predicate EndsWith(s: string, suffix: string) {
    |suffix| <= |s| && s[|s| - |suffix|..] == suffix
  }

  lemma EndsWithExactly(s: string, suffix: string)
    ensures EndsWith(s, suffix) <==> exists head :: s == head + suffix
  {
    if EndsWith(s, suffix) {
      assert s == s[..|s| - |suffix|] + suffix;
    }
  }

  // ----- numbers -----

  function DigitsPrefix(s: string): (n: nat)
    ensures n <= |s|
  {
    if s != "" && IsDigit(s[0]) then 1 + DigitsPrefix(s[1..]) else 0
  }

  predicate AllDigits(s: string) {
    forall i :: 0 <= i < |s| ==> IsDigit(s[i])
  }

  lemma {:induction false} DigitsPrefixDigits(s: string)
    ensures AllDigits(s[..DigitsPrefix(s)])
    ensures AllDigits(s) ==> DigitsPrefix(s) == |s|
  {
    if s != "" && IsDigit(s[0]) {
      DigitsPrefixDigits(s[1..]);
      assert s[..DigitsPrefix(s)] == [s[0]] + s[1..][..DigitsPrefix(s[1..])];
      assert AllDigits(s) ==> AllDigits(s[1..]);
    }
  }

  function DigitOf(c: char): nat
    requires IsDigit(c)
  {
    c as int - '0' as int
  }

  function DigitsValue(s: string): nat
    requires AllDigits(s)
  {
    if s == "" then 0 else 10 * DigitsValue(s[..|s| - 1]) + DigitOf(s[|s| - 1])
  }

  function ParseDigits(s: string): Option<nat> {
    var n := DigitsPrefix(s);
    DigitsPrefixDigits(s);
    if n == 0 then None else Some(DigitsValue(s[..n]))
  }

  /** `parseInt(s, 10)`, None for NaN. */
  function ParseInt(s: string): Option<int> {
    var t := TrimStart(s);
    if t != "" && t[0] == '-' then
      match ParseDigits(t[1..]) case None => None case Some(n) => Some(-(n as int))
    else
      match ParseDigits(if t != "" && t[0] == '+' then t[1..] else t) case None => None case Some(n) => Some(n as int)
  }

  function DigitChar(n: nat): (c: char)
    requires n < 10
    ensures IsDigit(c) && DigitOf(c) == n
  {
    (n + '0' as int) as char
  }

  /** A natural number in decimal. */
  function Decimal(n: nat): string {
    if n < 10 then [DigitChar(n)] else Decimal(n / 10) + [DigitChar(n % 10)]
  }

  lemma {:induction false} DecimalDigits(n: nat)
    ensures Decimal(n) != "" && AllDigits(Decimal(n)) && DigitsValue(Decimal(n)) == n
  {
    if n >= 10 {
      DecimalDigits(n / 10);
      assert Decimal(n)[..|Decimal(n)| - 1] == Decimal(n / 10);
    } else {
      assert Decimal(n)[..0] == "";
    }
  }

  /** Printing a natural number and parsing it gives it back. */
  lemma ParseIntOfDecimal(n: nat)
    ensures ParseInt(Decimal(n)) == Some(n)
  {
    var s := Decimal(n);
    DecimalDigits(n);
    DigitsPrefixDigits(s);
    assert IsDigit(s[0]) && !IsSpace(s[0]);
    assert s[..|s|] == s;
  }
}
