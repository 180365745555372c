/**
 * Base64url without padding, written as the browser functions it uses: `btoa`, with its padding stripped and its last
 * two characters exchanged, and `atob` on text padded again. The alphabets are those of sections 4 and 5 of RFC 4648.
 */
module Base64 {
  import opened Wrappers

  newtype byte = b: int | 0 <= b < 256

  function Sextet(c: char): (o: Option<nat>)
    ensures o.Some? ==> o.value < 64
  {
    if 'A' <= c <= 'Z' then Some(c as int - 'A' as int)
    else if 'a' <= c <= 'z' then Some(c as int - 'a' as int + 26)
    else if '0' <= c <= '9' then Some(c as int - '0' as int + 52)
    else if c == '+' then Some(62)
    else if c == '/' then Some(63)
    else None
  }

  function Char(n: nat): (c: char)
    requires n < 64
  {
    if n < 26 then 'A' + n as char
    else if n < 52 then 'a' + (n - 26) as char
    else if n < 62 then '0' + (n - 52) as char
    else if n == 62 then '+' else '/'
  }

  lemma SextetOfChar(n: nat)
    requires n < 64
    ensures Sextet(Char(n)) == Some(n) && Char(n) != '='
  {
  }

  // ----- the platform's btoa and atob -----

  /** The characters of up to three bytes, without padding. */
  function Quartet(b: seq<byte>): (s: string)
    requires 1 <= |b| <= 3
    ensures |s| == |b| + 1
  {
    var x := b[0] as int;
    var y := if |b| > 1 then b[1] as int else 0;
    var z := if |b| > 2 then b[2] as int else 0;
    var p, q, r, t := Char(x / 4), Char(x % 4 * 16 + y / 16), Char(y % 16 * 4 + z / 64), Char(z % 64);
    if |b| == 1 then [p, q] else if |b| == 2 then [p, q, r] else [p, q, r, t]
  }

  function Repeat(c: char, n: nat): string {
    seq(n, i => c)
  }

  function Btoa(b: seq<byte>): string {
    if b == [] then ""
    else if |b| <= 3 then Quartet(b) + Repeat('=', 3 - |b|)
    else Quartet(b[..3]) + Btoa(b[3..])
  }

  /** The bytes of two to four characters; bits left over are dropped. */
  function Bytes(s: string): Option<seq<byte>>
    requires 2 <= |s| <= 4
  {
    var c, d := Sextet(s[0]), Sextet(s[1]);
    var e, f := if |s| > 2 then Sextet(s[2]) else Some(0), if |s| > 3 then Sextet(s[3]) else Some(0);
    if c.None? || d.None? || e.None? || f.None? then None
    else
      var x := (c.value * 4 + d.value / 16) as byte;
      var y := (d.value % 16 * 16 + e.value / 4) as byte;
      var z := (e.value % 4 * 64 + f.value) as byte;
      Some(if |s| == 2 then [x] else if |s| == 3 then [x, y] else [x, y, z])
  }

  function Decode(s: string): Option<seq<byte>> {
    if s == "" then Some([])
    else if |s| == 1 then None
    else if |s| <= 4 then Bytes(s)
    else match (Bytes(s[..4]), Decode(s[4..]))
      case (Some(a), Some(b)) => Some(a + b)
      case _ => None
  }

  predicate IsBlank(c: char) {
    c == ' ' || c == '\t' || c == '\n' || c == '\U{000C}' || c == '\r'
  }

  function NoBlanks(s: string): string {
    if s == "" then "" else (if IsBlank(s[0]) then "" else [s[0]]) + NoBlanks(s[1..])
  }

  /** Up to two '=' at the end of text whose length is a multiple of four. */
  function Unpadded(s: string): string {
    var n := |s|;
    if n == 0 || n % 4 != 0 || s[n - 1] != '=' then s
    else if s[n - 2] == '=' then s[..n - 2]
    else s[..n - 1]
  }

  function Atob(s: string): Option<seq<byte>> {
    Decode(Unpadded(NoBlanks(s)))
  }

  // ----- the two functions built on them -----

  function Swap(s: string, a: char, b: char): string {
    seq(|s|, i requires 0 <= i < |s| => if s[i] == a then b else s[i])
  }

  /** `s.replace(/=+$/, '')`. */
  function StripPadding(s: string): string {
    if s != "" && s[|s| - 1] == '=' then StripPadding(s[..|s| - 1]) else s
  }

  function B64url(b: seq<byte>): string {
    StripPadding(Swap(Swap(Btoa(b), '+', '-'), '/', '_'))
  }

  function Unb64url(s: string): Option<seq<byte>> {
    var pad := if |s| % 4 == 0 then "" else Repeat('=', 4 - |s| % 4);
    Atob(Swap(Swap(s, '-', '+'), '_', '/') + pad)
  }

  /** White space among the characters is not read. */
  lemma {:induction false} BlanksAreSkipped(a: string, c: char, b: string)
    requires c == ' ' || c == '\t' || c == '\n' || c == '\r' || c == '\U{000C}'
    ensures NoBlanks(a + [c] + b) == NoBlanks(a + b) && Atob(a + [c] + b) == Atob(a + b)
  {
    if a == "" {
      assert a + [c] + b == [c] + b && a + b == b;
    } else {
      assert (a + [c] + b)[1..] == a[1..] + [c] + b && (a + b)[1..] == a[1..] + b;
      BlanksAreSkipped(a[1..], c, b);
    }
  }

  lemma {:induction false} ColonIsNone(s: string)
    requires ':' in s
    ensures Decode(s).None?
  {
    if |s| > 4 {
      assert s == s[..4] + s[4..];
      if ':' in s[4..] {
        ColonIsNone(s[4..]);
      }
    }
  }

  lemma {:induction false} ColonIsKept(s: string)
    requires ':' in s
    ensures ':' in NoBlanks(s)
  {
    if s[0] != ':' {
      ColonIsKept(s[1..]);
    }
  }

  /** A colon is not base64. */
  lemma NoColon(s: string)
    requires ':' in s
    ensures Unb64url(s).None?
  {
    hide Decode, NoBlanks;
    var pad := if |s| % 4 == 0 then "" else Repeat('=', 4 - |s| % 4);
    var i :| 0 <= i < |s| && s[i] == ':';
    var t := Swap(Swap(s, '-', '+'), '_', '/') + pad;
    assert t[i] == ':';
    ColonIsKept(t);
    var x := NoBlanks(t);
    var j :| 0 <= j < |x| && x[j] == ':';
    assert j < |Unpadded(x)| && Unpadded(x)[j] == ':';
    ColonIsNone(Unpadded(x));
  }

  // ----- the round trip -----

  /** The characters without padding. */
  function Plain(b: seq<byte>): string {
    if b == [] then "" else if |b| <= 3 then Quartet(b) else Quartet(b[..3]) + Plain(b[3..])
  }

  predicate InAlphabet(s: string) {
    forall i :: 0 <= i < |s| ==> Sextet(s[i]).Some?
  }

  lemma Chars()
    ensures forall n: nat :: n < 64 ==> Sextet(Char(n)) == Some(n)
  {
    forall n: nat | n < 64 ensures Sextet(Char(n)) == Some(n) {
      SextetOfChar(n);
    }
  }

  lemma QuartetChars(b: seq<byte>)
    requires 1 <= |b| <= 3
    ensures InAlphabet(Quartet(b)) && Bytes(Quartet(b)) == Some(b)
  {
    hide Char, Sextet;
    Chars();
    var x := b[0] as int;
    if |b| == 1 {
      assert b == [b[0]];
    } else if |b| == 2 {
      assert b == [b[0], b[1]];
    } else {
      assert b == [b[0], b[1], b[2]];
    }
  }

  lemma {:induction false} PlainDecodes(b: seq<byte>)
    ensures InAlphabet(Plain(b)) && Decode(Plain(b)) == Some(b)
  {
    hide Bytes, Quartet, Sextet;
    if b != [] {
      if |b| <= 3 {
        QuartetChars(b);
      } else {
        QuartetChars(b[..3]);
        PlainDecodes(b[3..]);
        var s := Plain(b);
        assert s[..4] == Quartet(b[..3]) && s[4..] == Plain(b[3..]);
        assert b == b[..3] + b[3..];
      }
    }
  }

  function PadLength(b: seq<byte>): nat {
    (3 - |b| % 3) % 3
  }

  lemma {:induction false} BtoaIsPadded(b: seq<byte>)
    ensures Btoa(b) == Plain(b) + Repeat('=', PadLength(b)) && (|Plain(b)| + PadLength(b)) % 4 == 0
    ensures b != [] ==> |Plain(b)| >= 2
  {
    hide Quartet;
    if |b| > 3 {
      BtoaIsPadded(b[3..]);
      assert PadLength(b[3..]) == PadLength(b);
      assert Quartet(b[..3]) + (Plain(b[3..]) + Repeat('=', PadLength(b))) == (Quartet(b[..3]) + Plain(b[3..])) + Repeat('=', PadLength(b));
    }
  }

  lemma {:induction false} StripRepeat(s: string, n: nat)
    requires s == "" || s[|s| - 1] != '='
    ensures StripPadding(s + Repeat('=', n)) == s
  {
    if n == 0 {
      assert s + Repeat('=', 0) == s;
    } else {
      var t := s + Repeat('=', n);
      assert t[..|t| - 1] == s + Repeat('=', n - 1) && t[|t| - 1] == '=';
      StripRepeat(s, n - 1);
    }
  }

  lemma AlphabetIsPlain(s: string)
    requires InAlphabet(s)
    ensures forall i :: 0 <= i < |s| ==> s[i] != '=' && s[i] != '-' && s[i] != '_' && s[i] != '.' && !IsBlank(s[i])
  {
  }

  /** The URL alphabet for the standard one. */
  function Url(s: string): string {
    Swap(Swap(s, '+', '-'), '/', '_')
  }

  lemma B64urlIsPlain(b: seq<byte>)
    ensures B64url(b) == Url(Plain(b))
  {
    hide Plain, Btoa, PadLength, Sextet;
    PlainDecodes(b);
    BtoaIsPadded(b);
    AlphabetIsPlain(Plain(b));
    var p, n := Plain(b), PadLength(b);
    assert Url(p + Repeat('=', n)) == Url(p) + Repeat('=', n);
    assert Url(p) == "" || Url(p)[|p| - 1] != '=';
    StripRepeat(Url(p), n);
  }

  lemma UrlBack(s: string)
    requires InAlphabet(s)
    ensures Swap(Swap(Url(s), '-', '+'), '_', '/') == s
  {
    AlphabetIsPlain(s);
  }

  lemma {:induction false} NoBlanksSame(s: string)
    requires forall i :: 0 <= i < |s| ==> !IsBlank(s[i])
    ensures NoBlanks(s) == s
  {
    if s != "" {
      NoBlanksSame(s[1..]);
    }
  }

  lemma AtobOfPadded(s: string, n: nat)
    requires InAlphabet(s) && n <= 2 && (|s| + n) % 4 == 0 && (s == "" ==> n == 0)
    ensures Atob(s + Repeat('=', n)) == Decode(s)
  {
    hide Decode, Sextet, NoBlanks, Unpadded, Repeat;
    AlphabetIsPlain(s);
    UnpaddedSame(s, n);
    PaddedPlain(s, n);
    NoBlanksSame(s + Repeat('=', n));
  }

  lemma PaddedPlain(s: string, n: nat)
    requires forall i :: 0 <= i < |s| ==> !IsBlank(s[i])
    ensures forall i :: 0 <= i < |s + Repeat('=', n)| ==> !IsBlank((s + Repeat('=', n))[i])
  {
  }

  lemma UnpaddedSame(s: string, n: nat)
    requires (forall i :: 0 <= i < |s| ==> s[i] != '=') && n <= 2 && (|s| + n) % 4 == 0 && (s == "" ==> n == 0)
    ensures Unpadded(s + Repeat('=', n)) == s
  {
    var t := s + Repeat('=', n);
    assert |t| == |s| + n && t[..|s|] == s;
    assert forall i :: |s| <= i < |t| ==> t[i] == '=';
    assert forall i :: 0 <= i < |s| ==> t[i] == s[i];
  }

  /** Every byte string survives base64url: padding stripped and rebuilt, alphabet exchanged and back. */
  lemma RoundTrip(b: seq<byte>)
    ensures Unb64url(B64url(b)) == Some(b)
  {
    hide Plain, Btoa, Decode, Sextet, B64url, Atob;
    B64urlIsPlain(b);
    PlainDecodes(b);
    BtoaIsPadded(b);
    var s := Plain(b);
    UrlBack(s);
    var pad := if |s| % 4 == 0 then 0 else 4 - |s| % 4;
    assert pad == PadLength(b);
    assert Repeat('=', 0) == "";
    AtobOfPadded(s, pad);
  }

  /** Its text has no dot, so it can stand between dots, and is empty only for no bytes. */
  lemma UrlText(b: seq<byte>)
    ensures forall i :: 0 <= i < |B64url(b)| ==> B64url(b)[i] != '.' && B64url(b)[i] != ',' && B64url(b)[i] != ':' && B64url(b)[i] != '='
    ensures B64url(b) == "" <==> b == []
  {
    hide Btoa, B64url;
    B64urlIsPlain(b);
    PlainDecodes(b);
    BtoaIsPadded(b);
  }

  /** Keys are generated as padded standard base64; that text reads the same once its padding is stripped. */
  lemma StandardReads(b: seq<byte>)
    ensures Unb64url(StripPadding(Btoa(b))) == Some(b)
  {
    hide Plain, Btoa, Decode, Sextet, Atob;
    PlainDecodes(b);
    BtoaIsPadded(b);
    var s := Plain(b);
    AlphabetIsPlain(s);
    StripRepeat(s, PadLength(b));
    assert Swap(Swap(s, '-', '+'), '_', '/') == s;
    var pad := if |s| % 4 == 0 then 0 else 4 - |s| % 4;
    assert pad == PadLength(b);
    assert Repeat('=', 0) == "";
    AtobOfPadded(s, pad);
  }
}
