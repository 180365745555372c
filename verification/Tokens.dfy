/**
 * Intake tokens: 20 random bytes as 32 base-32 characters, made by a loop over a value that wraps at 32 bits; the
 * hosted id cut from such a token; and the intake address a token is read back from.
 */
module Tokens {
  import opened Wrappers
  import opened Text
  import opened Base64
  import HostedContent

  const ALPHABET := "abcdefghijklmnopqrstuvwxyz234567"
  const TOKEN_LENGTH := 32
  const TOKEN_BYTES := 20
  const WORD := 0x1_0000_0000

  // ----- arithmetic -----

  function Pow2(k: nat): (p: nat)
    ensures p > 0
  {
    if k == 0 then 1 else 2 * Pow2(k - 1)
  }

  function Div(n: nat, d: nat): nat
    requires d > 0
  {
    n / d
  }

  function Mod(n: nat, d: nat): (r: nat)
    requires d > 0
    ensures r < d
  {
    n % d
  }

  function Mul(a: nat, b: nat): nat {
    a * b
  }

  lemma DivMod(n: nat, d: nat)
    requires d > 0
    ensures n == Mul(d, Div(n, d)) + Mod(n, d)
  {
  }

  lemma {:induction false} MulMonotone(d: nat, a: nat, b: nat)
    requires a < b
    ensures Mul(d, a) + d <= Mul(d, b)
    decreases b
  {
    if a + 1 < b {
      MulMonotone(d, a, b - 1);
      assert d * b == d * (b - 1) + d;
    } else {
      assert d * b == d * a + d;
    }
  }

  lemma DivUnique(n: nat, d: nat, q: nat, r: nat)
    requires d > 0 && n == Mul(d, q) + r && r < d
    ensures Div(n, d) == q && Mod(n, d) == r
  {
    hide Mul, Div, Mod;
    DivMod(n, d);
    if Div(n, d) < q {
      MulMonotone(d, Div(n, d), q);
    } else if q < Div(n, d) {
      MulMonotone(d, q, Div(n, d));
    }
  }

  lemma MulIs(a: nat, b: nat)
    ensures Mul(a, b) == a * b
  {
  }

  lemma MulSum(a: nat, b: nat, c: nat)
    ensures Mul(a, b + c) == Mul(a, b) + Mul(a, c) && Mul(a, b) == Mul(b, a)
  {
  }

  lemma MulAssoc(a: nat, b: nat, c: nat)
    ensures Mul(a, Mul(b, c)) == Mul(Mul(a, b), c) && Mul(Mul(a, b), c) == Mul(b, Mul(a, c))
  {
  }

  /** Dividing by a product is dividing twice. */
  lemma DivMul(n: nat, a: nat, b: nat)
    requires a > 0 && b > 0 && Mul(a, b) > 0
    ensures Div(n, Mul(a, b)) == Div(Div(n, a), b)
  {
    hide Mul, Div, Mod;
    DivMod(n, a);
    DivMod(Div(n, a), b);
    var q, r, s := Div(Div(n, a), b), Mod(Div(n, a), b), Mod(n, a);
    MulSum(a, Mul(b, q), r);
    MulAssoc(a, b, q);
    MulMonotone(a, r, b);
    DivUnique(n, Mul(a, b), q, Mul(a, r) + s);
  }

  /** Whole multiples of `b * c` above do not reach the base-`c` digit over `b`. */
  lemma DigitBelow(n: nat, b: nat, c: nat, w: nat)
    requires b > 0 && c > 0 && w > 0 && Mul(b, Mul(c, w)) > 0
    ensures Mod(Div(Mod(n, Mul(b, Mul(c, w))), b), c) == Mod(Div(n, b), c)
  {
    hide Mul, Div, Mod;
    var word := Mul(b, Mul(c, w));
    var q, r := Div(n, word), Mod(n, word);
    DivMod(n, word);
    DivMod(r, b);
    DivMod(Div(r, b), c);
    var top, x := Mul(Mul(c, w), q), Div(r, b);
    MulAssoc(b, Mul(c, w), q);
    MulSum(b, top, x);
    DivUnique(n, b, top + x, Mod(r, b));
    MulAssoc(c, w, q);
    MulSum(c, Mul(w, q), Div(x, c));
    DivUnique(top + x, c, Mul(w, q) + Div(x, c), Mod(x, c));
  }

  lemma {:induction false} PowAdd(a: nat, b: nat)
    ensures Pow2(a + b) == Mul(Pow2(a), Pow2(b))
  {
    hide Mul, Pow2;
    PowStep(b);
    MulOne(Pow2(a));
    if b > 0 {
      PowAdd(a, b - 1);
      PowStep(a + b);
      MulAssoc(Pow2(a), 2, Pow2(b - 1));
      MulIs(2, Pow2(b - 1));
      MulIs(2, Pow2(a + (b - 1)));
    }
  }

  lemma PowStep(k: nat)
    ensures Pow2(k) == if k == 0 then 1 else 2 * Pow2(k - 1)
  {
  }

  lemma MulOne(a: nat)
    ensures Mul(a, 1) == a
  {
  }

  lemma Powers()
    ensures Pow2(0) == 1 && Pow2(5) == 32 && Pow2(8) == 256 && Pow2(32) == WORD
  {
    PowAdd(8, 8);
    PowAdd(16, 16);
    assert Pow2(8) == 256;
  }

  // ----- what a token is -----

  /** The bytes as a big-endian integer. */
  function Int(bytes: seq<byte>): nat {
    if bytes == [] then 0 else 256 * Int(bytes[..|bytes| - 1]) + bytes[|bytes| - 1] as int
  }

  /** The last `k` base-32 digits of `n`. */
  function Digits(n: nat, k: nat): (s: string)
    ensures |s| == k
  {
    if k == 0 then "" else Digits(Div(n, 32), k - 1) + [ALPHABET[Mod(n, 32)]]
  }

  /** What a token is: the 160-bit number of its bytes in base 32. */
  function Token(bytes: seq<byte>): string {
    Digits(Int(bytes), TOKEN_LENGTH)
  }

  // ----- the loop -----

  /** The wrap at 32 bits does not reach the five bits taken: they start no higher than bit 7. */
  lemma WrapIsHarmless(n: nat, k: nat)
    requires k <= 7
    ensures Mod(Div(Mod(n, WORD), Pow2(k)), 32) == Mod(Div(n, Pow2(k)), 32)
  {
    hide Mul, Div, Mod, Pow2;
    PowAdd(k, 32 - k);
    PowAdd(5, 27 - k);
    Powers();
    DigitBelow(n, Pow2(k), 32, Pow2(27 - k));
  }

  lemma ShiftIn(n: nat, b: nat)
    requires b < 256
    ensures Mod(256 * Mod(n, WORD) + b, WORD) == Mod(256 * n + b, WORD)
  {
    hide Mul, Div, Mod;
    var q, x := Div(n, WORD), 256 * Mod(n, WORD) + b;
    DivMod(n, WORD);
    DivMod(x, WORD);
    MulIs(WORD, 256 * q + Div(x, WORD));
    MulIs(WORD, q);
    MulIs(WORD, Div(x, WORD));
    DivUnique(256 * n + b, WORD, 256 * q + Div(x, WORD), Mod(x, WORD));
  }

  lemma ShiftedOut(n: nat, b: nat, bits: nat)
    requires b < 256
    ensures Div(256 * n + b, Pow2(bits + 8)) == Div(n, Pow2(bits))
  {
    hide Div, Mod, Pow2;
    Powers();
    PowAdd(8, bits);
    DivUnique(256 * n + b, 256, n, b);
    DivMul(256 * n + b, 256, Pow2(bits));
  }

  lemma NextDigit(m: nat, bits: nat, k: nat)
    requires bits >= 5
    ensures Digits(Div(m, Pow2(bits - 5)), k + 1) == Digits(Div(m, Pow2(bits)), k) + [ALPHABET[Mod(Div(m, Pow2(bits - 5)), 32)]]
  {
    hide Mul, Div, Mod, Pow2;
    Powers();
    PowAdd(bits - 5, 5);
    DivMul(m, Pow2(bits - 5), 32);
  }

  /** The generator: whatever wraps, the characters are the base-32 digits of the bytes, with no bit left over. */
  method GenerateToken(bytes: seq<byte>) returns (out: string)
    requires |bytes| == TOKEN_BYTES
    ensures out == Token(bytes)
  {
    hide Div, Mod, Mul, Pow2, Digits;
    var bits, value := 0, 0;
    out := "";
    Powers();
    Start();
    assert bytes[..0] == [];
    for i := 0 to |bytes|
      invariant 0 <= bits < 5 && 5 * |out| + bits == 8 * i
      invariant value == Mod(Int(bytes[..i]), WORD)
      invariant out == Digits(Div(Int(bytes[..i]), Pow2(bits)), |out|)
    {
      ghost var n, m := Int(bytes[..i]), Int(bytes[..i + 1]);
      assert bytes[..i + 1][..i] == bytes[..i];
      ShiftIn(n, bytes[i] as int);
      value := Mod(value * 256 + bytes[i] as int, WORD);
      ShiftedOut(n, bytes[i] as int, bits);
      bits := bits + 8;
      while bits >= 5
        invariant 0 <= bits <= 12 && 5 * |out| + bits == 8 * (i + 1)
        invariant out == Digits(Div(m, Pow2(bits)), |out|)
      {
        WrapIsHarmless(m, bits - 5);
        NextDigit(m, bits, |out|);
        out := out + [ALPHABET[Mod(Div(value, Pow2(bits - 5)), 32)]];
        bits := bits - 5;
      }
    }
    assert bytes[..|bytes|] == bytes;
    DivOne(Int(bytes));
  }

  lemma Start()
    ensures Int([]) == 0 && Mod(0, WORD) == 0 && Div(0, 1) == 0 && Digits(0, 0) == ""
  {
  }

  lemma DivOne(n: nat)
    ensures Div(n, 1) == n
  {
  }

  // ----- tokens and bytes correspond one to one -----

  predicate InAlphabet(c: char) {
    'a' <= c <= 'z' || '2' <= c <= '7'
  }

  predicate IsTokenShaped(t: string) {
    |t| == TOKEN_LENGTH && forall i :: 0 <= i < |t| ==> InAlphabet(t[i])
  }

  function DigitOf(c: char): (d: nat)
    requires InAlphabet(c)
    ensures d < 32 && ALPHABET[d] == c
  {
    if 'a' <= c <= 'z' then c as int - 'a' as int else c as int - '2' as int + 26
  }

  lemma AlphabetDigit(d: nat)
    requires d < 32
    ensures InAlphabet(ALPHABET[d]) && DigitOf(ALPHABET[d]) == d
  {
  }

  predicate AllAlphabet(t: string) {
    forall i :: 0 <= i < |t| ==> InAlphabet(t[i])
  }

  /** The number written in base 32. */
  function Value(t: string): nat
    requires AllAlphabet(t)
  {
    if t == "" then 0 else 32 * Value(t[..|t| - 1]) + DigitOf(t[|t| - 1])
  }

  lemma Split32(n: nat, k: nat)
    requires k > 0 && n < Pow2(5 * k)
    ensures Div(n, 32) < Pow2(5 * (k - 1)) && n == 32 * Div(n, 32) + Mod(n, 32)
  {
    hide Div, Mod, Pow2, Mul;
    Powers();
    PowAdd(5, 5 * (k - 1));
    DivMod(n, 32);
    MulIs(32, Div(n, 32));
    MulIs(32, Pow2(5 * (k - 1)));
  }

  lemma {:induction false} DigitsShaped(n: nat, k: nat)
    ensures AllAlphabet(Digits(n, k))
    decreases k
  {
    hide Div, Mod, InAlphabet;
    if k > 0 {
      DigitsShaped(Div(n, 32), k - 1);
      AlphabetDigit(Mod(n, 32));
    }
  }

  lemma {:induction false} ValueOfDigits(n: nat, k: nat)
    requires n < Pow2(5 * k)
    ensures AllAlphabet(Digits(n, k)) && Value(Digits(n, k)) == n
    decreases k
  {
    hide Div, Mod, InAlphabet;
    DigitsShaped(n, k);
    if k > 0 {
      hide Pow2;
      Split32(n, k);
      ValueOfDigits(Div(n, 32), k - 1);
      AlphabetDigit(Mod(n, 32));
      var t := Digits(n, k);
      assert t[..k - 1] == Digits(Div(n, 32), k - 1);
    }
  }

  lemma ValueSnoc(rest: string, c: char)
    requires AllAlphabet(rest + [c])
    ensures AllAlphabet(rest) && InAlphabet(c) && Value(rest + [c]) == 32 * Value(rest) + DigitOf(c)
  {
    var t := rest + [c];
    assert t[..|t| - 1] == rest && t[|rest|] == c;
    assert forall i :: 0 <= i < |rest| ==> rest[i] == t[i];
  }

  lemma {:induction false} DigitsOfValue(t: string)
    requires AllAlphabet(t)
    ensures Value(t) < Pow2(5 * |t|) && Digits(Value(t), |t|) == t
  {
    hide Div, Mod, Mul, InAlphabet, Pow2, DigitOf, Value;
    Powers();
    if t == "" {
      assert Value("") == 0 by { ValueNone(); }
    } else {
      var k, rest, c := |t|, t[..|t| - 1], t[|t| - 1];
      assert t == rest + [c];
      ValueSnoc(rest, c);
      DigitsOfValue(rest);
      MulIs(32, Value(rest));
      MulIs(32, Pow2(5 * (k - 1)));
      DivUnique(Value(t), 32, Value(rest), DigitOf(c));
      PowAdd(5, 5 * (k - 1));
    }
  }

  lemma ValueNone()
    ensures Value("") == 0
  {
  }

  lemma {:induction false} IntBound(bytes: seq<byte>)
    ensures Int(bytes) < Pow2(8 * |bytes|)
  {
    hide Mul;
    if bytes != [] {
      var k := |bytes|;
      IntBound(bytes[..k - 1]);
      Powers();
      PowAdd(8, 8 * (k - 1));
      MulIs(256, Int(bytes[..k - 1]));
      MulIs(256, Pow2(8 * (k - 1)));
    }
  }

  lemma {:induction false} IntInjective(a: seq<byte>, b: seq<byte>)
    requires |a| == |b| && Int(a) == Int(b)
    ensures a == b
  {
    if a != [] {
      var n := |a| - 1;
      assert a[n] as int == b[n] as int && Int(a[..n]) == Int(b[..n]);
      IntInjective(a[..n], b[..n]);
      assert a == a[..n] + [a[n]] && b == b[..n] + [b[n]];
    }
  }

  function BytesOf(n: nat, k: nat): (b: seq<byte>)
    ensures |b| == k
  {
    if k == 0 then [] else BytesOf(Div(n, 256), k - 1) + [Mod(n, 256) as byte]
  }

  lemma {:induction false} IntOfBytes(n: nat, k: nat)
    requires n < Pow2(8 * k)
    ensures Int(BytesOf(n, k)) == n
  {
    hide Div, Mod, Mul;
    if k > 0 {
      Powers();
      PowAdd(8, 8 * (k - 1));
      DivMod(n, 256);
      MulIs(256, Div(n, 256));
      MulIs(256, Pow2(8 * (k - 1)));
      IntOfBytes(Div(n, 256), k - 1);
      var b := BytesOf(n, k);
      assert b[..k - 1] == BytesOf(Div(n, 256), k - 1);
    }
  }

  /** Every 20 bytes make a well-shaped token, and different bytes make different tokens. */
  lemma TokensAreDistinct(a: seq<byte>, b: seq<byte>)
    requires |a| == TOKEN_BYTES && |b| == TOKEN_BYTES
    ensures IsTokenShaped(Token(a))
    ensures Token(a) == Token(b) ==> a == b
  {
    hide Int, Digits, Pow2;
    IntBound(a);
    IntBound(b);
    assert 8 * TOKEN_BYTES == 5 * TOKEN_LENGTH;
    ValueOfDigits(Int(a), TOKEN_LENGTH);
    ValueOfDigits(Int(b), TOKEN_LENGTH);
    if Token(a) == Token(b) {
      IntInjective(a, b);
    }
  }

  /** Every well-shaped string is the token of some 20 bytes. */
  lemma EveryShapeIsAToken(t: string)
    requires IsTokenShaped(t)
    ensures exists b: seq<byte> :: |b| == TOKEN_BYTES && Token(b) == t
  {
    hide Int, Digits, Pow2;
    DigitsOfValue(t);
    assert 8 * TOKEN_BYTES == 5 * TOKEN_LENGTH;
    IntOfBytes(Value(t), TOKEN_BYTES);
    assert Token(BytesOf(Value(t), TOKEN_BYTES)) == t;
  }

  // ----- the hosted id -----

  const HOSTED_ID_LENGTH := 16

  function HostedId(bytes: seq<byte>): string
  {
    Token(bytes)[..HOSTED_ID_LENGTH]
  }

  lemma {:induction false} DigitsPrefix(n: nat, k: nat, j: nat)
    ensures Digits(n, k + j)[..k] == Digits(Div(n, Pow2(5 * j)), k)
    decreases j
  {
    hide Div, Mod, Mul, Pow2;
    if j == 0 {
      Powers();
      DivOne(n);
      assert Digits(n, k)[..k] == Digits(n, k);
    } else {
      DigitsPrefix(Div(n, 32), k, j - 1);
      Powers();
      PowAdd(5, 5 * (j - 1));
      DivMul(n, 32, Pow2(5 * (j - 1)));
      assert Digits(n, k + j)[..k] == Digits(Div(n, 32), k + j - 1)[..k];
    }
  }

  lemma {:induction false} IntPrefix(a: seq<byte>, b: seq<byte>)
    ensures Div(Int(a + b), Pow2(8 * |b|)) == Int(a)
    decreases |b|
  {
    hide Div, Mod, Mul, Pow2;
    Powers();
    if b == [] {
      assert a + b == a;
      DivOne(Int(a));
    } else {
      var n := |b| - 1;
      var front := a + b[..n];
      assert (a + b)[..|a + b| - 1] == front;
      IntPrefix(a, b[..n]);
      PowAdd(8, 8 * n);
      MulIs(256, Int(front));
      DivUnique(Int(a + b), 256, Int(front), b[n] as int);
      DivMul(Int(a + b), 256, Pow2(8 * n));
    }
  }

  /** Two hosted ids are the same exactly when the first ten of their bytes are: 80 random bits, all of them used. */
  lemma HostedIdIsTenBytes(a: seq<byte>, b: seq<byte>)
    requires |a| == TOKEN_BYTES && |b| == TOKEN_BYTES
    ensures HostedId(a) == HostedId(b) <==> a[..10] == b[..10]
  {
    hide Int, Digits, Pow2, Div;
    HostedIdOf(a);
    HostedIdOf(b);
    IntBound(a[..10]);
    IntBound(b[..10]);
    ValueOfDigits(Int(a[..10]), HOSTED_ID_LENGTH);
    ValueOfDigits(Int(b[..10]), HOSTED_ID_LENGTH);
    if HostedId(a) == HostedId(b) {
      IntInjective(a[..10], b[..10]);
    }
  }

  lemma HostedIdOf(a: seq<byte>)
    requires |a| == TOKEN_BYTES
    ensures HostedId(a) == Digits(Int(a[..10]), HOSTED_ID_LENGTH)
  {
    hide Int, Digits, Pow2, Div;
    DigitsPrefix(Int(a), 16, 16);
    IntPrefix(a[..10], a[10..]);
    assert a == a[..10] + a[10..];
  }

  // ----- the intake address -----

  datatype Recipient = Recipient(base: string, tag: Option<string>, host: string)

  /** `s.lastIndexOf(c)`, with -1 for "not found". */
  function LastIndexOf(s: string, c: char): int {
    if s == "" then -1 else if s[|s| - 1] == c then |s| - 1 else LastIndexOf(s[..|s| - 1], c)
  }

  lemma {:induction false} LastIndexBound(s: string, c: char)
    ensures -1 <= LastIndexOf(s, c) < |s|
  {
    if s != "" {
      LastIndexBound(s[..|s| - 1], c);
    }
  }

  function ParseRecipient(to: string): Option<Recipient> {
    LastIndexBound(to, '@');
    var at := LastIndexOf(to, '@');
    if at <= 0 || at == |to| - 1 then None
    else
      var local, host := Lower(to[..at]), Lower(to[at + 1..]);
      var plus := IndexOf(local, '+');
      if plus == |local| then Some(Recipient(local, None, host))
      else Some(Recipient(local[..plus], Some(local[plus + 1..]), host))
  }

  lemma {:induction false} LastIndexAt(head: string, rest: string)
    requires '@' !in rest
    ensures LastIndexOf(head + "@" + rest, '@') == |head|
  {
    var s := head + "@" + rest;
    if rest != "" {
      var n := |rest| - 1;
      assert s[|s| - 1] == rest[n] && s[..|s| - 1] == head + "@" + rest[..n];
      LastIndexAt(head, rest[..n]);
    }
  }

  lemma {:induction false} LastIndexFolds(s: string)
    ensures LastIndexOf(Lower(s), '@') == LastIndexOf(s, '@')
  {
    if s != "" {
      var n := |s| - 1;
      assert Lower(s)[..n] == Lower(s[..n]) && Lower(s)[n] == LowerChar(s[n]);
      LastIndexFolds(s[..n]);
    }
  }

  /** An address reads the same however a mail system changed its case. */
  lemma CaseDoesNotMatter(to: string)
    ensures ParseRecipient(Lower(to)) == ParseRecipient(to)
  {
    hide LastIndexOf, IndexOf;
    LastIndexFolds(to);
    LastIndexBound(to, '@');
    var at := LastIndexOf(to, '@');
    if 0 < at < |to| - 1 {
      assert Lower(to)[..at] == Lower(to[..at]) && Lower(to)[at + 1..] == Lower(to[at + 1..]);
      LowerIdempotent(to[..at]);
      LowerIdempotent(to[at + 1..]);
    }
  }

  /** An address reads exactly if something stands on both sides of its last at-sign; base and tag are cut at the first plus. */
  lemma ReadsExactly(local: string, host: string)
    requires '@' !in host
    ensures ParseRecipient(local + "@" + host).Some? <==> local != "" && host != ""
    ensures match ParseRecipient(local + "@" + host)
      case None => true
      case Some(r) => r.host == Lower(host) && '+' !in r.base && Lower(local) == r.base + if r.tag.Some? then "+" + r.tag.value else ""
    ensures ParseRecipient(host).None?
  {
    hide LastIndexOf, IndexOf;
    LastIndexAt(local, host);
    var to := local + "@" + host;
    assert to[..|local|] == local && to[|local| + 1..] == host;
    IndexOfFirst(Lower(local), '+');
    if '+' in Lower(local) {
      CutAt(Lower(local), '+');
    }
    NoLastIndex(host);
  }

  lemma {:induction false} NoLastIndex(s: string)
    requires '@' !in s
    ensures LastIndexOf(s, '@') == -1
  {
    if s != "" {
      NoLastIndex(s[..|s| - 1]);
    }
  }

  predicate Kind(kind: string) {
    kind == "rua" || kind == "tls-rpt"
  }

  /**
   * An intake address, in whatever case it comes back, names its kind, its token and its host: the token published in a
   * report address is the one looked up when the report arrives.
   */
  lemma IntakeRoundTrip(kind: string, token: string, intakeDomain: string, to: string)
    requires (kind == "rua" || kind == "tls-rpt") && IsTokenShaped(token) && intakeDomain != "" && '@' !in intakeDomain
    requires Lower(to) == Lower(HostedContent.IntakeAddress(kind, token, intakeDomain))
    ensures ParseRecipient(to) == Some(Recipient(kind, Some(token), Lower(intakeDomain)))
  {
    hide LastIndexOf, IndexOf, ParseRecipient;
    var address := HostedContent.IntakeAddress(kind, token, intakeDomain);
    CaseDoesNotMatter(to);
    CaseDoesNotMatter(address);
    ParsedAddress(kind, token, intakeDomain);
  }

  lemma ParsedAddress(kind: string, token: string, intakeDomain: string)
    requires Kind(kind) && IsTokenShaped(token) && intakeDomain != "" && '@' !in intakeDomain
    ensures ParseRecipient(HostedContent.IntakeAddress(kind, token, intakeDomain)) == Some(Recipient(kind, Some(token), Lower(intakeDomain)))
  {
    hide LastIndexOf, IndexOf;
    var local := kind + "+" + token;
    var address := HostedContent.IntakeAddress(kind, token, intakeDomain);
    assert address == local + "@" + intakeDomain;
    LastIndexAt(local, intakeDomain);
    assert address[..|local|] == local && address[|local| + 1..] == intakeDomain;
    assert IsLower(local);
    LowerOfLower(local);
    IndexOfAt(kind, '+', token);
    assert local == kind + ['+'] + token;
    assert local[..|kind|] == kind && local[|kind| + 1..] == token;
  }
}
