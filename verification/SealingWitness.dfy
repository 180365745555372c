/**
 * The ideal platform of `Sealing` can be had: a written-out encoding of key, row and plain text meets every one of its
 * conditions. (It hides nothing; what is claimed of sealing does not depend on that.)
 */
module SealingWitness {
  import opened Wrappers
  import opened Base64
  import opened Sealing

  /** A number as that many ones and a zero, one number after another. */
  function Unary(n: nat): seq<byte> {
    if n == 0 then [0] else [1] + Unary(n - 1)
  }

  function Written(ns: seq<nat>): seq<byte> {
    if ns == [] then [] else Unary(ns[0]) + Written(ns[1..])
  }

  lemma {:induction false} UnaryCuts(m: nat, n: nat, x: seq<byte>, y: seq<byte>)
    requires Unary(m) + x == Unary(n) + y
    ensures m == n && x == y
  {
    var s, t := Unary(m) + x, Unary(n) + y;
    assert s[0] == Unary(m)[0] && t[0] == Unary(n)[0];
    if m > 0 && n > 0 {
      assert s[1..] == Unary(m - 1) + x && t[1..] == Unary(n - 1) + y;
      UnaryCuts(m - 1, n - 1, x, y);
    } else {
      assert m == n;
      assert s[1..] == x && t[1..] == y;
    }
  }

  lemma {:induction false} WrittenInjective(ms: seq<nat>, ns: seq<nat>)
    requires Written(ms) == Written(ns)
    ensures ms == ns
  {
    hide Unary;
    if ms != [] && ns != [] {
      UnaryCuts(ms[0], ns[0], Written(ms[1..]), Written(ns[1..]));
      WrittenInjective(ms[1..], ns[1..]);
      assert ms == [ms[0]] + ms[1..] && ns == [ns[0]] + ns[1..];
    } else if ms != [] {
      UnaryNotEmpty(ms[0]);
    } else if ns != [] {
      UnaryNotEmpty(ns[0]);
    }
  }

  lemma UnaryNotEmpty(n: nat)
    ensures |Unary(n)| > 0
  {
  }

  function Codes(s: string): seq<nat> {
    seq(|s|, i requires 0 <= i < |s| => s[i] as nat)
  }

  function Numbers(s: seq<byte>): seq<nat> {
    seq(|s|, i requires 0 <= i < |s| => s[i] as nat)
  }

  lemma CodesInjective(s: string, t: string)
    requires Codes(s) == Codes(t)
    ensures s == t
  {
    assert |Codes(s)| == |Codes(t)|;
    forall i | 0 <= i < |s| ensures s[i] == t[i] {
      assert Codes(s)[i] == Codes(t)[i];
    }
  }

  lemma NumbersInjective(s: seq<byte>, t: seq<byte>)
    requires Numbers(s) == Numbers(t)
    ensures s == t
  {
    assert |Numbers(s)| == |Numbers(t)|;
    forall i | 0 <= i < |s| ensures s[i] == t[i] {
      assert Numbers(s)[i] == Numbers(t)[i];
    }
  }

  /** A sequence with its length in front. */
  function Counted(ns: seq<nat>): seq<nat> {
    [|ns|] + ns
  }

  lemma CountedCuts(a: seq<nat>, b: seq<nat>, x: seq<nat>, y: seq<nat>)
    requires Counted(a) + x == Counted(b) + y
    ensures a == b && x == y
  {
    var s, t := Counted(a) + x, Counted(b) + y;
    assert s[0] == |a| && t[0] == |b|;
    assert s[1..][..|a|] == a && t[1..][..|b|] == b;
    assert s[1 + |a|..] == x && t[1 + |b|..] == y;
  }

  // ----- the cipher -----

  function Encrypt(k: seq<byte>, aad: string, plain: seq<byte>): seq<byte> {
    Written(Counted(Numbers(k)) + (Counted(Codes(aad)) + Numbers(plain)))
  }

  lemma EncryptInjective(k: seq<byte>, aad: string, plain: seq<byte>, k': seq<byte>, aad': string, plain': seq<byte>)
    requires Encrypt(k, aad, plain) == Encrypt(k', aad', plain')
    ensures k == k' && aad == aad' && plain == plain'
  {
    hide Written, Numbers, Codes, Counted;
    var x, y := Counted(Codes(aad)) + Numbers(plain), Counted(Codes(aad')) + Numbers(plain');
    WrittenInjective(Counted(Numbers(k)) + x, Counted(Numbers(k')) + y);
    CountedCuts(Numbers(k), Numbers(k'), x, y);
    CountedCuts(Codes(aad), Codes(aad'), Numbers(plain), Numbers(plain'));
    NumbersInjective(k, k');
    CodesInjective(aad, aad');
    NumbersInjective(plain, plain');
  }

  lemma EncryptNotEmpty(k: seq<byte>, aad: string, plain: seq<byte>)
    ensures Encrypt(k, aad, plain) != []
  {
    UnaryNotEmpty(|k|);
    var ns := Counted(Numbers(k)) + (Counted(Codes(aad)) + Numbers(plain));
    assert ns[0] == |k|;
  }

  ghost predicate Encrypted(k: seq<byte>, aad: string, plain: seq<byte>, c: seq<byte>) {
    Encrypt(k, aad, plain) == c
  }

  ghost function Decrypt(k: seq<byte>, aad: string, c: seq<byte>): Option<seq<byte>> {
    if plain :| Encrypted(k, aad, plain, c) then Some(plain) else None
  }

  // ----- the plain text -----

  function Optional(r: Option<string>): seq<nat> {
    match r
    case None => [0]
    case Some(text) => [1] + Counted(Codes(text))
  }

  function Expiry(e: Option<int>): seq<nat> {
    match e
    case None => []
    case Some(v) => if v >= 0 then [0, v] else [1, -v]
  }

  function ToBytes(m: Material): seq<byte> {
    Written(Counted(Codes(m.access)) + (Optional(m.refresh) + Expiry(m.expiresAt)))
  }

  lemma OptionalCuts(a: Option<string>, b: Option<string>, x: seq<nat>, y: seq<nat>)
    requires Optional(a) + x == Optional(b) + y
    ensures a == b && x == y
  {
    hide Codes, Counted;
    var s, t := Optional(a) + x, Optional(b) + y;
    assert s[0] == Optional(a)[0] && t[0] == Optional(b)[0];
    if a.Some? {
      assert s[1..] == Counted(Codes(a.value)) + x && t[1..] == Counted(Codes(b.value)) + y;
      CountedCuts(Codes(a.value), Codes(b.value), x, y);
      CodesInjective(a.value, b.value);
    } else {
      assert s[1..] == x && t[1..] == y;
    }
  }

  lemma ToBytesInjective(m: Material, n: Material)
    requires ToBytes(m) == ToBytes(n)
    ensures m == n
  {
    hide Written, Codes, Counted, Optional;
    var x, y := Optional(m.refresh) + Expiry(m.expiresAt), Optional(n.refresh) + Expiry(n.expiresAt);
    WrittenInjective(Counted(Codes(m.access)) + x, Counted(Codes(n.access)) + y);
    CountedCuts(Codes(m.access), Codes(n.access), x, y);
    CodesInjective(m.access, n.access);
    OptionalCuts(m.refresh, n.refresh, Expiry(m.expiresAt), Expiry(n.expiresAt));
    ExpiryInjective(m.expiresAt, n.expiresAt);
  }

  lemma ExpiryInjective(a: Option<int>, b: Option<int>)
    requires Expiry(a) == Expiry(b)
    ensures a == b
  {
    var s, t := Expiry(a), Expiry(b);
    assert |s| == |t|;
    if a.Some? && b.Some? {
      assert s[0] == t[0] && s[1] == t[1];
    }
  }

  ghost predicate Printed(m: Material, bytes: seq<byte>) {
    ToBytes(m) == bytes
  }

  ghost function FromBytes(bytes: seq<byte>): Option<Parsed> {
    if m :| Printed(m, bytes) then Some(Parsed(Some(m.access), m.refresh, m.expiresAt)) else None
  }

  ghost function WrittenOut(): Platform {
    Platform(
      (k, iv, aad, plain) => Encrypt(k, aad, plain),
      (k, iv, aad, c) => Decrypt(k, aad, c),
      m => ToBytes(m),
      bytes => FromBytes(bytes))
  }

  /** There is an ideal platform. */
  lemma IdealExists()
    ensures Ideal(WrittenOut())
  {
    hide Encrypt, ToBytes;
    var p := WrittenOut();
    forall k: seq<byte>, aad: string, x: seq<byte>, k': seq<byte>, aad': string
      ensures Encrypt(k, aad, x) != [] && Decrypt(k, aad, Encrypt(k, aad, x)) == Some(x)
      ensures Decrypt(k', aad', Encrypt(k, aad, x)).Some? ==> k' == k && aad' == aad {
      DecryptIs(k, aad, x, k', aad');
    }
    forall m: Material ensures FromBytes(ToBytes(m)) == Some(Parsed(Some(m.access), m.refresh, m.expiresAt)) {
      FromBytesIs(m);
    }
  }

  lemma DecryptIs(k: seq<byte>, aad: string, x: seq<byte>, k': seq<byte>, aad': string)
    ensures Encrypt(k, aad, x) != [] && Decrypt(k, aad, Encrypt(k, aad, x)) == Some(x)
    ensures Decrypt(k', aad', Encrypt(k, aad, x)).Some? ==> k' == k && aad' == aad
  {
    hide Encrypt;
    var c := Encrypt(k, aad, x);
    EncryptNotEmpty(k, aad, x);
    assert Encrypted(k, aad, x, c);
    EncryptInjective(k, aad, Decrypt(k, aad, c).value, k, aad, x);
    if y :| Encrypted(k', aad', y, c) {
      EncryptInjective(k', aad', y, k, aad, x);
    }
  }

  lemma FromBytesIs(m: Material)
    ensures FromBytes(ToBytes(m)) == Some(Parsed(Some(m.access), m.refresh, m.expiresAt))
  {
    hide ToBytes;
    assert Printed(m, ToBytes(m));
    forall n: Material | Printed(n, ToBytes(m)) ensures n == m {
      ToBytesInjective(n, m);
    }
  }
}
