/**
 * Sealing tokens into envelopes and opening them again, across any rotation of the keys. AES-GCM is ideal: what was
 * encrypted decrypts, under the same key, iv and row only, and nothing else decrypts. JSON with UTF-8 undoes itself.
 */
module Sealing {
  import opened Wrappers
  import opened Text
  import opened Base64
  import opened Envelope

  const VERSION := "ia1"

  /** Token material; `refresh` and `expiresAt` are optional. */
  datatype Material = Material(access: string, refresh: Option<string>, expiresAt: Option<int>)

  /** What `JSON.parse` finds under a, r and e, where it has the right type. */
  datatype Parsed = Parsed(a: Option<string>, r: Option<string>, e: Option<int>)

  datatype Platform = Platform(
    encrypt: (seq<byte>, seq<byte>, string, seq<byte>) -> seq<byte>,
    decrypt: (seq<byte>, seq<byte>, string, seq<byte>) -> Option<seq<byte>>,
    toBytes: Material -> seq<byte>,
    fromBytes: seq<byte> -> Option<Parsed>)

  ghost predicate Ideal(p: Platform) {
    (forall k, iv, aad, x :: p.encrypt(k, iv, aad, x) != [] && p.decrypt(k, iv, aad, p.encrypt(k, iv, aad, x)) == Some(x))
    && (forall k, iv, aad, x, k', aad' :: p.decrypt(k', iv, aad', p.encrypt(k, iv, aad, x)).Some? ==> k' == k && aad' == aad)
    && (forall k, iv, aad, c :: p.decrypt(k, iv, aad, c).Some? ==> p.encrypt(k, iv, aad, p.decrypt(k, iv, aad, c).value) == c)
    && forall m :: p.fromBytes(p.toBytes(m)) == Some(Parsed(Some(m.access), m.refresh, m.expiresAt))
  }

  datatype EnvelopeError = Malformed | KeyGone | DoesNotOpen | Corrupt

  /** An empty refresh token is none. */
  function Normal(m: Material): Material {
    m.(refresh := if m.refresh == Some("") then None else m.refresh)
  }

  function Seal(p: Platform, keys: seq<Key>, m: Material, aad: string, iv: seq<byte>): string
    requires keys != []
  {
    VERSION + "." + keys[0].kid + "." + B64url(iv) + "." + B64url(p.encrypt(keys[0].raw, iv, aad, p.toBytes(m)))
  }

  function FindKey(keys: seq<Key>, kid: string): Option<Key> {
    if keys == [] then None else if keys[0].kid == kid then Some(keys[0]) else FindKey(keys[1..], kid)
  }

  function OpenParts(p: Platform, key: Key, ivPart: string, ctPart: string, aad: string): Result<Material, EnvelopeError> {
    match (Unb64url(ivPart), Unb64url(ctPart))
    case (Some(iv), Some(ct)) =>
      (match p.decrypt(key.raw, iv, aad, ct)
      case None => Err(DoesNotOpen)
      case Some(plain) =>
        (match p.fromBytes(plain)
        case None => Err(Corrupt)
        case Some(parsed) =>
          if parsed.a.None? || parsed.a.value == "" then Err(Corrupt)
          else Ok(Normal(Material(parsed.a.value, parsed.r, parsed.e)))))
    case _ => Err(DoesNotOpen)
  }

  function Open(p: Platform, keys: seq<Key>, envelope: string, aad: string): Result<Material, EnvelopeError> {
    var parts := Split(envelope, '.');
    if |parts| != 4 || parts[0] != VERSION || parts[1] == "" || parts[2] == "" || parts[3] == "" then Err(Malformed)
    else match FindKey(keys, parts[1])
      case None => Err(KeyGone)
      case Some(key) => OpenParts(p, key, parts[2], parts[3], aad)
  }

  predicate IsCurrent(keys: seq<Key>, envelope: string)
    requires keys != []
  {
    var parts := Split(envelope, '.');
    |parts| >= 2 && parts[1] == keys[0].kid
  }

  /** Open, then seal under the current key. */
  function Reseal(p: Platform, keys: seq<Key>, envelope: string, aad: string, iv: seq<byte>): Result<string, EnvelopeError>
    requires keys != []
  {
    match Open(p, keys, envelope, aad)
    case Err(e) => Err(e)
    case Ok(m) => Ok(Seal(p, keys, m, aad, iv))
  }

  // ----- the parts of an envelope -----

  lemma SealedParts(p: Platform, keys: seq<Key>, m: Material, aad: string, iv: seq<byte>)
    requires KeysOk(keys)
    ensures Split(Seal(p, keys, m, aad, iv), '.')
      == ["ia1", keys[0].kid, B64url(iv), B64url(p.encrypt(keys[0].raw, iv, aad, p.toBytes(m)))]
  {
    hide B64url, Split, Join;
    var ct := p.encrypt(keys[0].raw, iv, aad, p.toBytes(m));
    var parts := [VERSION, keys[0].kid, B64url(iv), B64url(ct)];
    KidText(keys[0].kid);
    UrlText(iv);
    UrlText(ct);
    assert '.' !in VERSION;
    FourJoined(VERSION, keys[0].kid, B64url(iv), B64url(ct));
    SplitOfJoin(parts, '.');
  }

  lemma FourJoined(a: string, b: string, c: string, d: string)
    ensures Join([a, b, c, d], ".") == a + "." + b + "." + c + "." + d
  {
    hide Join;
    assert [a, b, c, d] == [a] + [b, c, d] && [b, c, d] == [b] + [c, d] && [c, d] == [c] + [d];
    JoinCons(a, [b, c, d], ".");
    JoinCons(b, [c, d], ".");
    JoinCons(c, [d], ".");
    JoinOne(d, ".");
    assert a + "." + (b + "." + (c + "." + d)) == a + "." + b + "." + c + "." + d;
  }

  lemma OpenOfSealed(p: Platform, sealing: seq<Key>, keys: seq<Key>, m: Material, aad: string, iv: seq<byte>, at: string)
    requires KeysOk(sealing) && iv != [] && Ideal(p)
    ensures Open(p, keys, Seal(p, sealing, m, aad, iv), at) ==
      match FindKey(keys, sealing[0].kid)
      case None => Err(KeyGone)
      case Some(key) =>
        OpenParts(p, key, B64url(iv), B64url(p.encrypt(sealing[0].raw, iv, aad, p.toBytes(m))), at)
  {
    hide B64url, Split, OpenParts, Seal;
    var ct := p.encrypt(sealing[0].raw, iv, aad, p.toBytes(m));
    SealedParts(p, sealing, m, aad, iv);
    UrlText(iv);
    UrlText(ct);
    assert IsKid(sealing[0].kid);
  }

  /** Four texts without a dot, none empty, the first "ia1", with dots between them. */
  ghost predicate IsEnvelope(envelope: string, a: string, b: string, c: string, d: string) {
    envelope == a + "." + b + "." + c + "." + d && a == "ia1" && b != "" && c != "" && d != ""
    && '.' !in b && '.' !in c && '.' !in d
  }

  /** An envelope is malformed exactly when it is not four such texts. */
  lemma MalformedExactly(p: Platform, keys: seq<Key>, envelope: string, aad: string)
    ensures Open(p, keys, envelope, aad) == Err(Malformed) <==> !exists a, b, c, d :: IsEnvelope(envelope, a, b, c, d)
  {
    hide Split, Join, OpenParts, FindKey;
    var parts := Split(envelope, '.');
    SplitParts(envelope, '.');
    JoinOfSplit(envelope, '.');
    assert OpenParts(p, Key("", []), "", "", aad) != Err(Malformed) by { OpensOrNot(p, Key("", []), "", "", aad); }
    if |parts| == 4 {
      FourJoined(parts[0], parts[1], parts[2], parts[3]);
      assert parts == [parts[0], parts[1], parts[2], parts[3]];
      if parts[0] == VERSION && parts[1] != "" && parts[2] != "" && parts[3] != "" {
        assert IsEnvelope(envelope, parts[0], parts[1], parts[2], parts[3]);
        if FindKey(keys, parts[1]).Some? {
          OpensOrNot(p, FindKey(keys, parts[1]).value, parts[2], parts[3], aad);
        }
      }
    }
    if a, b, c, d :| IsEnvelope(envelope, a, b, c, d) {
      FourJoined(a, b, c, d);
      SplitOfJoin([a, b, c, d], '.');
    }
  }

  lemma OpensOrNot(p: Platform, key: Key, ivPart: string, ctPart: string, aad: string)
    ensures OpenParts(p, key, ivPart, ctPart, aad) != Err(Malformed)
  {
  }

  // ----- opening what was sealed -----

  /** The key list still has the sealing key under its id. */
  predicate Retains(keys: seq<Key>, sealing: seq<Key>)
    requires sealing != []
  {
    FindKey(keys, sealing[0].kid) == Some(sealing[0])
  }

  /**
   * Material sealed under any list opens under any list that retains the sealing key, for the same row: unchanged, but
   * for an empty refresh token. Material without an access token never opens.
   */
  lemma OpensUnderRetainedKey(p: Platform, sealing: seq<Key>, keys: seq<Key>, m: Material, aad: string, iv: seq<byte>)
    requires Ideal(p) && KeysOk(sealing) && Retains(keys, sealing) && iv != []
    ensures Open(p, keys, Seal(p, sealing, m, aad, iv), aad)
      == if m.access == "" then Err(Corrupt) else Ok(Material(m.access, if m.refresh == Some("") then None else m.refresh, m.expiresAt))
  {
    hide B64url, Unb64url, Seal, Open;
    OpenOfSealed(p, sealing, keys, m, aad, iv, aad);
    RoundTrip(iv);
    RoundTrip(p.encrypt(sealing[0].raw, iv, aad, p.toBytes(m)));
  }

  /** An envelope opens for no other row, and under no other key that has taken the id. */
  lemma OpensForItsRowOnly(p: Platform, sealing: seq<Key>, keys: seq<Key>, m: Material, aad: string, iv: seq<byte>, at: string)
    requires Ideal(p) && KeysOk(sealing) && iv != []
    ensures Open(p, keys, Seal(p, sealing, m, aad, iv), at).Ok? ==>
      at == aad && FindKey(keys, sealing[0].kid).Some? && FindKey(keys, sealing[0].kid).value.raw == sealing[0].raw
  {
    hide B64url, Unb64url, Seal, Open;
    OpenOfSealed(p, sealing, keys, m, aad, iv, at);
    RoundTrip(iv);
    RoundTrip(p.encrypt(sealing[0].raw, iv, aad, p.toBytes(m)));
  }

  lemma SealedIsCurrent(p: Platform, keys: seq<Key>, m: Material, aad: string, iv: seq<byte>)
    requires KeysOk(keys)
    ensures IsCurrent(keys, Seal(p, keys, m, aad, iv))
  {
    hide Split, Seal;
    SealedParts(p, keys, m, aad, iv);
  }

  /** An envelope is current exactly under lists whose first key has the id it was sealed with. */
  lemma CurrentExactly(p: Platform, sealing: seq<Key>, keys: seq<Key>, m: Material, aad: string, iv: seq<byte>)
    requires KeysOk(sealing) && keys != []
    ensures IsCurrent(keys, Seal(p, sealing, m, aad, iv)) <==> keys[0].kid == sealing[0].kid
  {
    hide Split, Seal;
    SealedParts(p, sealing, m, aad, iv);
  }

  lemma {:induction false} FoundHasKid(keys: seq<Key>, kid: string)
    requires FindKey(keys, kid).Some?
    ensures FindKey(keys, kid).value.kid == kid
  {
    if keys[0].kid != kid {
      FoundHasKid(keys[1..], kid);
    }
  }

  lemma FirstIsFound(keys: seq<Key>)
    requires keys != []
    ensures FindKey(keys, keys[0].kid) == Some(keys[0])
  {
  }

  // ----- rotation -----

  /** What happens to a stored envelope: the secret is changed, or the envelope is used (and re-sealed when not current). */
  datatype Event = SetKeys(keys: seq<Key>) | Use(iv: seq<byte>)

  datatype Stored = Stored(keys: seq<Key>, envelope: string)

  function Next(p: Platform, s: Stored, e: Event, aad: string): Stored
    requires s.keys != []
  {
    match e
    case SetKeys(keys) => if keys == [] then s else s.(keys := keys)
    case Use(iv) =>
      if IsCurrent(s.keys, s.envelope) then s
      else match Reseal(p, s.keys, s.envelope, aad, iv) case Ok(r) => s.(envelope := r) case Err(_) => s
  }

  /** A change of the secret keeps, under its id, the key the envelope is sealed with at that time. */
  predicate KeepsKey(s: Stored, e: Event) {
    match e
    case SetKeys(keys) => KeysOk(keys) && FindKey(keys, SealedBy(s.envelope)) == FindKey(s.keys, SealedBy(s.envelope))
    case Use(iv) => iv != []
  }

  ghost predicate AlwaysKeepsKey(p: Platform, s: Stored, events: seq<Event>, aad: string)
    requires s.keys != []
    decreases |events|
  {
    events != [] ==> KeepsKey(s, events[0]) && AlwaysKeepsKey(p, Next(p, s, events[0], aad), events[1..], aad)
  }

  /** The key id an envelope carries. */
  function SealedBy(envelope: string): string {
    var parts := Split(envelope, '.');
    if |parts| >= 2 then parts[1] else ""
  }

  function After(p: Platform, s: Stored, events: seq<Event>, aad: string): (t: Stored)
    requires s.keys != []
    ensures t.keys != []
    decreases |events|
  {
    if events == [] then s else After(p, Next(p, s, events[0], aad), events[1..], aad)
  }

  /** The envelope holds `m`, sealed under a key the list still has. */
  ghost predicate Holds(p: Platform, s: Stored, m: Material, aad: string) {
    KeysOk(s.keys)
    && exists sealing, iv :: KeysOk(sealing) && iv != [] && Retains(s.keys, sealing) && s.envelope == Seal(p, sealing, m, aad, iv)
  }

  /** An envelope just sealed holds its material. */
  lemma SealedHolds(p: Platform, keys: seq<Key>, m: Material, aad: string, iv: seq<byte>)
    requires KeysOk(keys) && iv != []
    ensures Holds(p, Stored(keys, Seal(p, keys, m, aad, iv)), m, aad)
  {
    hide Seal, FindKey;
    FirstIsFound(keys);
    assert Retains(keys, keys);
  }

  lemma SealedByKid(p: Platform, sealing: seq<Key>, m: Material, aad: string, iv: seq<byte>)
    requires KeysOk(sealing)
    ensures SealedBy(Seal(p, sealing, m, aad, iv)) == sealing[0].kid
  {
    hide Split, Seal;
    SealedParts(p, sealing, m, aad, iv);
  }

  lemma HoldsNext(p: Platform, s: Stored, e: Event, m: Material, aad: string)
    requires Ideal(p) && Holds(p, s, m, aad) && m.access != "" && Normal(m) == m
    requires KeepsKey(s, e)
    ensures Holds(p, Next(p, s, e, aad), m, aad)
  {
    hide Seal, Open, IsCurrent, IsKid, FindKey, SealedBy;
    var sealing, iv :| KeysOk(sealing) && iv != [] && Retains(s.keys, sealing) && s.envelope == Seal(p, sealing, m, aad, iv);
    SealedByKid(p, sealing, m, aad, iv);
    match e
    case SetKeys(keys) => NotEmpty(keys);
    case Use(newIv) =>
      NotEmpty(s.keys);
      OpensUnderRetainedKey(p, sealing, s.keys, m, aad, iv);
      FirstIsFound(s.keys);
  }

  lemma NotEmpty(keys: seq<Key>)
    requires KeysOk(keys)
    ensures keys != []
  {
  }

  /** Through any sequence of key changes that keep the sealing key, and any uses, the row opens to what was sealed. */
  lemma {:induction false} SurvivesRotation(p: Platform, s: Stored, events: seq<Event>, m: Material, aad: string)
    requires Ideal(p) && Holds(p, s, m, aad) && m.access != "" && Normal(m) == m && AlwaysKeepsKey(p, s, events, aad)
    ensures var t := After(p, s, events, aad); Holds(p, t, m, aad) && Open(p, t.keys, t.envelope, aad) == Ok(m)
    decreases |events|
  {
    hide Seal, Open, Next, IsKid;
    if events == [] {
      var sealing, iv :| KeysOk(sealing) && iv != [] && Retains(s.keys, sealing) && s.envelope == Seal(p, sealing, m, aad, iv);
      OpensUnderRetainedKey(p, sealing, s.keys, m, aad, iv);
    } else {
      HoldsNext(p, s, events[0], m, aad);
      SurvivesRotation(p, Next(p, s, events[0], aad), events[1..], m, aad);
    }
  }

  /**
   * How keys are rotated: put a new key first and keep the old one, let the envelope be used once, and the old key can go.
   * The row then opens under every list that has the new key, whatever has become of the old one.
   */
  lemma RotationFreesOldKey(p: Platform, s: Stored, keys: seq<Key>, iv: seq<byte>, later: seq<Key>, m: Material, aad: string)
    requires Ideal(p) && Holds(p, s, m, aad) && m.access != "" && Normal(m) == m && iv != []
    requires KeysOk(keys) && FindKey(keys, SealedBy(s.envelope)) == FindKey(s.keys, SealedBy(s.envelope)) && keys[0].kid != SealedBy(s.envelope)
    requires Retains(later, keys)
    ensures var t := Next(p, Next(p, s, SetKeys(keys), aad), Use(iv), aad);
      t.keys == keys && Open(p, later, t.envelope, aad) == Ok(m)
  {
    hide Seal, Open, IsCurrent, IsKid, FindKey;
    var s1 := Next(p, s, SetKeys(keys), aad);
    HoldsNext(p, s, SetKeys(keys), m, aad);
    var sealing, was :| KeysOk(sealing) && was != [] && Retains(s1.keys, sealing) && s1.envelope == Seal(p, sealing, m, aad, was);
    SealedByKid(p, sealing, m, aad, was);
    CurrentExactly(p, sealing, keys, m, aad, was);
    OpensUnderRetainedKey(p, sealing, keys, m, aad, was);
    OpensUnderRetainedKey(p, keys, later, m, aad, iv);
  }

  /** Re-sealing keeps the material and leaves the envelope under the current key. */
  lemma ResealKeeps(p: Platform, sealing: seq<Key>, keys: seq<Key>, m: Material, aad: string, iv: seq<byte>, newIv: seq<byte>)
    requires Ideal(p) && KeysOk(sealing) && KeysOk(keys) && Retains(keys, sealing) && iv != [] && newIv != [] && m.access != ""
    ensures var r := Reseal(p, keys, Seal(p, sealing, m, aad, iv), aad, newIv);
      r.Ok? && IsCurrent(keys, r.value) && Open(p, keys, r.value, aad) == Ok(Normal(m))
  {
    hide Seal, Open, IsCurrent, FindKey;
    OpensUnderRetainedKey(p, sealing, keys, m, aad, iv);
    FirstIsFound(keys);
    OpensUnderRetainedKey(p, keys, keys, Normal(m), aad, newIv);
    SealedIsCurrent(p, keys, Normal(m), aad, newIv);
  }
}
