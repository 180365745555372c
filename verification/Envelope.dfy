/**
 * The list of encryption keys as the deployment's secret writes it: one bare key, or entries `<key id>:<base64>` with
 * the current key first.
 */
module Envelope {
  import opened Wrappers
  import opened Text
  import opened Base64

  // ----- keys -----

  datatype Key = Key(kid: string, raw: seq<byte>)

  datatype KeyError = NotSet | NeedsIds | BadId | NotBase64 | NotThirtyTwoBytes | DuplicateId | Empty

  const DEFAULT_KID := "k1"

  predicate KidChar(c: char) {
    'A' <= c <= 'Z' || 'a' <= c <= 'z' || '0' <= c <= '9' || c == '_' || c == '-'
  }

  predicate IsKid(s: string) {
    1 <= |s| <= 32 && forall i :: 0 <= i < |s| ==> KidChar(s[i])
  }

  const UPPER: string := "ABCDEFGHIJKLMNOPQRSTUVWXYZ"
  const LOWER: string := "abcdefghijklmnopqrstuvwxyz"
  const DIGITS: string := "0123456789"
  const KID_CHARS: string := UPPER + LOWER + DIGITS + "_-"

  lemma KidChars(c: char)
    ensures KidChar(c) <==> c in KID_CHARS
  {
    hide UPPER, LOWER, DIGITS;
    UpperChars(c);
    LowerChars(c);
    DigitChars(c);
    assert c in "_-" <==> c == '_' || c == '-';
  }

  lemma UpperChars(c: char)
    ensures c in UPPER <==> 'A' <= c <= 'Z'
  {
    if 'A' <= c <= 'Z' {
      assert UPPER[c as int - 65] == c;
    }
  }

  lemma LowerChars(c: char)
    ensures c in LOWER <==> 'a' <= c <= 'z'
  {
    if 'a' <= c <= 'z' {
      assert LOWER[c as int - 97] == c;
    }
  }

  lemma DigitChars(c: char)
    ensures c in DIGITS <==> '0' <= c <= '9'
  {
    if '0' <= c <= '9' {
      assert DIGITS[c as int - 48] == c;
    }
  }

  /** An entry is refused for its key id exactly when that is not 1 to 32 of these characters. */
  lemma BadIdExactly(kid: string, b64: string)
    requires kid != "" && ':' !in kid
    ensures ParseKey(kid + ":" + b64) == Err(BadId) <==> |kid| > 32 || exists c :: c in kid && c !in KID_CHARS
  {
    hide Unb64url, StripPadding, KID_CHARS;
    IndexOfAt(kid, ':', b64);
    var e := kid + ":" + b64;
    assert e == kid + [':'] + b64 && e[..|kid|] == kid;
    forall c: char ensures KidChar(c) <==> c in KID_CHARS {
      KidChars(c);
    }
    assert forall i :: 0 <= i < |kid| ==> kid[i] in kid;
  }

  function Entries(parts: seq<string>): seq<string> {
    if parts == [] then [] else (if Trim(parts[0]) == "" then [] else [Trim(parts[0])]) + Entries(parts[1..])
  }

  predicate Named(entry: string) {
    0 < IndexOf(entry, ':') < |entry|
  }

  /** One entry; the key id is what stands before the first colon, unless the colon comes first. */
  function ParseKey(entry: string): Result<Key, KeyError> {
    var i := IndexOf(entry, ':');
    var kid := if Named(entry) then entry[..i] else DEFAULT_KID;
    var b64 := if Named(entry) then entry[i + 1..] else entry;
    if !IsKid(kid) then Err(BadId)
    else match Unb64url(StripPadding(b64))
      case None => Err(NotBase64)
      case Some(raw) => if |raw| != 32 then Err(NotThirtyTwoBytes) else Ok(Key(kid, raw))
  }

  /** An entry that starts with a colon names no key id; all of it is taken for a bare key, and is none. */
  lemma ColonFirst(entry: string)
    requires entry != "" && entry[0] == ':'
    ensures ParseKey(entry) == Err(NotBase64)
  {
    hide Unb64url, StripPadding;
    ColonStays(entry);
    NoColon(StripPadding(entry));
    assert IsKid(DEFAULT_KID);
  }

  lemma {:induction false} ColonStays(s: string)
    requires s != "" && s[0] == ':'
    ensures ':' in StripPadding(s)
  {
    if s[|s| - 1] == '=' {
      ColonStays(s[..|s| - 1]);
    } else {
      assert s[0] in s;
    }
  }

  predicate HasKid(keys: seq<Key>, kid: string) {
    exists i :: 0 <= i < |keys| && keys[i].kid == kid
  }

  /** Keys read one after another onto `keys`. */
  function ReadKeys(entries: seq<string>, keys: seq<Key>): Result<seq<Key>, KeyError>
    decreases |entries|
  {
    if entries == [] then Ok(keys)
    else match ParseKey(entries[0])
      case Err(e) => Err(e)
      case Ok(key) => if HasKid(keys, key.kid) then Err(DuplicateId) else ReadKeys(entries[1..], keys + [key])
  }

  function ParsedKeys(spec: Option<string>): Result<seq<Key>, KeyError> {
    if spec.None? || Trim(spec.value) == "" then Err(NotSet)
    else
      var entries := Entries(Split(Trim(spec.value), ','));
      if |entries| > 1 && exists i :: 0 <= i < |entries| && !Named(entries[i]) then Err(NeedsIds)
      else match ReadKeys(entries, [])
        case Err(e) => Err(e)
        case Ok(keys) => if keys == [] then Err(Empty) else Ok(keys)
  }

  method ParseKeys(spec: Option<string>) returns (r: Result<seq<Key>, KeyError>)
    ensures r == ParsedKeys(spec)
  {
    hide ParseKey, Named, Entries;
    if spec.None? || Trim(spec.value) == "" {
      return Err(NotSet);
    }
    var entries := Entries(Split(Trim(spec.value), ','));
    if |entries| > 1 && exists i :: 0 <= i < |entries| && !Named(entries[i]) {
      return Err(NeedsIds);
    }
    var keys: seq<Key> := [];
    for n := 0 to |entries|
      invariant ReadKeys(entries, []) == ReadKeys(entries[n..], keys)
    {
      var key := ParseKey(entries[n]);
      if key.Err? {
        return Err(key.error);
      }
      if HasKid(keys, key.value.kid) {
        return Err(DuplicateId);
      }
      keys := keys + [key.value];
    }
    if keys == [] {
      return Err(Empty);
    }
    r := Ok(keys);
  }

  /** A key list as the parser guarantees it. */
  predicate KeysOk(keys: seq<Key>) {
    keys != [] && (forall i :: 0 <= i < |keys| ==> IsKid(keys[i].kid) && |keys[i].raw| == 32)
    && forall i, j :: 0 <= i < j < |keys| ==> keys[i].kid != keys[j].kid
  }

  lemma ParsedKeyOk(entry: string)
    requires ParseKey(entry).Ok?
    ensures IsKid(ParseKey(entry).value.kid) && |ParseKey(entry).value.raw| == 32
  {
  }

  lemma KeyAdded(keys: seq<Key>, key: Key)
    requires (keys == [] || KeysOk(keys)) && IsKid(key.kid) && |key.raw| == 32 && !HasKid(keys, key.kid)
    ensures KeysOk(keys + [key])
  {
    hide IsKid;
    var all := keys + [key];
    forall i, j | 0 <= i < j < |all| ensures all[i].kid != all[j].kid {
      assert j == |keys| ==> keys[i].kid != key.kid;
    }
  }

  lemma {:induction false} ReadKeysOk(entries: seq<string>, keys: seq<Key>)
    requires keys == [] || KeysOk(keys)
    ensures var r := ReadKeys(entries, keys); r.Ok? ==> r.value == [] || KeysOk(r.value)
    decreases |entries|
  {
    hide IsKid, ParseKey, KeysOk, HasKid;
    if entries != [] && ParseKey(entries[0]).Ok? {
      var key := ParseKey(entries[0]).value;
      ParsedKeyOk(entries[0]);
      if !HasKid(keys, key.kid) {
        KeyAdded(keys, key);
        ReadKeysOk(entries[1..], keys + [key]);
      }
    }
  }

  /** Parsed keys are not empty, 32 bytes each, and no id names two of them. */
  lemma ParsedKeysAreOk(spec: Option<string>)
    requires ParsedKeys(spec).Ok?
    ensures KeysOk(ParsedKeys(spec).value)
  {
    hide ReadKeys, Entries;
    ReadKeysOk(Entries(Split(Trim(spec.value), ',')), []);
  }

  /** The secret that lists the keys, each with its id, in standard base64. */
  function Rendered(keys: seq<Key>): seq<string> {
    seq(|keys|, i requires 0 <= i < |keys| => keys[i].kid + ":" + Btoa(keys[i].raw))
  }

  lemma StandardText(b: seq<byte>)
    ensures forall i :: 0 <= i < |Btoa(b)| ==> Btoa(b)[i] != ',' && Btoa(b)[i] != ':' && !IsSpace(Btoa(b)[i])
    ensures Btoa(b) == "" <==> b == []
  {
    hide Btoa;
    BtoaIsPadded(b);
    PlainDecodes(b);
    SextetsAreText(Plain(b));
  }

  lemma SextetsAreText(s: string)
    requires InAlphabet(s)
    ensures forall i :: 0 <= i < |s| ==> s[i] != ',' && s[i] != ':' && !IsSpace(s[i])
  {
  }

  lemma KidText(kid: string)
    requires IsKid(kid)
    ensures forall i :: 0 <= i < |kid| ==> kid[i] != ',' && kid[i] != ':' && !IsSpace(kid[i]) && kid[i] != '.'
  {
  }

  lemma RenderedEntry(key: Key)
    requires IsKid(key.kid) && |key.raw| == 32
    ensures var e := key.kid + ":" + Btoa(key.raw);
      Trimmed(e) && e != "" && ',' !in e && Named(e) && ParseKey(e) == Ok(key)
  {
    hide Btoa, Unb64url, StripPadding, IndexOf;
    var e := key.kid + ":" + Btoa(key.raw);
    StandardText(key.raw);
    KidText(key.kid);
    IndexOfAt(key.kid, ':', Btoa(key.raw));
    assert e == key.kid + [':'] + Btoa(key.raw);
    assert e[..|key.kid|] == key.kid && e[|key.kid| + 1..] == Btoa(key.raw);
    StandardReads(key.raw);
  }

  lemma {:induction false} EntriesSame(parts: seq<string>)
    requires forall i :: 0 <= i < |parts| ==> Trimmed(parts[i]) && parts[i] != ""
    ensures Entries(parts) == parts
  {
    hide Trim, Trimmed;
    if parts != [] {
      TrimOfTrimmed(parts[0]);
      EntriesSame(parts[1..]);
    }
  }

  lemma {:induction false} ReadRendered(keys: seq<Key>, done: nat)
    requires KeysOk(keys) && done <= |keys|
    ensures ReadKeys(Rendered(keys)[done..], keys[..done]) == Ok(keys)
    decreases |keys| - done
  {
    hide ParseKey, IsKid;
    var rest := Rendered(keys)[done..];
    if done == |keys| {
      assert keys[..done] == keys;
    } else {
      RenderedEntry(keys[done]);
      assert rest[0] == keys[done].kid + ":" + Btoa(keys[done].raw) && rest[1..] == Rendered(keys)[done + 1..];
      assert keys[..done] + [keys[done]] == keys[..done + 1];
      ReadRendered(keys, done + 1);
    }
  }

  lemma RenderedParts(keys: seq<Key>)
    requires KeysOk(keys)
    ensures forall i :: 0 <= i < |keys| ==>
      Trimmed(Rendered(keys)[i]) && Rendered(keys)[i] != "" && ',' !in Rendered(keys)[i] && Named(Rendered(keys)[i])
  {
    hide IsKid, ParseKey, Btoa, Named, Trimmed;
    forall i | 0 <= i < |keys|
      ensures Trimmed(Rendered(keys)[i]) && Rendered(keys)[i] != "" && ',' !in Rendered(keys)[i] && Named(Rendered(keys)[i])
    {
      RenderedEntry(keys[i]);
    }
  }

  lemma {:induction false} JoinTrimmed(parts: seq<string>)
    requires |parts| >= 1 && forall i :: 0 <= i < |parts| ==> Trimmed(parts[i]) && parts[i] != ""
    ensures Trimmed(Join(parts, ",")) && Join(parts, ",") != ""
  {
    if |parts| > 1 {
      JoinTrimmed(parts[1..]);
      var j := Join(parts, ",");
      assert j[0] == parts[0][0] && j[|j| - 1] == Join(parts[1..], ",")[|Join(parts[1..], ",")| - 1];
    }
  }

  /** The secret written for a list of keys, each with its id, parses to that list, in that order. */
  lemma RenderedKeysParse(keys: seq<Key>)
    requires KeysOk(keys)
    ensures ParsedKeys(Some(Join(Rendered(keys), ","))) == Ok(keys)
  {
    hide IsKid, ParseKey, Join, Split, Trim, Named, Trimmed, Rendered;
    assert |Rendered(keys)| == |keys| by { RenderedSize(keys); }
    RenderedParts(keys);
    JoinTrimmed(Rendered(keys));
    TrimOfTrimmed(Join(Rendered(keys), ","));
    SplitOfJoin(Rendered(keys), ',');
    EntriesSame(Rendered(keys));
    ReadRendered(keys, 0);
    assert Rendered(keys)[0..] == Rendered(keys) && keys[..0] == [];
  }

  lemma RenderedSize(keys: seq<Key>)
    ensures |Rendered(keys)| == |keys|
  {
  }

  lemma BareEntry(bare: string)
    requires ':' !in bare
    ensures ParseKey("k1:" + bare) == ParseKey(bare)
  {
    hide Unb64url, StripPadding, IndexOf;
    IndexOfFirst(bare, ':');
    IndexOfAt("k1", ':', bare);
    var e := "k1:" + bare;
    assert e == "k1" + [':'] + bare && e[..2] == "k1" && e[3..] == bare;
  }

  /** A lone key without an id is the key with id "k1". */
  lemma BareKeyIsK1(bare: string)
    requires bare != "" && Trimmed(bare) && ',' !in bare && ':' !in bare
    ensures ParsedKeys(Some(bare)) == ParsedKeys(Some("k1:" + bare))
  {
    hide ParseKey, Trim, Split, Named;
    TrimOfTrimmed(bare);
    TrimOfTrimmed("k1:" + bare);
    SplitParts(bare, ',');
    SplitParts("k1:" + bare, ',');
    EntriesSame([bare]);
    EntriesSame(["k1:" + bare]);
    BareEntry(bare);
    ReadOne(bare);
    ReadOne("k1:" + bare);
  }

  lemma ReadOne(entry: string)
    ensures ReadKeys([entry], []) == match ParseKey(entry) case Err(e) => Err(e) case Ok(key) => Ok([key])
  {
    hide ParseKey;
    assert [entry][1..] == [];
    if ParseKey(entry).Ok? {
      assert [] + [ParseKey(entry).value] == [ParseKey(entry).value];
      assert ReadKeys([], [ParseKey(entry).value]) == Ok([ParseKey(entry).value]);
    }
  }
}
