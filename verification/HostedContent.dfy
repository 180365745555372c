/**
 * The text of the hosted DMARC record: how it is built, and how token rotation points its rua= at a new address.
 */
module HostedContent {
  import opened Wrappers
  import opened Text
  import opened DmarcTags

  /** `kind+token@domain`. */
  function IntakeAddress(kind: string, token: string, intakeDomain: string): string {
    kind + "+" + token + "@" + intakeDomain
  }

  function BuildHostedDmarc(policy: string, token: string, intakeDomain: string): string {
    "v=DMARC1; p=" + policy + "; rua=mailto:" + IntakeAddress("rua", token, intakeDomain)
  }

  const RUA: set<string> := {"rua"}

  function RuaLine(address: string): string {
    "rua=mailto:" + address
  }

  function Retargeted(record: string, address: string): string {
    Join(Kept(PartsOf(record), RUA) + [RuaLine(address)], "; ")
  }

  method RetargetRua(record: string, newAddress: string) returns (r: string)
    ensures r == Retargeted(record, newAddress)
    ensures PlainAddress(newAddress) ==>
      ((forall k :: k != "" ==> Get(r, k) == if k == "rua" then Some("mailto:" + newAddress) else Get(record, k))
       <==> !MisreadsFirst(Kept(PartsOf(record), RUA), newAddress))
  {
    hide Kept, Join, PartsOf, MisreadsFirst, Get, PlainAddress;
    var out := Kept(PartsOf(record), RUA);
    out := out + ["rua=mailto:" + newAddress];
    r := Join(out, "; ");
    if PlainAddress(newAddress) {
      RetargetChangesOnlyRua(record, newAddress);
    }
  }

  // ----- reading a retargeted record back -----

  /** An address as the intake issues them: no semicolon, and not ending in a quote or a space. */
  predicate PlainAddress(a: string) {
    ';' !in a && Trimmed(a) && a != "" && a[|a| - 1] != '"'
  }

  /** What the parser makes of the first part when it starts with a double quote: the quote is taken for the outer one. */
  function Unopened(kept: seq<string>): seq<string> {
    if kept == [] then [] else [StripHead(kept[0])] + kept[1..]
  }

  /**
   * The one way a retargeted record can go wrong: the first part kept has a tag that starts with a double quote. Read
   * back without it, the part names another tag, unless later parts make up for both.
   */
  predicate MisreadsFirst(kept: seq<string>, address: string) {
    kept != [] && kept[0] != "" && kept[0][0] == '"' && HasEq(kept[0])
    && var was, now, v := KeyOf(kept[0]), KeyOf(kept[0][1..]), ValueOf(kept[0]);
    Lookup(kept[1..], was) != Some(v)
    || (now != "" && if now == "rua" then v != "mailto:" + address else Lookup(kept[1..], now) != Some(v))
  }

  lemma RetargetedReads(record: string, address: string, k: string)
    requires PlainAddress(address) && k != ""
    ensures Get(Retargeted(record, address), k) == Lookup(Unopened(Kept(PartsOf(record), RUA)) + [RuaLine(address)], k)
  {
    hide Join, Split, Lookup, Kept, StripTail, WellKept;
    var kept := Kept(PartsOf(record), RUA);
    KeptParts(record);
    var lines := Unopened(kept) + [RuaLine(address)];
    LinesOk(kept, address);
    assert kept != [] ==> kept[0] != "" by { FirstSolid(kept); }
    StripHeadOfJoin(kept, RuaLine(address));
    ReparseBody(lines, k);
    assert Unquoted(lines) == lines by { EndsPlain(lines, address); }
  }

  lemma KeptParts(record: string)
    ensures forall i :: 0 <= i < |Kept(PartsOf(record), RUA)| ==> WellKept(Kept(PartsOf(record), RUA)[i], RUA)
  {
    SplitParts(StripQuotes(record), ';');
    KeptAreWell(PartsOf(record), RUA);
  }

  lemma FirstSolid(kept: seq<string>)
    requires forall i :: 0 <= i < |kept| ==> WellKept(kept[i], RUA)
    ensures kept != [] ==> kept[0] != ""
  {
    assert kept != [] ==> WellKept(kept[0], RUA);
  }

  lemma LinesOk(kept: seq<string>, address: string)
    requires PlainAddress(address) && forall i :: 0 <= i < |kept| ==> WellKept(kept[i], RUA)
    ensures var lines := Unopened(kept) + [RuaLine(address)];
      |lines| >= 1 && lines[|lines| - 1] != "" && forall i :: 0 <= i < |lines| ==> ';' !in lines[i]
  {
    hide KeyOf;
    var lines := Unopened(kept) + [RuaLine(address)];
    forall i | 0 <= i < |lines| ensures ';' !in lines[i] {
      if i < |kept| {
        assert WellKept(kept[i], RUA);
      }
    }
  }

  lemma StripHeadOfJoin(kept: seq<string>, last: string)
    requires kept != [] ==> kept[0] != ""
    requires last != "" && last[0] != '"'
    ensures StripHead(Join(kept + [last], "; ")) == Join(Unopened(kept) + [last], "; ")
  {
    hide Join, StripHead;
    if kept != [] {
      StripHeadOfFirst(kept[0], kept[1..] + [last]);
      assert kept + [last] == [kept[0]] + (kept[1..] + [last]);
      assert Unopened(kept) + [last] == [StripHead(kept[0])] + (kept[1..] + [last]);
    } else {
      PlainHead(last);
      assert [] + [last] == [last];
      JoinOne(last, "; ");
    }
  }

  lemma StripHeadOfFirst(first: string, rest: seq<string>)
    requires first != "" && rest != []
    ensures StripHead(Join([first] + rest, "; ")) == Join([StripHead(first)] + rest, "; ")
  {
    hide Join, StripHead;
    JoinCons(first, rest, "; ");
    JoinCons(StripHead(first), rest, "; ");
    StripHeadOfConcat(first, "; " + Join(rest, "; "));
    Assoc(first, "; ", Join(rest, "; "));
    Assoc(StripHead(first), "; ", Join(rest, "; "));
  }

  lemma Assoc(a: string, b: string, c: string)
    ensures (a + b) + c == a + (b + c)
  {
  }

  lemma StripHeadOfConcat(a: string, b: string)
    requires a != ""
    ensures StripHead(a + b) == StripHead(a) + b
  {
  }

  lemma PlainHead(s: string)
    requires s != "" && s[0] != '"'
    ensures StripHead(s) == s
  {
  }

  lemma EndsPlain(lines: seq<string>, address: string)
    requires lines != [] && lines[|lines| - 1] == RuaLine(address) && PlainAddress(address)
    ensures Unquoted(lines) == lines
  {
    var l := RuaLine(address);
    assert l[|l| - 1] == address[|address| - 1];
  }

  lemma RuaLineSays(address: string, k: string)
    requires PlainAddress(address)
    ensures Lookup([RuaLine(address)], k) == if k == "rua" then Some("mailto:" + address) else None
  {
    hide KeyOf, ValueOf, Trim, Lower;
    NamedPart("rua", "mailto:" + address);
    TrimOfTrimmed("rua");
    LowerOfLower("rua");
    TrimOfTrimmed("mailto:" + address);
    assert "rua" + ['='] + ("mailto:" + address) == RuaLine(address);
    LookupOne(RuaLine(address), k);
  }

  /** Dropping the quote in front of a part keeps its value and changes its tag. */
  lemma UnopenedPart(part: string)
    requires part != "" && part[0] == '"' && Trimmed(part)
    ensures HasEq(part[1..]) <==> HasEq(part)
    ensures HasEq(part) ==> ValueOf(part[1..]) == ValueOf(part) && KeyOf(part[1..]) != KeyOf(part) && KeyOf(part) != "" && KeyOf(part) != "rua"
  {
    hide KeyOf, ValueOf, IndexOf, Trim, Lower;
    if HasEq(part) {
      CutAt(part, '=');
      var i := IndexOf(part, '=');
      var a, b := part[1..i], part[i + 1..];
      assert part == (['"'] + a) + ['='] + b && part[1..] == a + ['='] + b;
      NamedPart(['"'] + a, b);
      NamedPart(a, b);
      QuotedKey(a);
    }
  }

  lemma QuotedKey(a: string)
    ensures var key := Lower(Trim(['"'] + a)); key != "" && key[0] == '"' && |key| > |Trim(a)|
    ensures Lower(Trim(a)) != Lower(Trim(['"'] + a))
  {
    TrimStartBefore("", '"', a);
    TrimEndAfter("", '"', a);
    assert "" + ['"'] + a == ['"'] + a;
    assert Trim(['"'] + a) == ['"'] + TrimEnd(a);
    TrimsCommute(a);
    TrimsShrink(TrimEnd(a));
  }

  /** The old tags as a retargeted record shows them. */
  lemma RetargetedLookup(kept: seq<string>, address: string, k: string)
    requires PlainAddress(address) && k != "" && forall i :: 0 <= i < |kept| ==> WellKept(kept[i], RUA)
    ensures Lookup(Unopened(kept) + [RuaLine(address)], k) ==
      if Lookup(Unopened(kept), k).Some? then Lookup(Unopened(kept), k) else if k == "rua" then Some("mailto:" + address) else None
  {
    hide Lookup;
    LookupAppend(Unopened(kept), [RuaLine(address)], k);
    RuaLineSays(address, k);
  }

  lemma LookupUnopened(kept: seq<string>, k: string)
    requires kept != [] && kept[0] != "" && kept[0][0] == '"' && HasEq(kept[0]) && Trimmed(kept[0])
    ensures Lookup(kept, k) == if KeyOf(kept[0]) == k then Some(ValueOf(kept[0])) else Lookup(kept[1..], k)
    ensures Lookup(Unopened(kept), k) == if KeyOf(kept[0][1..]) == k then Some(ValueOf(kept[0])) else Lookup(kept[1..], k)
  {
    hide KeyOf, ValueOf, HasEq;
    UnopenedPart(kept[0]);
    assert Unopened(kept)[1..] == kept[1..];
  }

  lemma UnopenedSame(kept: seq<string>, k: string)
    requires forall i :: 0 <= i < |kept| ==> WellKept(kept[i], RUA)
    requires kept == [] || kept[0] == "" || kept[0][0] != '"' || !HasEq(kept[0])
    ensures Lookup(Unopened(kept), k) == Lookup(kept, k)
  {
    hide KeyOf, ValueOf, HasEq;
    if kept != [] {
      assert WellKept(kept[0], RUA);
      if kept[0][0] == '"' {
        UnopenedPart(kept[0]);
        assert Unopened(kept)[1..] == kept[1..];
      } else {
        assert Unopened(kept) == kept;
      }
    }
  }

  lemma KeptHasNoRua(record: string, k: string)
    ensures Lookup(Kept(PartsOf(record), RUA), k) == if k == "rua" then None else Lookup(PartsOf(record), k)
  {
    LookupKept(PartsOf(record), RUA, k);
  }

  /** Rotation's edit does what it is for: rua= says the new address, every other tag what it said. */
  ghost predicate ChangesOnlyRua(record: string, address: string) {
    forall k :: k != "" ==> Get(Retargeted(record, address), k) == if k == "rua" then Some("mailto:" + address) else Get(record, k)
  }

  /**
   * For every record: retargeting changes rua= and nothing else, unless the first part kept names a tag that starts with
   * a double quote.
   */
  lemma RetargetChangesOnlyRua(record: string, address: string)
    requires PlainAddress(address)
    ensures ChangesOnlyRua(record, address) <==> !MisreadsFirst(Kept(PartsOf(record), RUA), address)
  {
    hide Lookup, Kept, KeyOf, ValueOf, HasEq, PartsOf, Retargeted;
    var kept := Kept(PartsOf(record), RUA);
    KeptParts(record);
    forall k | k != "" ensures Get(Retargeted(record, address), k) ==
      (if Lookup(Unopened(kept), k).Some? then Lookup(Unopened(kept), k) else if k == "rua" then Some("mailto:" + address) else None)
      && Lookup(kept, k) == if k == "rua" then None else Get(record, k)
    {
      RetargetedReads(record, address, k);
      RetargetedLookup(kept, address, k);
      KeptHasNoRua(record, k);
    }
    if kept == [] || kept[0] == "" || kept[0][0] != '"' || !HasEq(kept[0]) {
      forall k ensures Lookup(Unopened(kept), k) == Lookup(kept, k) {
        UnopenedSame(kept, k);
      }
    } else {
      assert WellKept(kept[0], RUA);
      UnopenedPart(kept[0]);
      forall k ensures Lookup(kept, k) == (if KeyOf(kept[0]) == k then Some(ValueOf(kept[0])) else Lookup(kept[1..], k))
        && Lookup(Unopened(kept), k) == (if KeyOf(kept[0][1..]) == k then Some(ValueOf(kept[0])) else Lookup(kept[1..], k))
      {
        LookupUnopened(kept, k);
      }
      var was, now := KeyOf(kept[0]), KeyOf(kept[0][1..]);
      assert ChangesOnlyRua(record, address) ==>
        Get(Retargeted(record, address), was) == Get(record, was)
        && (now != "" ==> Get(Retargeted(record, address), now) == if now == "rua" then Some("mailto:" + address) else Get(record, now));
    }
  }

  // ----- rotation -----

  lemma BuiltLines(policy: string, token: string, intakeDomain: string)
    ensures BuildHostedDmarc(policy, token, intakeDomain)
      == Join(["v=DMARC1", "p=" + policy, RuaLine(IntakeAddress("rua", token, intakeDomain))], "; ")
  {
    hide Join, IntakeAddress;
    var a := IntakeAddress("rua", token, intakeDomain);
    var lines := ["v=DMARC1", "p=" + policy, RuaLine(a)];
    JoinOne(RuaLine(a), "; ");
    assert lines == ["v=DMARC1"] + (["p=" + policy] + [RuaLine(a)]);
    JoinCons("v=DMARC1", ["p=" + policy] + [RuaLine(a)], "; ");
    JoinCons("p=" + policy, [RuaLine(a)], "; ");
    assert "v=DMARC1; p=" == "v=DMARC1" + "; " + "p=" && "; rua=mailto:" == "; " + "rua=mailto:";
    assert Join(lines, "; ") == "v=DMARC1" + "; " + ("p=" + policy + "; " + ("rua=mailto:" + a));
  }

  /** The parts of a hosted record as the editor splits them; a quote at the very end is the outer one. */
  lemma BuiltParts(policy: string, token: string, intakeDomain: string)
    requires ';' !in policy && ';' !in token && ';' !in intakeDomain
    ensures PartsOf(BuildHostedDmarc(policy, token, intakeDomain))
      == ["v=DMARC1", " p=" + policy, " " + StripTail(RuaLine(IntakeAddress("rua", token, intakeDomain)))]
  {
    hide Join, Split, StripTail, IntakeAddress;
    var a := IntakeAddress("rua", token, intakeDomain);
    assert ';' !in a by { PlainParts(token, intakeDomain); }
    var lines := ["v=DMARC1", "p=" + policy, RuaLine(a)];
    BuiltLines(policy, token, intakeDomain);
    var text := Join(lines, "; ");
    assert lines == ["v=DMARC1"] + lines[1..];
    JoinCons("v=DMARC1", lines[1..], "; ");
    PlainHead(text);
    StripTailOfJoin(lines);
    var u := Unquoted(lines);
    assert u == ["v=DMARC1", "p=" + policy, StripTail(RuaLine(a))];
    assert ';' !in u[2] by { StripTailAdds(RuaLine(a)); }
    SplitOfSpacedJoin(u);
    assert Spaced(u[1..]) == [" " + u[1], " " + u[2]];
    assert " " + ("p=" + policy) == " p=" + policy;
  }

  lemma StripTailAdds(s: string)
    ensures forall c :: c in StripTail(s) ==> c in s
  {
  }

  lemma PlainParts(token: string, intakeDomain: string)
    requires ';' !in token && ';' !in intakeDomain
    ensures ';' !in IntakeAddress("rua", token, intakeDomain)
  {
  }

  lemma KeptCons(part: string, rest: seq<string>)
    ensures Kept([part] + rest, RUA) ==
      var p := Trim(part); if p != "" && KeyOf(p) != "rua" then [p] + Kept(rest, RUA) else Kept(rest, RUA)
  {
    hide Trim, KeyOf;
    assert ([part] + rest)[1..] == rest;
  }

  lemma KeptOfBuilt(policy: string, rua: string)
    requires Trimmed("p=" + policy)
    ensures Kept(["v=DMARC1", " p=" + policy, " " + StripTail(RuaLine(rua))], RUA) == ["v=DMARC1", "p=" + policy]
  {
    hide Trim, KeyOf, Kept, RuaLine, StripTail;
    KeptKey("v=DMARC1", "v", "DMARC1");
    KeptKey("p=" + policy, "p", policy);
    TrimSpaced("p=" + policy);
    TrimOfTrimmed("v=DMARC1");
    RuaKey(rua);
    var last := " " + StripTail(RuaLine(rua));
    assert " " + ("p=" + policy) == " p=" + policy;
    KeptCons("v=DMARC1", [" p=" + policy] + [last]);
    KeptCons(" p=" + policy, [last]);
    KeptCons(last, []);
    assert [last] + [] == [last] && ["v=DMARC1", " p=" + policy, last] == ["v=DMARC1"] + ([" p=" + policy] + [last]);
    assert Kept([], RUA) == [] by { KeptNone(); }
    assert ["v=DMARC1"] + (["p=" + policy] + []) == ["v=DMARC1", "p=" + policy];
  }

  lemma KeptNone()
    ensures Kept([], RUA) == []
  {
  }

  lemma KeptKey(line: string, name: string, v: string)
    requires line == name + ['='] + v && '=' !in name && Trimmed(name) && IsLower(name)
    ensures KeyOf(line) == name
  {
    hide KeyOf, Trim, Lower;
    NamedPart(name, v);
    TrimOfTrimmed(name);
    LowerOfLower(name);
  }

  lemma TrimSpaced(s: string)
    requires Trimmed(s)
    ensures Trim(" " + s) == s
  {
    assert (" " + s)[1..] == s;
    TrimOfTrimmed(s);
  }

  lemma RuaKey(rua: string)
    ensures KeyOf(Trim(" " + StripTail(RuaLine(rua)))) == "rua"
  {
    hide KeyOf, Trim, Lower;
    var v := StripTail("mailto:" + rua);
    assert StripTail(RuaLine(rua)) == "rua" + ['='] + v;
    KeptKey("rua" + ['='] + v, "rua", v);
    SpaceKeepsTag("rua" + ['='] + v);
    TrimKeepsTag(" " + StripTail(RuaLine(rua)));
  }

  /** Rotating the token of a hosted record as it was built gives the record built with the new token. */
  lemma RotationRebuilds(policy: string, before: string, after: string, intakeDomain: string)
    requires ';' !in policy && Trimmed("p=" + policy) && ';' !in before && ';' !in intakeDomain
    ensures Retargeted(BuildHostedDmarc(policy, before, intakeDomain), IntakeAddress("rua", after, intakeDomain))
      == BuildHostedDmarc(policy, after, intakeDomain)
  {
    hide Join, Kept, PartsOf, BuildHostedDmarc;
    BuiltParts(policy, before, intakeDomain);
    KeptOfBuilt(policy, IntakeAddress("rua", before, intakeDomain));
    BuiltLines(policy, after, intakeDomain);
    assert ["v=DMARC1", "p=" + policy] + [RuaLine(IntakeAddress("rua", after, intakeDomain))]
      == ["v=DMARC1", "p=" + policy, RuaLine(IntakeAddress("rua", after, intakeDomain))];
  }
}
