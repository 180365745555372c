/**
 * Which Cloudflare zone a domain lives in: the longest of its suffixes that is a zone on the account, looked up through
 * a memo, and refused outside the zones the owner allowed.
 */
module Zones {
  import opened Wrappers
  import opened Text

  datatype Zone = Zone(id: string, name: string, account: Option<string>)

  /** The zones of the account, by lower-case name. */
  type Account = map<string, Zone>

  // ----- candidate names -----

  function DropDot(s: string): string {
    if s != "" && s[|s| - 1] == '.' then s[..|s| - 1] else s
  }

  function NonEmpty(parts: seq<string>): seq<string> {
    if parts == [] then [] else (if parts[0] == "" then [] else [parts[0]]) + NonEmpty(parts[1..])
  }

  function Labels(domain: string): seq<string> {
    NonEmpty(Split(DropDot(Lower(domain)), '.'))
  }

  function Dotted(labels: seq<string>): string {
    Join(labels, ".")
  }

  /** The suffixes of at least two labels, longest first. */
  function Suffixes(labels: seq<string>): seq<string> {
    if |labels| < 2 then [] else [Dotted(labels)] + Suffixes(labels[1..])
  }

  function Candidates(domain: string): seq<string> {
    Suffixes(Labels(domain))
  }

  method ZoneCandidates(domain: string) returns (out: seq<string>)
    ensures out == Candidates(domain)
  {
    var labels := Labels(domain);
    out := [];
    var i := 0;
    while i + 2 <= |labels|
      invariant i <= |labels|
      invariant out + Suffixes(labels[i..]) == Suffixes(labels)
    {
      out := out + [Dotted(labels[i..])];
      i := i + 1;
    }
    assert out + [] == out;
  }

  /** Name `n` is zone `z` or below it. */
  predicate Within(n: string, z: string) {
    n == z || EndsWith(n, "." + z)
  }

  lemma WithinTrans(a: string, b: string, c: string)
    requires Within(a, b) && Within(b, c)
    ensures Within(a, c)
  {
    if a != b && b != c {
      var x, y := a[..|a| - |b| - 1], b[..|b| - |c| - 1];
      assert a == x + "." + (y + "." + c);
      assert a[|a| - |c| - 1..] == "." + c;
    }
  }

  lemma DottedCons(labels: seq<string>)
    requires |labels| >= 2
    ensures Dotted(labels) == labels[0] + "." + Dotted(labels[1..]) && Within(Dotted(labels), Dotted(labels[1..]))
  {
    var d, rest := Dotted(labels), Dotted(labels[1..]);
    assert d == labels[0] + ("." + rest);
  }

  // ----- the account's own answer -----

  /** The first candidate that is a zone. */
  function Plain(account: Account, candidates: seq<string>): Option<Zone> {
    if candidates == [] then None
    else if candidates[0] in account then Some(account[candidates[0]])
    else Plain(account, candidates[1..])
  }

  // ----- the restricted answer -----

  /** The owner's list: names and ids of the allowed zones, and known zones below them that are not allowed. */
  datatype Policy = Policy(names: set<string>, allowed: set<string>, blocked: seq<string>)

  ghost predicate InScope(policy: Policy, name: string) {
    exists n :: n in policy.names && Within(name, n)
  }

  ghost predicate Blocked(policy: Policy, name: string) {
    exists b :: b in policy.blocked && Within(name, b)
  }

  datatype Refusal = NotFound | InBlockedZone | ZoneNotAllowed(zone: Zone) | OutOfScope | Down

  /** The search as the restricted client makes it. */
  ghost function Restricted(policy: Policy, account: Account, candidates: seq<string>, skipped: bool): Result<Zone, Refusal> {
    if candidates == [] then Err(if skipped then OutOfScope else NotFound)
    else if Blocked(policy, candidates[0]) then Err(InBlockedZone)
    else if !InScope(policy, candidates[0]) then Restricted(policy, account, candidates[1..], true)
    else if candidates[0] in account then
      var zone := account[candidates[0]];
      if zone.id in policy.allowed then Ok(zone) else Err(ZoneNotAllowed(zone))
    else Restricted(policy, account, candidates[1..], skipped)
  }

  /** A name above a name in scope... is not; but every name below one is: the names in scope come first. */
  lemma ScopeIsUpwardClosed(policy: Policy, labels: seq<string>)
    requires |labels| >= 2 && InScope(policy, Dotted(labels[1..]))
    ensures InScope(policy, Dotted(labels))
  {
    DottedCons(labels);
    var n :| n in policy.names && Within(Dotted(labels[1..]), n);
    WithinTrans(Dotted(labels), Dotted(labels[1..]), n);
  }

  lemma BlockedIsUpwardClosed(policy: Policy, labels: seq<string>)
    requires |labels| >= 2 && Blocked(policy, Dotted(labels[1..]))
    ensures Blocked(policy, Dotted(labels))
  {
    DottedCons(labels);
    var b :| b in policy.blocked && Within(Dotted(labels[1..]), b);
    WithinTrans(Dotted(labels), Dotted(labels[1..]), b);
  }

  /** Once out of scope, always out of scope: the rest of the search is skipped. */
  lemma {:induction false} OutOfScopeToTheEnd(policy: Policy, account: Account, labels: seq<string>, skipped: bool)
    requires labels != [] && !Blocked(policy, Dotted(labels)) && !InScope(policy, Dotted(labels))
    ensures Restricted(policy, account, Suffixes(labels), skipped) == Err(if skipped || |labels| >= 2 then OutOfScope else NotFound)
    decreases |labels|
  {
    hide InScope, Blocked, Dotted;
    if |labels| >= 2 {
      if InScope(policy, Dotted(labels[1..])) {
        ScopeIsUpwardClosed(policy, labels);
      }
      if Blocked(policy, Dotted(labels[1..])) {
        BlockedIsUpwardClosed(policy, labels);
      }
      OutOfScopeToTheEnd(policy, account, labels[1..], true);
      assert Suffixes(labels)[1..] == Suffixes(labels[1..]);
    }
  }

  predicate WellNamed(account: Account) {
    forall n :: n in account ==> account[n].name == n
  }

  /** What the restricted search answers for a domain that is in no blocked zone. */
  ghost function Expected(policy: Policy, account: Account, labels: seq<string>): Result<Zone, Refusal> {
    match Plain(account, Suffixes(labels))
    case None => Err(if |labels| >= 2 && !InScope(policy, Dotted(labels[|labels| - 2..])) then OutOfScope else NotFound)
    case Some(z) =>
      if !InScope(policy, z.name) then Err(OutOfScope)
      else if z.id in policy.allowed then Ok(z)
      else Err(ZoneNotAllowed(z))
  }

  lemma {:induction false} RestrictedUnblocked(policy: Policy, account: Account, labels: seq<string>)
    requires WellNamed(account) && labels != [] && !Blocked(policy, Dotted(labels))
    ensures Restricted(policy, account, Suffixes(labels), false) == Expected(policy, account, labels)
    decreases |labels|
  {
    hide InScope, Blocked, Dotted;
    if |labels| >= 2 {
      assert Suffixes(labels)[1..] == Suffixes(labels[1..]);
      if !InScope(policy, Dotted(labels)) {
        OutOfScopeToTheEnd(policy, account, labels, false);
        NothingInScope(policy, account, labels);
      } else if Dotted(labels) !in account {
        if Blocked(policy, Dotted(labels[1..])) {
          BlockedIsUpwardClosed(policy, labels);
        }
        RestrictedUnblocked(policy, account, labels[1..]);
        if |labels| == 2 {
          assert labels[0..] == labels;
        } else {
          assert labels[1..][|labels| - 3..] == labels[|labels| - 2..];
        }
      }
    }
  }

  lemma {:induction false} NothingInScope(policy: Policy, account: Account, labels: seq<string>)
    requires WellNamed(account) && |labels| >= 2 && !InScope(policy, Dotted(labels))
    ensures Expected(policy, account, labels) == Err(OutOfScope)
    decreases |labels|
  {
    hide InScope, Dotted;
    assert Suffixes(labels)[1..] == Suffixes(labels[1..]);
    if |labels| == 2 {
      assert labels[|labels| - 2..] == labels;
      assert Suffixes(labels[1..]) == [] && Plain(account, Suffixes(labels[1..])) == None;
    } else {
      if InScope(policy, Dotted(labels[1..])) {
        ScopeIsUpwardClosed(policy, labels);
      }
      NothingInScope(policy, account, labels[1..]);
      assert labels[1..][|labels| - 3..] == labels[|labels| - 2..];
    }
  }

  // ----- refinement -----

  predicate LabelsOk(labels: seq<string>) {
    forall i :: 0 <= i < |labels| ==> labels[i] != "" && '.' !in labels[i]
  }

  lemma {:induction false} NonEmptyOk(parts: seq<string>)
    requires forall i :: 0 <= i < |parts| ==> '.' !in parts[i]
    ensures LabelsOk(NonEmpty(parts))
  {
    if parts != [] {
      NonEmptyOk(parts[1..]);
    }
  }

  lemma LabelsAreOk(domain: string)
    ensures LabelsOk(Labels(domain))
  {
    SplitParts(DropDot(Lower(domain)), '.');
    NonEmptyOk(Split(DropDot(Lower(domain)), '.'));
  }

  lemma EndsInDotted(s: string, n: string)
    requires EndsWith(s, "." + n)
    ensures '.' in s
  {
    assert s[|s| - |n| - 1] == '.';
  }

  lemma WithinRest(head: string, rest: string, n: string)
    requires '.' !in head && EndsWith(head + "." + rest, "." + n)
    ensures Within(rest, n)
  {
    var d := head + "." + rest;
    var k := |d| - |n| - 1;
    assert d[k] == '.' && d[k + 1..] == n;
    assert forall i :: 0 <= i < |head| ==> d[i] == head[i] && head[i] != '.';
    assert d[|head| + 1..] == rest;
    if k > |head| {
      assert rest[k - |head| - 1..] == d[k..];
    }
  }

  /** Whatever a domain lies in is one of its suffixes at a label boundary. */
  lemma {:induction false} WithinIsSuffix(labels: seq<string>, n: string) returns (i: nat)
    requires LabelsOk(labels) && labels != [] && Within(Dotted(labels), n)
    ensures i < |labels| && n == Dotted(labels[i..])
    decreases |labels|
  {
    hide EndsWith, Join;
    if Dotted(labels) == n {
      assert labels[0..] == labels;
      return 0;
    }
    if |labels| >= 2 {
      DottedCons(labels);
      WithinRest(labels[0], Dotted(labels[1..]), n);
      i := WithinIsSuffix(labels[1..], n);
      assert labels[1..][i..] == labels[i + 1..];
      i := i + 1;
    } else {
      DottedOne(labels);
      EndsInDotted(labels[0], n);
    }
  }

  lemma DottedOne(labels: seq<string>)
    requires |labels| == 1
    ensures Dotted(labels) == labels[0]
  {
  }

  lemma DotMeansTwoLabels(labels: seq<string>)
    requires LabelsOk(labels) && labels != []
    ensures '.' in Dotted(labels) <==> |labels| >= 2
  {
    if |labels| >= 2 {
      DottedCons(labels);
      assert Dotted(labels)[|labels[0]|] == '.';
    }
  }

  lemma {:induction false} PlainSkipsNone(account: Account, labels: seq<string>, i: nat)
    requires WellNamed(account) && i + 2 <= |labels| && Dotted(labels[i..]) in account
    ensures Plain(account, Suffixes(labels)).Some?
    ensures Within(Plain(account, Suffixes(labels)).value.name, Dotted(labels[i..]))
    decreases i
  {
    assert Suffixes(labels)[0] == Dotted(labels) && Suffixes(labels)[1..] == Suffixes(labels[1..]);
    if Dotted(labels) in account {
      SuffixWithin(labels, i);
    } else {
      assert i > 0 by { assert labels[0..] == labels; }
      assert labels[i..] == labels[1..][i - 1..];
      PlainSkipsNone(account, labels[1..], i - 1);
    }
  }

  lemma {:induction false} SuffixWithin(labels: seq<string>, i: nat)
    requires i < |labels|
    ensures Within(Dotted(labels), Dotted(labels[i..]))
    decreases i
  {
    if i == 0 {
      assert labels[0..] == labels;
    } else {
      DottedCons(labels);
      SuffixWithin(labels[1..], i - 1);
      assert labels[1..][i - 1..] == labels[i..];
      WithinTrans(Dotted(labels), Dotted(labels[1..]), Dotted(labels[i..]));
    }
  }

  // ----- the domain's own text -----

  /** Runs of dots made one, and none at the end. */
  function Squeezed(s: string): string {
    if s == "" then ""
    else
      var rest := Squeezed(s[1..]);
      if s[0] != '.' then [s[0]] + rest else if rest == "" || rest[0] == '.' then rest else "." + rest
  }

  /** The domain as it is looked for: in lower case, without a dot at either end, and no dot doubled. */
  function Name(domain: string): string {
    var s := Squeezed(Lower(domain));
    if s != "" && s[0] == '.' then s[1..] else s
  }

  /** Labels that are not empty, with a dot between each two. */
  predicate Proper(n: string) {
    n != "" && n[0] != '.' && NoDotsWasted(n)
  }

  predicate NoDotsWasted(n: string) {
    forall i :: 0 <= i < |n| && n[i] == '.' ==> i + 1 < |n| && n[i + 1] != '.'
  }

  lemma {:induction false} SqueezedSame(n: string)
    requires NoDotsWasted(n)
    ensures Squeezed(n) == n && Squeezed(n + ".") == n
  {
    if n == "" {
      assert n + "." == "." && "."[1..] == "";
      assert Squeezed("") == "";
    } else {
      assert (n + ".")[1..] == n[1..] + "." && n == [n[0]] + n[1..];
      forall i | 0 <= i < |n[1..]| && n[1..][i] == '.' ensures i + 1 < |n[1..]| && n[1..][i + 1] != '.' {
        assert n[i + 1] == '.';
      }
      SqueezedSame(n[1..]);
    }
  }

  /** For a name of non-empty labels, in any case and with or without a final dot, that text is the name itself. */
  lemma NameOfProper(name: string, domain: string)
    requires Proper(name) && (domain == name || domain == name + ".")
    ensures Name(domain) == Lower(name) && Proper(Lower(name))
  {
    var n := Lower(name);
    assert forall i :: 0 <= i < |name| ==> (n[i] == '.' <==> name[i] == '.');
    SqueezedSame(n);
    assert Lower(name + ".") == n + ".";
  }

  /** The labels of a text put together again, given its pieces between dots. */
  function Together(parts: seq<string>): string
    requires parts != []
  {
    var more := NonEmpty(parts[1..]);
    parts[0] + if more == [] then "" else "." + Dotted(more)
  }

  lemma {:induction false} SqueezedLabels(s: string)
    ensures Squeezed(s) == Together(Split(s, '.'))
    decreases |s|
  {
    hide Split, Together;
    var parts := Split(s, '.');
    if s == "" {
      SplitParts(s, '.');
      TogetherOne("");
    } else if s[0] != '.' {
      assert s == [s[0]] + s[1..];
      SplitPrepend([s[0]], s[1..], '.');
      SqueezedLabels(s[1..]);
      TogetherLonger(s[0], Split(s[1..], '.'));
    } else {
      assert s == "" + ['.'] + s[1..];
      SplitAt("", '.', s[1..]);
      SqueezedLabels(s[1..]);
      SplitParts(s[1..], '.');
      TogetherAfterDot(Split(s[1..], '.'));
    }
  }

  lemma TogetherOne(part: string)
    ensures Together([part]) == part
  {
    assert [part][1..] == [];
  }

  lemma TogetherLonger(c: char, parts: seq<string>)
    requires parts != []
    ensures Together([[c] + parts[0]] + parts[1..]) == [c] + Together(parts)
  {
    assert ([[c] + parts[0]] + parts[1..])[1..] == parts[1..];
  }

  lemma TogetherAfterDot(parts: seq<string>)
    requires parts != [] && '.' !in parts[0]
    ensures var rest := Together(parts); Together([""] + parts) == if rest == "" || rest[0] == '.' then rest else "." + rest
  {
    hide Join;
    assert ([""] + parts)[1..] == parts;
    NonEmptyCons(parts);
    assert parts[0] != "" ==> parts[0][0] in parts[0];
  }

  lemma NonEmptyCons(parts: seq<string>)
    requires parts != []
    ensures parts[0] == "" ==> NonEmpty(parts) == NonEmpty(parts[1..])
    ensures parts[0] != "" ==> NonEmpty(parts) != [] && Dotted(NonEmpty(parts)) == Together(parts)
  {
    hide Join, NonEmpty;
    var more := NonEmpty(parts[1..]);
    NonEmptyIs(parts);
    if parts[0] != "" {
      if more != [] {
        JoinCons(parts[0], more, ".");
        assert parts[0] + "." + Dotted(more) == parts[0] + ("." + Dotted(more));
      } else {
        JoinOne(parts[0], ".");
        assert [parts[0]] + more == [parts[0]];
      }
    }
  }

  lemma NonEmptyIs(parts: seq<string>)
    requires parts != []
    ensures NonEmpty(parts) == if parts[0] == "" then NonEmpty(parts[1..]) else [parts[0]] + NonEmpty(parts[1..])
  {
  }

  lemma {:induction false} SqueezedDot(s: string)
    ensures Squeezed(s + ".") == Squeezed(s)
  {
    if s == "" {
      assert s + "." == "." && "."[1..] == "";
      assert Squeezed("") == "";
    } else {
      assert (s + ".")[1..] == s[1..] + ".";
      SqueezedDot(s[1..]);
    }
  }

  /** The labels of a domain are those of its text: every candidate is a piece of it. */
  lemma LabelsOfName(domain: string)
    ensures Dotted(Labels(domain)) == Name(domain)
    ensures |Labels(domain)| >= 2 <==> '.' in Name(domain)
    ensures Labels(domain) == [] <==> Name(domain) == ""
  {
    hide Dotted, Labels, Name;
    LabelsJoined(domain);
    LabelsAreOk(domain);
    if Labels(domain) != [] {
      DotMeansTwoLabels(Labels(domain));
      DottedNotEmpty(Labels(domain));
    } else {
      DottedOfNone();
    }
  }

  lemma LabelsJoined(domain: string)
    ensures Dotted(Labels(domain)) == Name(domain)
  {
    hide Split, Squeezed, Dotted, NonEmpty;
    var s := DropDot(Lower(domain));
    DropDotSqueezed(Lower(domain));
    SqueezedLabels(s);
    SplitParts(s, '.');
    StrippedTogether(Split(s, '.'));
  }

  lemma StrippedTogether(parts: seq<string>)
    requires parts != [] && '.' !in parts[0]
    ensures var s := Together(parts); Dotted(NonEmpty(parts)) == if s != "" && s[0] == '.' then s[1..] else s
  {
    hide Join;
    NonEmptyCons(parts);
    DottedOfNone();
    assert parts[0] != "" ==> parts[0][0] in parts[0];
  }

  lemma DropDotSqueezed(s: string)
    ensures Squeezed(DropDot(s)) == Squeezed(s)
  {
    if s != "" && s[|s| - 1] == '.' {
      SqueezedDot(s[..|s| - 1]);
      assert s == s[..|s| - 1] + ".";
    }
  }

  lemma DottedOfNone()
    ensures Dotted([]) == ""
  {
  }

  lemma DottedNotEmpty(labels: seq<string>)
    requires LabelsOk(labels) && labels != []
    ensures Dotted(labels) != ""
  {
    if |labels| >= 2 {
      DottedCons(labels);
    }
  }

  /** A domain of at least two labels is itself the first name looked for; one of fewer is not looked for at all. */
  lemma FirstCandidate(domain: string)
    ensures if '.' in Name(domain) then Candidates(domain) != [] && Candidates(domain)[0] == Name(domain) else Candidates(domain) == []
  {
    hide Name, Labels;
    LabelsOfName(domain);
  }

  // ----- what the searches find, on that text -----

  /** The domain lies in the zone. (A zone name has at least two labels.) */
  predicate LiesIn(domain: string, n: string) {
    '.' in n && Within(Name(domain), n)
  }

  lemma WithinBoth(a: string, b: string)
    requires Within(a, b) && Within(b, a)
    ensures a == b
  {
  }

  lemma {:induction false} PlainIsCandidate(account: Account, labels: seq<string>)
    requires WellNamed(account) && LabelsOk(labels) && Plain(account, Suffixes(labels)).Some?
    ensures var z := Plain(account, Suffixes(labels)).value;
      z.name in account && account[z.name] == z && Within(Dotted(labels), z.name) && '.' in z.name
    decreases |labels|
  {
    assert Suffixes(labels)[0] == Dotted(labels) && Suffixes(labels)[1..] == Suffixes(labels[1..]);
    if Dotted(labels) in account {
      DotMeansTwoLabels(labels);
    } else {
      PlainIsCandidate(account, labels[1..]);
      DottedCons(labels);
      WithinTrans(Dotted(labels), Dotted(labels[1..]), Plain(account, Suffixes(labels)).value.name);
    }
  }

  /**
   * The plain search finds the zone that serves the domain, exactly: a zone of the account the domain lies in, which
   * itself lies within every other such zone.
   */
  lemma PlainIsMostSpecific(account: Account, domain: string, zone: Zone)
    requires WellNamed(account)
    ensures Plain(account, Candidates(domain)) == Some(zone) <==>
      && zone.name in account && account[zone.name] == zone && LiesIn(domain, zone.name)
      && forall other :: other in account && LiesIn(domain, other) ==> Within(zone.name, other)
  {
    hide Plain, Suffixes, Labels, Within, Name;
    var labels := Labels(domain);
    LabelsAreOk(domain);
    LabelsOfName(domain);
    var found := Plain(account, Candidates(domain));
    forall other | other in account && LiesIn(domain, other) ensures found.Some? && Within(found.value.name, other) {
      assert labels != [] by { NotInNothing(domain, other); }
      var i := WithinIsSuffix(labels, other);
      DotMeansTwoLabels(labels[i..]);
      PlainSkipsNone(account, labels, i);
    }
    if found.Some? {
      PlainIsCandidate(account, labels);
      assert LiesIn(domain, found.value.name);
      if zone.name in account && account[zone.name] == zone && LiesIn(domain, zone.name)
        && Within(zone.name, found.value.name) {
        WithinBoth(zone.name, found.value.name);
      }
    }
  }

  lemma NotInNothing(domain: string, n: string)
    requires LiesIn(domain, n)
    ensures Name(domain) != ""
  {
  }

  /**
   * The restricted search refines the plain one. It returns a zone exactly when the plain search returns that zone, the
   * owner allowed it, and the domain lies in no blocked child zone.
   */
  lemma RestrictedRefinesPlain(policy: Policy, account: Account, domain: string, zone: Zone)
    requires WellNamed(account)
    ensures Restricted(policy, account, Candidates(domain), false) == Ok(zone) <==>
      && Plain(account, Candidates(domain)) == Some(zone)
      && zone.id in policy.allowed && InScope(policy, zone.name) && !Blocked(policy, Name(domain))
  {
    hide InScope, Blocked, Dotted, Labels, Name;
    LabelsOfName(domain);
    var labels := Labels(domain);
    if labels == [] {
      assert Suffixes(labels) == [];
    } else if !Blocked(policy, Dotted(labels)) {
      RestrictedUnblocked(policy, account, labels);
    }
  }

  /** Some name the domain lies in is out of scope: then so is every one above it. */
  ghost predicate LeavesScope(policy: Policy, domain: string) {
    exists n :: LiesIn(domain, n) && !InScope(policy, n)
  }

  /** Why a domain is refused, for every domain. */
  lemma RestrictedRefuses(policy: Policy, account: Account, domain: string, zone: Zone)
    requires WellNamed(account)
    ensures var r := Restricted(policy, account, Candidates(domain), false); var found := Plain(account, Candidates(domain));
      var blocked := '.' in Name(domain) && Blocked(policy, Name(domain));
      && (r == Err(InBlockedZone) <==> blocked)
      && (r == Err(ZoneNotAllowed(zone)) <==> !blocked && found == Some(zone) && InScope(policy, zone.name) && zone.id !in policy.allowed)
      && (r == Err(OutOfScope) <==> !blocked && if found.Some? then !InScope(policy, found.value.name) else LeavesScope(policy, domain))
      && (r == Err(NotFound) <==> !blocked && found.None? && !LeavesScope(policy, domain))
  {
    hide InScope, Blocked, Dotted, Labels, Name, LeavesScope;
    LabelsOfName(domain);
    var labels := Labels(domain);
    ScopeLeft(policy, domain);
    if '.' !in Name(domain) {
      assert Suffixes(labels) == [];
    } else if !Blocked(policy, Dotted(labels)) {
      RestrictedUnblocked(policy, account, labels);
    }
  }

  lemma {:induction false} ShortestInScope(policy: Policy, labels: seq<string>, i: nat)
    requires |labels| >= 2 && i + 2 <= |labels| && InScope(policy, Dotted(labels[|labels| - 2..]))
    ensures InScope(policy, Dotted(labels[i..]))
    decreases |labels| - i
  {
    hide InScope;
    if i + 2 < |labels| {
      ShortestInScope(policy, labels, i + 1);
      assert labels[i..][1..] == labels[i + 1..];
      ScopeIsUpwardClosed(policy, labels[i..]);
    }
  }

  /** The shortest candidate tells. */
  lemma ScopeLeft(policy: Policy, domain: string)
    ensures var labels := Labels(domain);
      LeavesScope(policy, domain) <==> |labels| >= 2 && !InScope(policy, Dotted(labels[|labels| - 2..]))
  {
    hide InScope, Labels, Name, Within, Dotted;
    var labels := Labels(domain);
    LabelsAreOk(domain);
    LabelsOfName(domain);
    if |labels| >= 2 {
      SuffixWithin(labels, |labels| - 2);
      DotMeansTwoLabels(labels[|labels| - 2..]);
      assert LiesIn(domain, Dotted(labels[|labels| - 2..]));
    }
    if n :| LiesIn(domain, n) && !InScope(policy, n) {
      NotInNothing(domain, n);
      var i := WithinIsSuffix(labels, n);
      DotMeansTwoLabels(labels[i..]);
      if InScope(policy, Dotted(labels[|labels| - 2..])) {
        ShortestInScope(policy, labels, i);
      }
    }
  }

  // ----- the allow-list as the owner chose it -----

  /** The policy after choosing `chosen` among the zones the token sees: unchosen zones below a chosen one are blocked. */
  ghost predicate PolicyOfChoice(policy: Policy, account: Account, chosen: set<string>) {
    (forall n :: n in policy.names <==> n in account && account[n].id in chosen)
    && (forall n :: n in account ==> (account[n].id in policy.allowed <==> account[n].id in chosen))
    && forall n :: n in policy.blocked <==> n in account && account[n].id !in chosen && BelowChosen(account, chosen, n)
  }

  ghost predicate BelowChosen(account: Account, chosen: set<string>, n: string) {
    exists p :: p in account && account[p].id in chosen && EndsWith(n, "." + p)
  }

  // How the owner's choice becomes the stored list, and the stored list the policy.

  predicate ZoneIdShaped(id: string) {
    |id| == 32 && forall i :: 0 <= i < |id| ==> '0' <= id[i] <= '9' || 'a' <= id[i] <= 'f'
  }

  datatype InputError = MalformedId | UnknownZone

  datatype AllowList = AllowList(zones: set<Zone>, blocked: seq<string>)

  function NamesBelow(visible: seq<Zone>, chosen: set<string>, parents: set<string>): seq<string> {
    if visible == [] then []
    else
      (if visible[0].id !in chosen && exists p :: p in parents && EndsWith(visible[0].name, "." + p) then [visible[0].name] else [])
      + NamesBelow(visible[1..], chosen, parents)
  }

  /** Every id must be well-formed and a zone the token sees; unchosen zones below a chosen one are remembered. */
  function SetAllowedZones(visible: seq<Zone>, ids: seq<string>): Result<AllowList, InputError> {
    if exists i :: 0 <= i < |ids| && !ZoneIdShaped(ids[i]) then Err(MalformedId)
    else if exists i :: 0 <= i < |ids| && ids[i] !in (set z | z in visible :: z.id) then Err(UnknownZone)
    else
      var chosen := set i | i in ids;
      var zones := set z | z in visible && z.id in chosen;
      Ok(AllowList(zones, NamesBelow(visible, chosen, set z | z in zones :: z.name)))
  }

  const HEX: string := "0123456789abcdef"

  /** A choice is taken exactly when every id is 32 hexadecimal digits and that of a zone the token sees. */
  lemma ChoiceTakenExactly(visible: seq<Zone>, ids: seq<string>)
    ensures var r := SetAllowedZones(visible, ids);
      var shaped := forall id :: id in ids ==> |id| == 32 && forall c :: c in id ==> c in HEX;
      var seen := forall id :: id in ids ==> exists z :: z in visible && z.id == id;
      && (r.Ok? <==> shaped && seen)
      && (r == Err(MalformedId) <==> !shaped)
      && (r == Err(UnknownZone) <==> shaped && !seen)
  {
    forall id | id in ids ensures ZoneIdShaped(id) <==> |id| == 32 && forall c :: c in id ==> c in HEX {
      HexDigits(id);
    }
    assert forall i :: 0 <= i < |ids| ==> ids[i] in ids;
    var all := set z | z in visible :: z.id;
    forall id | id in ids ensures id in all <==> exists z :: z in visible && z.id == id {
    }
    var misshapen, unseen := exists i :: 0 <= i < |ids| && !ZoneIdShaped(ids[i]), exists i :: 0 <= i < |ids| && ids[i] !in all;
    assert misshapen <==> exists id :: id in ids && !ZoneIdShaped(id);
    assert unseen <==> exists id :: id in ids && id !in all;
  }

  lemma HexDigits(id: string)
    ensures ZoneIdShaped(id) <==> |id| == 32 && forall c :: c in id ==> c in HEX
  {
    forall c: char ensures c in HEX <==> '0' <= c <= '9' || 'a' <= c <= 'f' {
      HexDigit(c);
    }
    assert forall i :: 0 <= i < |id| ==> id[i] in id;
  }

  lemma HexDigit(c: char)
    ensures c in HEX <==> '0' <= c <= '9' || 'a' <= c <= 'f'
  {
    if '0' <= c <= '9' {
      assert HEX[c as int - 48] == c;
    } else if 'a' <= c <= 'f' {
      assert HEX[c as int - 87] == c;
    }
  }

  function PolicyFor(list: AllowList): Policy {
    Policy(set z | z in list.zones :: z.name, set z | z in list.zones && ZoneIdShaped(z.id) :: z.id, list.blocked)
  }

  lemma {:induction false} NamesBelowAre(visible: seq<Zone>, chosen: set<string>, parents: set<string>, n: string)
    ensures n in NamesBelow(visible, chosen, parents) <==>
      exists z :: z in visible && z.name == n && z.id !in chosen && exists p :: p in parents && EndsWith(n, "." + p)
  {
    if visible != [] {
      NamesBelowAre(visible[1..], chosen, parents, n);
      assert forall z :: z in visible <==> z == visible[0] || z in visible[1..];
    }
  }

  ghost predicate Lists(visible: seq<Zone>, account: Account) {
    (forall z :: z in visible ==> z.name in account && account[z.name] == z) && forall n :: n in account ==> account[n] in visible
  }

  /** Saving a choice and opening a client makes the policy of that choice. */
  lemma ChoiceMakesPolicy(visible: seq<Zone>, account: Account, ids: seq<string>)
    requires WellNamed(account) && Lists(visible, account) && SetAllowedZones(visible, ids).Ok?
    ensures PolicyOfChoice(PolicyFor(SetAllowedZones(visible, ids).value), account, set i | i in ids)
  {
    hide EndsWith, NamesBelow;
    var chosen := set i | i in ids;
    var list := SetAllowedZones(visible, ids).value;
    var policy, parents := PolicyFor(list), set z | z in list.zones :: z.name;
    assert forall id :: id in chosen ==> ZoneIdShaped(id);
    forall n ensures n in policy.blocked <==> n in account && account[n].id !in chosen && BelowChosen(account, chosen, n) {
      NamesBelowAre(visible, chosen, parents, n);
      assert forall p :: p in parents <==> p in account && account[p].id in chosen;
    }
  }

  /** The domain lies in an unchosen zone that is itself below a chosen one. */
  ghost predicate Shadowed(account: Account, chosen: set<string>, domain: string) {
    exists b :: b in account && account[b].id !in chosen && BelowChosen(account, chosen, b) && Within(Name(domain), b)
  }

  /**
   * Right after a choice, a domain is served exactly when the zone it lives in was chosen and no unchosen zone between
   * that zone's parents and the domain is below a chosen one.
   */
  lemma ChoiceServes(policy: Policy, account: Account, chosen: set<string>, domain: string, zone: Zone)
    requires WellNamed(account) && PolicyOfChoice(policy, account, chosen)
    ensures Restricted(policy, account, Candidates(domain), false) == Ok(zone) <==>
      Plain(account, Candidates(domain)) == Some(zone) && zone.id in chosen && !Shadowed(account, chosen, domain)
  {
    hide Restricted, Candidates, Name, Within, EndsWith;
    RestrictedRefinesPlain(policy, account, domain, zone);
    if Plain(account, Candidates(domain)) == Some(zone) {
      PlainOnAccount(account, Candidates(domain));
      if zone.id in chosen {
        WithinSelf(zone.name);
        assert InScope(policy, zone.name);
      }
    }
    assert Blocked(policy, Name(domain)) <==> Shadowed(account, chosen, domain);
  }

  lemma WithinSelf(n: string)
    ensures Within(n, n)
  {
  }

  lemma {:induction false} PlainOnAccount(account: Account, candidates: seq<string>)
    requires WellNamed(account) && Plain(account, candidates).Some?
    ensures var z := Plain(account, candidates).value; z.name in account && account[z.name] == z && z.name in candidates
    decreases |candidates|
  {
    if candidates[0] !in account {
      PlainOnAccount(account, candidates[1..]);
    }
  }

  /**
   * A chosen zone below an unchosen one below a chosen one is never served: its names are refused as lying in the
   * unchosen zone, although the plain search finds the chosen one.
   */
  lemma NestedChoiceIsRefused(policy: Policy, account: Account, chosen: set<string>, domain: string, top: string, middle: string, zone: Zone)
    requires WellNamed(account) && PolicyOfChoice(policy, account, chosen)
    requires Plain(account, Candidates(domain)) == Some(zone) && zone.id in chosen
    requires top in account && account[top].id in chosen && middle in account && account[middle].id !in chosen
    requires EndsWith(middle, "." + top) && Within(Name(domain), middle)
    ensures Restricted(policy, account, Candidates(domain), false) == Err(InBlockedZone)
  {
    hide Name, Within, EndsWith, Candidates;
    FirstCandidate(domain);
    assert BelowChosen(account, chosen, middle);
    assert Blocked(policy, Name(domain));
  }

  // ----- the client -----

  class CfClient {
    var zones: map<string, Option<Zone>>
    var zoneNames: map<string, string>
    const policy: Option<Policy>

    constructor (policy: Option<Policy>)
      ensures zones == map[] && zoneNames == map[] && this.policy == policy
    {
      zones, zoneNames := map[], map[];
      this.policy := policy;
    }

    /** Every remembered answer is the account's. */
    ghost predicate Remembers(account: Account)
      reads this
    {
      (forall n :: n in zones ==> zones[n] == Find(account, n))
      && forall id :: id in zoneNames ==> zoneNames[id] in account && account[zoneNames[id]].id == id
    }

    /** A zone known beforehand; it must be the account's. */
    method SeedZone(zone: Zone, account: Account)
      requires WellNamed(account) && Remembers(account) && zone.name in account && account[zone.name] == zone
      modifies this
      ensures Remembers(account) && zones == old(zones)[zone.name := Some(zone)]
    {
      zones := zones[zone.name := Some(zone)];
      zoneNames := zoneNames[zone.id := zone.name];
    }

    /** One name, from memory or from the account; an answer that fails to come (`down`) is not remembered. */
    method LookupZone(name: string, account: Account, down: bool) returns (r: Result<Option<Zone>, Refusal>)
      requires WellNamed(account) && Remembers(account)
      modifies this
      ensures Remembers(account)
      ensures r == if down && name !in old(zones) then Err(Down) else Ok(Find(account, name))
      ensures zones == if r.Ok? then old(zones)[name := Find(account, name)] else old(zones)
    {
      if name in zones {
        assert zones == zones[name := zones[name]];
        return Ok(zones[name]);
      }
      if down {
        return Err(Down);
      }
      var zone := Find(account, name);
      if zone.Some? {
        zoneNames := zoneNames[zone.value.id := zone.value.name];
      }
      zones := zones[name := zone];
      r := Ok(zone);
    }

    /**
     * The search with its memo; lookups of the names in `down` fail. It gives the account's own answer, or the refusal of
     * the policy, unless it needs one of those names and does not remember it.
     */
    method ZoneFor(domain: string, account: Account, down: set<string>) returns (r: Result<Zone, Refusal>)
      requires WellNamed(account) && Remembers(account)
      modifies this
      ensures Remembers(account) && forall n :: n in old(zones) ==> n in zones
      ensures r == if Stops(policy, account, old(zones).Keys, down, Candidates(domain)) then Err(Down) else Answer(policy, account, domain)
      ensures (forall n :: n in Candidates(domain) && n in down ==> n in old(zones)) ==> r == Answer(policy, account, domain)
    {
      hide Blocked, InScope, Candidates;
      var names := ZoneCandidates(domain);
      if forall n :: n in names && n in down ==> n in zones {
        NeverStops(policy, account, zones.Keys, down, names);
      }
      var skipped := false;
      for i := 0 to |names|
        invariant Remembers(account) && forall n :: n in old(zones) ==> n in zones
        invariant policy.None? ==> !skipped
        invariant Answer(policy, account, domain) == AnswerFrom(policy, account, names[i..], skipped)
        invariant Stops(policy, account, old(zones).Keys, down, names) == Stops(policy, account, zones.Keys, down, names[i..])
      {
        if policy.Some? {
          var blocked := IsBlocked(policy.value, names[i]);
          if blocked {
            return Err(InBlockedZone);
          }
          var inScope := IsInScope(policy.value, names[i]);
          if !inScope {
            skipped := true;
            continue;
          }
        }
        ghost var known := zones.Keys;
        var found := LookupZone(names[i], account, names[i] in down);
        if found.Err? {
          return Err(Down);
        }
        assert zones.Keys == known + {names[i]};
        if found.value.Some? {
          if policy.Some? && found.value.value.id !in policy.value.allowed {
            return Err(ZoneNotAllowed(found.value.value));
          }
          return Ok(found.value.value);
        }
      }
      r := Err(if skipped then OutOfScope else NotFound);
    }
  }

  /** The search comes to a name that it does not remember and whose lookup fails. */
  ghost predicate Stops(policy: Option<Policy>, account: Account, known: set<string>, down: set<string>, candidates: seq<string>)
    decreases |candidates|
  {
    if candidates == [] || (policy.Some? && Blocked(policy.value, candidates[0])) then false
    else if policy.Some? && !InScope(policy.value, candidates[0]) then Stops(policy, account, known, down, candidates[1..])
    else if candidates[0] in down && candidates[0] !in known then true
    else candidates[0] !in account && Stops(policy, account, known + {candidates[0]}, down, candidates[1..])
  }

  lemma {:induction false} NeverStops(policy: Option<Policy>, account: Account, known: set<string>, down: set<string>, candidates: seq<string>)
    requires forall n :: n in candidates && n in down ==> n in known
    ensures !Stops(policy, account, known, down, candidates)
    decreases |candidates|
  {
    hide Blocked, InScope;
    if candidates != [] {
      NeverStops(policy, account, known, down, candidates[1..]);
      NeverStops(policy, account, known + {candidates[0]}, down, candidates[1..]);
    }
  }

  function Find(account: Account, name: string): Option<Zone> {
    if name in account then Some(account[name]) else None
  }

  /** What a client with or without a policy answers for the candidates from some point on. */
  ghost function AnswerFrom(policy: Option<Policy>, account: Account, candidates: seq<string>, skipped: bool): Result<Zone, Refusal> {
    match policy
    case Some(p) => Restricted(p, account, candidates, skipped)
    case None => match Plain(account, candidates) case None => Err(NotFound) case Some(z) => Ok(z)
  }

  ghost function Answer(policy: Option<Policy>, account: Account, domain: string): Result<Zone, Refusal> {
    AnswerFrom(policy, account, Candidates(domain), false)
  }

  method IsBlocked(policy: Policy, name: string) returns (b: bool)
    ensures b == Blocked(policy, name)
  {
    for i := 0 to |policy.blocked|
      invariant forall j :: 0 <= j < i ==> !Within(name, policy.blocked[j])
    {
      if Within(name, policy.blocked[i]) {
        assert policy.blocked[i] in policy.blocked;
        return true;
      }
    }
    b := false;
  }

  method IsInScope(policy: Policy, name: string) returns (b: bool)
    ensures b == InScope(policy, name)
  {
    b := exists n :: n in policy.names && Within(name, n);
  }
}
