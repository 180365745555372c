/**
 * The tag syntax of a DMARC record: `k=v` parts separated by semicolons, read by the parser and printed by the
 * record builders.
 */
module DmarcTags {
  import opened Wrappers
  import opened Text

  // ----- reading -----

  function StripHead(s: string): string {
    if s != "" && s[0] == '"' then s[1..] else s
  }

  function StripTail(s: string): string {
    if s != "" && s[|s| - 1] == '"' then s[..|s| - 1] else s
  }

  /** One leading and one trailing double quote removed. */
  function StripQuotes(s: string): string {
    StripTail(StripHead(s))
  }

  function PartsOf(record: string): seq<string> {
    Split(StripQuotes(record), ';')
  }

  predicate HasEq(part: string) {
    '=' in part
  }

  /** The tag a part names: what stands before its first '=' (the whole part when there is none). */
  function KeyOf(part: string): string {
    Lower(Trim(part[..IndexOf(part, '=')]))
  }

  /** What stands after the first '='. */
  function ValueOf(part: string): string {
    var i := IndexOf(part, '=');
    if i < |part| then Trim(part[i + 1..]) else ""
  }

  predicate Names(part: string, k: string) {
    HasEq(part) && KeyOf(part) == k
  }

  /** The value of the first part that names `k`. */
  function Lookup(parts: seq<string>, k: string): Option<string> {
    if parts == [] then None
    else if Names(parts[0], k) then Some(ValueOf(parts[0]))
    else Lookup(parts[1..], k)
  }

  /** The published value of tag `k`; the empty name is no tag. */
  function Get(record: string, k: string): Option<string> {
    if k == "" then None else Lookup(PartsOf(record), k)
  }

  lemma {:induction false} LookupAppend(a: seq<string>, b: seq<string>, k: string)
    ensures Lookup(a + b, k) == if Lookup(a, k).Some? then Lookup(a, k) else Lookup(b, k)
  {
    if a == [] {
      assert a + b == b;
    } else {
      assert (a + b)[1..] == a[1..] + b;
      LookupAppend(a[1..], b, k);
    }
  }

  lemma LookupOne(part: string, k: string)
    ensures Lookup([part], k) == if Names(part, k) then Some(ValueOf(part)) else None
  {
  }

  lemma {:induction false} LookupAbsent(parts: seq<string>, k: string)
    ensures (forall i :: 0 <= i < |parts| ==> !Names(parts[i], k)) <==> Lookup(parts, k) == None
  {
    if parts != [] {
      LookupAbsent(parts[1..], k);
      assert forall i :: 0 <= i < |parts| - 1 ==> parts[1..][i] == parts[i + 1];
    }
  }

  /** `tags` holds exactly the first occurrences among `parts`. */
  ghost predicate Holds(tags: map<string, string>, parts: seq<string>) {
    "" !in tags
    && forall k :: k != "" ==> Lookup(parts, k) == if k in tags then Some(tags[k]) else None
  }

  /** What one turn of the parser's loop does to the map. */
  lemma StoreNext(tags: map<string, string>, parts: seq<string>, part: string)
    requires Holds(tags, parts)
    ensures !HasEq(part) || KeyOf(part) == "" || KeyOf(part) in tags ==> Holds(tags, parts + [part])
    ensures HasEq(part) && KeyOf(part) != "" && KeyOf(part) !in tags ==> Holds(tags[KeyOf(part) := ValueOf(part)], parts + [part])
  {
    hide KeyOf, ValueOf, HasEq;
    forall k ensures Lookup(parts + [part], k) ==
      if Lookup(parts, k).Some? then Lookup(parts, k) else if Names(part, k) then Some(ValueOf(part)) else None
    {
      LookupAppend(parts, [part], k);
      LookupOne(part, k);
    }
  }

  /** Every named part is stored once, the first occurrence winning. */
  method ParseDmarcTags(record: string) returns (tags: map<string, string>)
    ensures forall k :: k in tags <==> Get(record, k).Some?
    ensures forall k :: k in tags ==> Get(record, k) == Some(tags[k])
  {
    tags := map[];
    var parts := PartsOf(record);
    for n := 0 to |parts|
      invariant Holds(tags, parts[..n])
    {
      var part := parts[n];
      StoreNext(tags, parts[..n], part);
      assert parts[..n + 1] == parts[..n] + [part];
      IndexOfFirst(part, '=');
      var eq := IndexOf(part, '=');
      if eq == |part| {
        continue;
      }
      var k := Lower(Trim(part[..eq]));
      if k != "" && k !in tags {
        tags := tags[k := Trim(part[eq + 1..])];
      }
    }
    assert parts[..|parts|] == parts;
  }

  // ----- spaces around a part -----

  /** A named part is its tag's text, '=', and its value's text. */
  lemma NamedPart(a: string, b: string)
    requires '=' !in a
    ensures var part := a + ['='] + b; HasEq(part) && KeyOf(part) == Lower(Trim(a)) && ValueOf(part) == Trim(b)
  {
    hide Trim, Lower;
    IndexOfAt(a, '=', b);
    var part := a + ['='] + b;
    assert part[|a|] == '=' && part[..|a|] == a && part[|a| + 1..] == b;
  }

  lemma UnnamedPart(part: string)
    requires !HasEq(part)
    ensures KeyOf(part) == Lower(Trim(part)) && ValueOf(part) == ""
  {
    hide Trim, Lower;
    IndexOfFirst(part, '=');
    assert part[..|part|] == part;
  }

  /** Trimming a part changes neither its tag nor its value. */
  lemma TrimKeepsTag(part: string)
    ensures HasEq(Trim(part)) <==> HasEq(part)
    ensures KeyOf(Trim(part)) == KeyOf(part) && ValueOf(Trim(part)) == ValueOf(part)
  {
    hide KeyOf, ValueOf, TrimStart, TrimEnd, IndexOf;
    TrimIsTrimmed(part);
    if HasEq(part) {
      CutAt(part, '=');
      var a, b := part[..IndexOf(part, '=')], part[IndexOf(part, '=') + 1..];
      TrimStartBefore(a, '=', b);
      TrimEndAfter(TrimStart(a), '=', b);
      TrimStartCuts(a);
      NamedPart(a, b);
      NamedPart(TrimStart(a), TrimEnd(b));
      TrimAbsorbs(a);
      TrimAbsorbs(b);
    } else {
      UnnamedPart(part);
      UnnamedPart(Trim(part));
    }
  }

  lemma SpaceKeepsTag(part: string)
    ensures HasEq(" " + part) <==> HasEq(part)
    ensures KeyOf(" " + part) == KeyOf(part) && ValueOf(" " + part) == ValueOf(part)
  {
    assert (" " + part)[1..] == part;
    assert Trim(" " + part) == Trim(part);
    TrimKeepsTag(" " + part);
    TrimKeepsTag(part);
  }

  lemma {:induction false} LookupSpaced(parts: seq<string>, k: string)
    ensures Lookup(Spaced(parts), k) == Lookup(parts, k)
  {
    if parts != [] {
      SpaceKeepsTag(parts[0]);
      LookupSpaced(parts[1..], k);
      assert Spaced(parts) == [" " + parts[0]] + Spaced(parts[1..]);
    }
  }

  // ----- keeping the unmanaged parts -----

  /** The trimmed, non-blank parts whose tag is not in `managed`, in order. */
  function Kept(parts: seq<string>, managed: set<string>): seq<string> {
    if parts == [] then []
    else
      var p := Trim(parts[0]);
      if p != "" && KeyOf(p) !in managed then [p] + Kept(parts[1..], managed) else Kept(parts[1..], managed)
  }

  predicate WellKept(part: string, managed: set<string>) {
    IsLine(part) && Trimmed(part) && KeyOf(part) !in managed
  }

  lemma {:induction false} KeptAreWell(parts: seq<string>, managed: set<string>)
    requires forall i :: 0 <= i < |parts| ==> ';' !in parts[i]
    ensures forall i :: 0 <= i < |Kept(parts, managed)| ==> WellKept(Kept(parts, managed)[i], managed)
  {
    if parts != [] {
      TrimIsTrimmed(parts[0]);
      KeptAreWell(parts[1..], managed);
    }
  }

  /** Filtering loses exactly the managed tags. */
  lemma {:induction false} LookupKept(parts: seq<string>, managed: set<string>, k: string)
    ensures Lookup(Kept(parts, managed), k) == if k in managed then None else Lookup(parts, k)
  {
    if parts != [] {
      TrimKeepsTag(parts[0]);
      LookupKept(parts[1..], managed, k);
    }
  }

  // ----- printing and reading back -----

  /** The lines as the parser sees them when they are read back: the last one loses a trailing quote. */
  function Unquoted(lines: seq<string>): seq<string> {
    if lines == [] then [] else lines[..|lines| - 1] + [StripTail(lines[|lines| - 1])]
  }

  lemma StripTailOfJoin(lines: seq<string>)
    requires |lines| >= 1 && lines[|lines| - 1] != ""
    ensures StripTail(Join(lines, "; ")) == Join(Unquoted(lines), "; ")
  {
    hide Join, StripTail;
    var n := |lines| - 1;
    JoinEndsWithLast(lines, "; ");
    JoinEndsWithLast(Unquoted(lines), "; ");
    assert Unquoted(lines)[..n] == lines[..n];
    StripTailOfConcat(Join(lines[..n] + [""], "; "), lines[n]);
  }

  lemma StripTailOfConcat(head: string, last: string)
    requires last != ""
    ensures StripTail(head + last) == head + StripTail(last)
  {
  }

  predicate IsLine(s: string) {
    s != "" && ';' !in s
  }

  /** Joined lines, past the outer quotes: every tag has the value its first line gives it. */
  lemma ReparseBody(lines: seq<string>, k: string)
    requires |lines| >= 1 && lines[|lines| - 1] != ""
    requires forall i :: 0 <= i < |lines| ==> ';' !in lines[i]
    ensures Lookup(Split(StripTail(Join(lines, "; ")), ';'), k) == Lookup(Unquoted(lines), k)
  {
    hide Join, Split, Lookup, StripTail;
    StripTailOfJoin(lines);
    var u := Unquoted(lines);
    UnquotedParts(lines);
    SplitOfSpacedJoin(u);
    LookupSpaced(u[1..], k);
    assert [u[0]] + u[1..] == u;
    LookupAppend([u[0]], Spaced(u[1..]), k);
    LookupAppend([u[0]], u[1..], k);
  }

  lemma UnquotedParts(lines: seq<string>)
    requires |lines| >= 1 && forall i :: 0 <= i < |lines| ==> ';' !in lines[i]
    ensures |Unquoted(lines)| == |lines| && forall i :: 0 <= i < |lines| ==> ';' !in Unquoted(lines)[i]
  {
  }

  /** Reading back joined lines: every tag has the value its first line gives it. */
  lemma Reparse(lines: seq<string>, k: string)
    requires |lines| >= 1 && k != ""
    requires forall i :: 0 <= i < |lines| ==> IsLine(lines[i])
    requires lines[0] != "" && lines[0][0] != '"'
    ensures Get(Join(lines, "; "), k) == Lookup(Unquoted(lines), k)
  {
    hide Lookup, Split, StripTail, Unquoted;
    ReparseBody(lines, k);
    assert Join(lines, "; ") != "" && Join(lines, "; ")[0] == lines[0][0];
  }

  /** Stripping a trailing quote leaves a part's tag alone. */
  lemma StripTailKeepsKey(part: string, k: string)
    ensures Names(StripTail(part), k) <==> Names(part, k)
  {
    hide KeyOf, IndexOf;
    if HasEq(part) {
      CutAt(part, '=');
      var a, b := part[..IndexOf(part, '=')], part[IndexOf(part, '=') + 1..];
      assert StripTail(part) == a + ['='] + StripTail(b);
      NamedPart(a, b);
      NamedPart(a, StripTail(b));
    }
  }

  lemma StripTailShortensValue(part: string)
    requires HasEq(part) && part[|part| - 1] == '"'
    ensures ValueOf(StripTail(part)) != ValueOf(part)
  {
    hide ValueOf, Trim, IndexOf;
    CutAt(part, '=');
    var a, b := part[..IndexOf(part, '=')], part[IndexOf(part, '=') + 1..];
    var b' := b[..|b| - 1];
    assert StripTail(part) == a + ['='] + b' && b == b' + ['"'];
    NamedPart(a, b);
    NamedPart(a, b');
    TrimGrows(b', '"');
  }

  lemma LookupUnquoted(lines: seq<string>, k: string)
    requires lines != []
    ensures var n := |lines| - 1;
      Lookup(Unquoted(lines), k) ==
      if Lookup(lines[..n], k).None? && Names(lines[n], k) then Some(ValueOf(StripTail(lines[n]))) else Lookup(lines, k)
  {
    hide KeyOf, ValueOf, HasEq, StripTail;
    var n := |lines| - 1;
    StripTailKeepsKey(lines[n], k);
    assert lines == lines[..n] + [lines[n]];
    LookupAppend(lines[..n], [lines[n]], k);
    LookupAppend(lines[..n], [StripTail(lines[n])], k);
    LookupOne(lines[n], k);
    LookupOne(StripTail(lines[n]), k);
  }

  /**
   * The one way a printed record can change an unmanaged tag: the last kept part ends in a double quote and is the
   * first to name its tag. Read back, the quote is taken for the outer one.
   */
  predicate LosesQuote(kept: seq<string>) {
    |kept| > 0
    && var last := kept[|kept| - 1];
    last != "" && last[|last| - 1] == '"' && HasEq(last) && KeyOf(last) != "" && Lookup(kept[..|kept| - 1], KeyOf(last)).None?
  }

  lemma UnquotedKeeps(kept: seq<string>, k: string)
    requires kept != [] && k != "" && !LosesQuote(kept)
    ensures Lookup(Unquoted(kept), k) == Lookup(kept, k)
  {
    hide KeyOf, ValueOf, HasEq, Lookup;
    var n := |kept| - 1;
    LookupUnquoted(kept, k);
    assert kept == kept[..n] + [kept[n]];
    LookupAppend(kept[..n], [kept[n]], k);
    LookupOne(kept[n], k);
  }

  lemma UnquotedLoses(kept: seq<string>)
    requires LosesQuote(kept)
    ensures var k := KeyOf(kept[|kept| - 1]); Lookup(Unquoted(kept), k) != Lookup(kept, k)
  {
    hide KeyOf, ValueOf, HasEq, StripTail, Lookup, Unquoted;
    var n := |kept| - 1;
    var last := kept[n];
    var k := KeyOf(last);
    LookupUnquoted(kept, k);
    StripTailShortensValue(last);
    assert kept == kept[..n] + [last];
    LookupAppend(kept[..n], [last], k);
    LookupOne(last, k);
  }
}
