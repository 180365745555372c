/**
 * Where a domain stands when only the stored policy and pct are known: the record they stand for, printed by
 * `recordFromStored`, must read back as the step the stored values mean.
 */
module Readiness {
  import opened Wrappers
  import opened Text
  import opened DmarcTags
  import opened Rollout

  /** The part after p=, if any: t=y for the testing marker, a partial pct as it is. */
  function Suffix(policy: string, pct: Option<int>): seq<string> {
    if policy == "none" || pct.None? then []
    else if pct.value == 0 then ["t=y"]
    else if 0 < pct.value < 100 then ["pct=" + Decimal(pct.value)]
    else []
  }

  function StoredLines(policy: string, pct: Option<int>): seq<string> {
    ["v=DMARC1", "p=" + policy] + Suffix(policy, pct)
  }

  /** The stored policy as a record; None when there is none. */
  function RecordOf(policy: Option<string>, pct: Option<int>): Option<string> {
    if policy.None? || policy.value == "" then None else Some(Join(StoredLines(policy.value, pct), "; "))
  }

  method RecordFromStored(policy: Option<string>, pct: Option<int>) returns (record: Option<string>)
    ensures record == RecordOf(policy, pct)
    ensures record.Some? ==>
      (StepIndexForRecord(record.value) == StoredIndex(policy.value, pct)
       <==> AsPolicy(policy).Some? || AsPolicy(Some(Piece(policy.value, pct))).None?)
  {
    hide StepIndexForRecord, StoredIndex, AsPolicy, Piece, Decimal, Join;
    if policy.None? || policy.value == "" {
      return None;
    }
    var tags := ["v=DMARC1", "p=" + policy.value];
    if policy.value != "none" {
      if pct == Some(0) {
        tags := tags + ["t=y"];
      } else if pct.Some? && 0 < pct.value < 100 {
        tags := tags + ["pct=" + Decimal(pct.value)];
      }
    }
    assert tags == StoredLines(policy.value, pct);
    record := Some(Join(tags, "; "));
    StoredAndRecordAgree(policy.value, pct);
  }

  /** What the parser takes for the policy: the stored text up to a semicolon, a final quote taken for the outer one. */
  function Piece(policy: string, pct: Option<int>): string {
    Split(StripTail(Tail(policy, pct)), ';')[0]
  }

  /** The text after "v=DMARC1; p=". */
  function Tail(policy: string, pct: Option<int>): string {
    var suffix := Suffix(policy, pct);
    if suffix == [] then policy else policy + "; " + suffix[0]
  }

  lemma StripStored(tail: string)
    requires tail != ""
    ensures StripQuotes("v=DMARC1; p=" + tail) == "v=DMARC1" + [';'] + (" p=" + StripTail(tail))
  {
    assert "v=DMARC1; p=" == "v=DMARC1" + [';'] + " p=";
    StripTailOfConcat("v=DMARC1; p=", tail);
  }

  lemma StoredParts(x: string)
    ensures Split("v=DMARC1" + [';'] + (" p=" + x), ';') == ["v=DMARC1"] + ([" p=" + Split(x, ';')[0]] + Split(x, ';')[1..])
  {
    hide Split;
    SplitAt("v=DMARC1", ';', " p=" + x);
    SplitPrepend(" p=", x, ';');
  }

  lemma StoredLookup(first: string, rest: seq<string>)
    ensures Lookup(["v=DMARC1"] + ([" p=" + first] + rest), "p") == Some(Trim(first))
  {
    hide Lookup, Trim, Says, Names;
    LookupCons("v=DMARC1", [" p=" + first] + rest, "p");
    LookupCons(" p=" + first, rest, "p");
    LineSays("v", "DMARC1");
    LineSays("p", first);
    assert "v" + "=" + "DMARC1" == "v=DMARC1" && " " + ("p" + "=" + first) == " p=" + first;
    SpaceKeepsTag("p" + "=" + first);
    SaysOnly("v=DMARC1", "v", Trim("DMARC1"), "p");
    SaysOnly("p" + "=" + first, "p", Trim(first), "p");
    NamesSpaced("p" + "=" + first, "p");
  }

  lemma SaysOnly(line: string, name: string, v: string, k: string)
    requires Says(line, name, v)
    ensures ValueOf(line) == v && (Names(line, k) <==> k == name)
  {
  }

  lemma NamesSpaced(line: string, k: string)
    ensures Names(" " + line, k) <==> Names(line, k)
  {
    hide KeyOf;
    SpaceKeepsTag(line);
  }

  lemma PolicyTag(policy: string, pct: Option<int>)
    requires policy != ""
    ensures Get(Join(StoredLines(policy, pct), "; "), "p") == Some(Trim(Piece(policy, pct)))
  {
    hide Trim, Split, Lookup, StripQuotes, StripTail, Tail;
    var tail := Tail(policy, pct);
    StoredText(policy, pct);
    StripStored(tail);
    var x := Split(StripTail(tail), ';');
    StoredParts(StripTail(tail));
    StoredLookup(x[0], x[1..]);
  }

  lemma SuffixShape(policy: string, pct: Option<int>)
    ensures |Suffix(policy, pct)| <= 1
    ensures forall i :: 0 <= i < |Suffix(policy, pct)| ==> IsLine(Suffix(policy, pct)[i])
    ensures Suffix(policy, pct) != [] ==> var s := Suffix(policy, pct)[0]; s[|s| - 1] != '"'
  {
    if pct.Some? && 0 < pct.value < 100 {
      DecimalDigits(pct.value);
    }
  }

  lemma StoredText(policy: string, pct: Option<int>)
    requires policy != ""
    ensures Tail(policy, pct) != "" && Join(StoredLines(policy, pct), "; ") == "v=DMARC1; p=" + Tail(policy, pct)
  {
    hide Suffix;
    SuffixShape(policy, pct);
    var suffix := Suffix(policy, pct);
    var lines := StoredLines(policy, pct);
    JoinCons("v=DMARC1", ["p=" + policy] + suffix, "; ");
    assert lines == ["v=DMARC1"] + (["p=" + policy] + suffix);
    if suffix == [] {
      assert ["p=" + policy] + suffix == ["p=" + policy];
    } else {
      JoinCons("p=" + policy, suffix, "; ");
      assert suffix == [suffix[0]];
    }
    assert "v=DMARC1" + "; " + "p=" == "v=DMARC1; p=";
  }

  /** A recognised policy is plain text: it reads back as itself. */
  lemma RecognisedIsPlain(policy: string)
    requires AsPolicy(Some(policy)).Some?
    ensures policy != "" && ';' !in policy && '"' !in policy
  {
    var t := Trim(policy);
    assert Lower(t) in {"none", "quarantine", "reject"};
    assert forall i :: 0 <= i < |t| ==> Lower(t)[i] == LowerChar(t[i]);
    if ';' in policy {
      TrimHasSolid(policy, ';');
    }
    if '"' in policy {
      TrimHasSolid(policy, '"');
    }
  }

  lemma TrimHasSolid(s: string, c: char)
    requires !IsSpace(c) && c in s
    ensures c in Trim(s)
  {
    CutAt(s, c);
    var i := IndexOf(s, c);
    TrimStartBefore(s[..i], c, s[i + 1..]);
    TrimEndAfter(TrimStart(s[..i]), c, s[i + 1..]);
  }

  lemma PieceOfPlain(policy: string, pct: Option<int>)
    requires policy != "" && ';' !in policy && '"' !in policy
    ensures Piece(policy, pct) == policy
  {
    hide Suffix;
    var suffix := Suffix(policy, pct);
    SuffixShape(policy, pct);
    if suffix == [] {
      SplitParts(policy, ';');
    } else {
      var s := policy + "; " + suffix[0];
      assert s[|s| - 1] == suffix[0][|suffix[0]| - 1];
      assert s == policy + [';'] + (" " + suffix[0]);
      SplitAt(policy, ';', " " + suffix[0]);
    }
  }

  lemma StoredLinesReparse(policy: string, pct: Option<int>, k: string)
    requires policy != "" && ';' !in policy && '"' !in policy && k != ""
    ensures Get(Join(StoredLines(policy, pct), "; "), k) == Lookup(StoredLines(policy, pct), k)
  {
    hide Join, Lookup, Get, Suffix;
    SuffixShape(policy, pct);
    var lines := StoredLines(policy, pct);
    assert Unquoted(lines) == lines;
    Reparse(lines, k);
  }

  lemma LineIsSilent(name: string, v: string, k: string)
    requires IsName(name) && k != name
    ensures !Names(name + "=" + v, k)
  {
    hide Names, Says, IsName;
    LineSays(name, v);
    SaysOnly(name + "=" + v, name, Trim(v), k);
  }

  /** Only the suffix speaks for t and pct. */
  lemma SuffixLookup(policy: string, pct: Option<int>, k: string)
    requires policy != "" && ';' !in policy && '"' !in policy && k in {"t", "pct"}
    ensures Get(Join(StoredLines(policy, pct), "; "), k) == Lookup(Suffix(policy, pct), k)
  {
    hide Join, Lookup, Get, Suffix, Names, ValueOf;
    var s := Suffix(policy, pct);
    StoredLinesReparse(policy, pct, k);
    LookupCons("v=DMARC1", ["p=" + policy] + s, k);
    LookupCons("p=" + policy, s, k);
    assert StoredLines(policy, pct) == ["v=DMARC1"] + (["p=" + policy] + s);
    assert "v" + "=" + "DMARC1" == "v=DMARC1" && "p" + "=" + policy == "p=" + policy;
    LineIsSilent("v", "DMARC1", k);
    LineIsSilent("p", policy, k);
  }

  lemma LookupTestingSuffix()
    ensures Lookup(["t=y"], "t") == Some("y") && Lookup(["t=y"], "pct") == None && Lower("y") == "y"
  {
    hide Lookup, Trim, Says, Names, ValueOf, Lower;
    LineSays("t", "y");
    TrimOfTrimmed("y");
    LowerOfLower("y");
    assert "t" + "=" + "y" == "t=y";
    LookupOne("t=y", "t");
    LookupOne("t=y", "pct");
    SaysOnly("t=y", "t", "y", "t");
    SaysOnly("t=y", "t", "y", "pct");
  }

  lemma LookupPctSuffix(n: nat)
    ensures var line := "pct=" + Decimal(n); Lookup([line], "pct") == Some(Decimal(n)) && Lookup([line], "t") == None
    ensures ParseInt(Decimal(n)) == Some(n)
  {
    hide Lookup, Trim, Says, Names, ValueOf, Decimal;
    var line := "pct=" + Decimal(n);
    DecimalDigits(n);
    LineSays("pct", Decimal(n));
    TrimOfTrimmed(Decimal(n));
    assert "pct" + "=" + Decimal(n) == line;
    LookupOne(line, "t");
    LookupOne(line, "pct");
    SaysOnly(line, "pct", Decimal(n), "t");
    SaysOnly(line, "pct", Decimal(n), "pct");
    ParseIntOfDecimal(n);
  }

  lemma SuffixTags(policy: string, pct: Option<int>)
    requires policy != "" && ';' !in policy && '"' !in policy
    ensures var record := Join(StoredLines(policy, pct), "; ");
      && TestingOf(record) == (policy != "none" && pct == Some(0))
      && PctOf(record) == if policy != "none" && Partial(pct) then pct else None
  {
    hide Join, Lookup, Get, Lower, StoredLines, ParseInt, Decimal;
    SuffixLookup(policy, pct, "t");
    SuffixLookup(policy, pct, "pct");
    LookupNothing("t");
    LookupNothing("pct");
    LookupTestingSuffix();
    if Partial(pct) {
      LookupPctSuffix(pct.value);
    }
  }

  function StoredIndex(policy: string, pct: Option<int>): int {
    StepIndexFromStored(Some(policy), Some(Or(pct, 100)))
  }

  lemma AsPolicyTrims(s: string)
    ensures AsPolicy(Some(Trim(s))) == AsPolicy(Some(s))
  {
    TrimIsTrimmed(s);
  }

  lemma NoneIsNoAction(policy: string)
    ensures policy == "none" ==> AsPolicy(Some(policy)) == Some(NoAction)
  {
    ShownPolicy(NoAction);
  }

  /**
   * The printed record stands at the stored step, unless the stored text is no policy but what the parser cuts out of
   * it is one ("none;x", or a policy followed by a double quote). Then the two disagree.
   */
  lemma StoredAndRecordAgree(policy: string, pct: Option<int>)
    requires policy != ""
    ensures var record := RecordOf(Some(policy), pct).value;
      StepIndexForRecord(record) == StoredIndex(policy, pct)
      <==> AsPolicy(Some(policy)).Some? || AsPolicy(Some(Piece(policy, pct))).None?
  {
    hide Piece, Get, Join, AsPolicy, PctOf, TestingOf, FindStep;
    var record := RecordOf(Some(policy), pct).value;
    PolicyTag(policy, pct);
    AsPolicyTrims(Piece(policy, pct));
    StepIndexMeaning(Get(record, "p"), PctOf(record), TestingOf(record));
    StepIndexMeaning(Some(policy), Some(Or(pct, 100)), false);
    StepIndexMeaning(Some(policy), None, true);
    if AsPolicy(Some(policy)).Some? {
      RecognisedIsPlain(policy);
      PieceOfPlain(policy, pct);
      SuffixTags(policy, pct);
      NoneIsNoAction(policy);
    }
  }

  /** For stored text without a semicolon or a double quote they always agree. */
  lemma PlainStoredAgrees(policy: string, pct: Option<int>)
    requires policy != "" && ';' !in policy && '"' !in policy
    ensures StepIndexForRecord(RecordOf(Some(policy), pct).value) == StoredIndex(policy, pct)
  {
    hide Piece, AsPolicy, StepIndexForRecord, StoredIndex;
    PieceOfPlain(policy, pct);
    StoredAndRecordAgree(policy, pct);
  }

  /** One stored text on which they disagree. */
  lemma StoredDisagrees()
    ensures StepIndexForRecord(RecordOf(Some("none;x"), None).value) != StoredIndex("none;x", None)
  {
    hide Trim, Lower, StepIndexForRecord, StoredIndex, Split;
    assert Piece("none;x", None) == "none" by {
      assert StripTail(Tail("none;x", None)) == "none" + [';'] + "x";
      SplitAt("none", ';', "x");
    }
    ShownPolicy(NoAction);
    TrimOfTrimmed("none;x");
    LowerOfLower("none;x");
    StoredAndRecordAgree("none;x", None);
  }
}
