/**
 * DMARC staged rollout: none, quarantine with t=y, quarantine, reject with t=y, reject. Where a record stands is read
 * from its tags, the next step is planned, and the record for that step is printed.
 */
module Rollout {
  import opened Wrappers
  import opened Text
  import opened DmarcTags

  datatype RolloutPolicy = NoAction | Quarantine | Reject

  datatype RolloutStep = RolloutStep(policy: RolloutPolicy, testing: bool)

  const ROLLOUT_SEQUENCE: seq<RolloutStep> := [
    RolloutStep(NoAction, false),
    RolloutStep(Quarantine, true),
    RolloutStep(Quarantine, false),
    RolloutStep(Reject, true),
    RolloutStep(Reject, false)
  ]

  function Rank(p: RolloutPolicy): nat {
    match p case NoAction => 0 case Quarantine => 1 case Reject => 2
  }

  function Weaker(p: RolloutPolicy): RolloutPolicy {
    if p.Reject? then Quarantine else NoAction
  }

  function Show(p: RolloutPolicy): string {
    match p case NoAction => "none" case Quarantine => "quarantine" case Reject => "reject"
  }

  function AsPolicy(p: Option<string>): Option<RolloutPolicy> {
    if p.None? then None
    else
      var v := Lower(Trim(p.value));
      if v == "none" then Some(NoAction)
      else if v == "quarantine" then Some(Quarantine)
      else if v == "reject" then Some(Reject)
      else None
  }

  // ----- where a policy stands -----

  function FindStep(steps: seq<RolloutStep>, step: RolloutStep): int {
    if steps == [] then -1
    else if steps[0] == step then 0
    else
      var i := FindStep(steps[1..], step);
      if i == -1 then -1 else i + 1
  }

  predicate Partial(pct: Option<int>) {
    pct.Some? && 0 < pct.value < 100
  }

  /** Step of a published policy; -1 when it is not recognised. */
  function StepIndexFor(policy: Option<string>, pct: Option<int>, testing: bool): int {
    var p := AsPolicy(policy);
    if p.None? then if policy.None? then 0 else -1
    else if p.value.NoAction? then 0
    else FindStep(ROLLOUT_SEQUENCE, RolloutStep(p.value, pct == Some(0) || (testing && !Partial(pct))))
  }

  function PctOf(record: string): Option<int> {
    match Get(record, "pct") case None => None case Some(v) => ParseInt(v)
  }

  function TestingOf(record: string): bool {
    match Get(record, "t") case None => false case Some(v) => Lower(v) == "y"
  }

  function StepIndexForRecord(record: string): int {
    StepIndexFor(Get(record, "p"), PctOf(record), TestingOf(record))
  }

  lemma FindStepIndex(step: RolloutStep)
    ensures FindStep(ROLLOUT_SEQUENCE, step) ==
      match step
      case RolloutStep(NoAction, t) => if t then -1 else 0
      case RolloutStep(Quarantine, t) => if t then 1 else 2
      case RolloutStep(Reject, t) => if t then 3 else 4
  {
    var s := ROLLOUT_SEQUENCE;
    assert s[1..][0] == s[1] && s[1..][1..][0] == s[2] && s[1..][1..][1..][0] == s[3] && s[1..][1..][1..][1..][0] == s[4];
    assert s[1..][1..][1..][1..][1..] == [];
  }

  /** A recognised policy stands at a step that publishes it, and at a testing step only for t=y or pct=0. */
  lemma StepIndexMeaning(policy: Option<string>, pct: Option<int>, testing: bool)
    ensures var i := StepIndexFor(policy, pct, testing);
      && -1 <= i < |ROLLOUT_SEQUENCE|
      && (i == -1 <==> policy.Some? && AsPolicy(policy).None?)
      && (i != -1 ==> Some(ROLLOUT_SEQUENCE[i].policy) == if policy.None? then Some(NoAction) else AsPolicy(policy))
      && (i != -1 && ROLLOUT_SEQUENCE[i].testing ==> pct == Some(0) || (testing && !Partial(pct)))
      && (i > 0 && !ROLLOUT_SEQUENCE[i].testing ==> pct != Some(0) && (!testing || Partial(pct)))
  {
    var p := AsPolicy(policy);
    if p.Some? {
      FindStepIndex(RolloutStep(p.value, pct == Some(0) || (testing && !Partial(pct))));
    }
  }

  lemma ShownPolicy(p: RolloutPolicy)
    ensures Trim(Show(p)) == Show(p) && Lower(Show(p)) == Show(p) && AsPolicy(Some(Show(p))) == Some(p)
    ensures Show(p) != "" && ';' !in Show(p) && '"' !in Show(p)
  {
    hide Trim, Lower;
    TrimOfTrimmed(Show(p));
    LowerOfLower(Show(p));
  }

  // ----- effective policies -----

  /** The policy of the domain, of its subdomains and of names that do not exist. */
  datatype Surfaces = Surfaces(p: RolloutPolicy, sp: RolloutPolicy, np: RolloutPolicy)

  /** What a record publishes: an absent np inherits sp, which inherits p. */
  function Published(record: string): Surfaces {
    var p := Or(AsPolicy(Get(record, "p")), NoAction);
    var sp := Or(AsPolicy(Get(record, "sp")), p);
    Surfaces(p, sp, Or(AsPolicy(Get(record, "np")), sp))
  }

  /** What receivers apply: under t=y every surface counts one step weaker (testing mode of RFC 9989). */
  function Applied(record: string): Surfaces {
    var e := Published(record);
    if TestingOf(record) then Surfaces(Weaker(e.p), Weaker(e.sp), Weaker(e.np)) else e
  }

  predicate AtLeast(a: Surfaces, b: Surfaces) {
    Rank(a.p) >= Rank(b.p) && Rank(a.sp) >= Rank(b.sp) && Rank(a.np) >= Rank(b.np)
  }

  predicate TestingWouldWeaken(record: string, step: RolloutStep) {
    step.testing
    && var e := Published(record);
    var floor := Rank(Weaker(step.policy));
    Rank(e.p) > floor || Rank(e.sp) > floor || Rank(e.np) > floor
  }

  // ----- the plan -----

  datatype NextStepPlan = NextStepPlan(step: RolloutStep, dropsPartialPct: bool, skippedTesting: bool)

  /** The next step for a live record (None: no record yet). */
  function PlanNextStep(record: Option<string>): Option<NextStepPlan> {
    if record.None? then Some(NextStepPlan(ROLLOUT_SEQUENCE[1], false, false))
    else
      var idx := StepIndexForRecord(record.value);
      StepIndexMeaning(Get(record.value, "p"), PctOf(record.value), TestingOf(record.value));
      if idx == -1 then None
      else
        var current := ROLLOUT_SEQUENCE[idx];
        if !current.policy.NoAction? && Partial(PctOf(record.value)) then Some(NextStepPlan(current, true, false))
        else if idx == |ROLLOUT_SEQUENCE| - 1 then None
        else
          var candidate := ROLLOUT_SEQUENCE[idx + 1];
          if TestingWouldWeaken(record.value, candidate) then
            assert candidate.testing;
            Some(NextStepPlan(ROLLOUT_SEQUENCE[idx + 2], false, true))
          else Some(NextStepPlan(candidate, false, false))
  }

  // ----- the record of a step -----

  const MANAGED: set<string> := {"v", "p", "sp", "np", "t", "pct"}

  function Stricter(a: RolloutPolicy, b: RolloutPolicy): RolloutPolicy {
    if Rank(a) > Rank(b) then a else b
  }

  function ManagedLines(record: string, step: RolloutStep): seq<string> {
    var e := Published(record);
    ["v=DMARC1", "p=" + Show(step.policy), "sp=" + Show(Stricter(e.sp, step.policy)), "np=" + Show(Stricter(e.np, step.policy))]
    + (if step.testing then ["t=y"] else [])
  }

  function StepLines(record: string, step: RolloutStep): seq<string> {
    ManagedLines(record, step) + Kept(PartsOf(record), MANAGED)
  }

  /** The printed form of a step, whether or not the builder would refuse it. */
  function Printed(record: string, step: RolloutStep): string {
    Join(StepLines(record, step), "; ")
  }

  datatype StepError = WouldWeaken(policy: RolloutPolicy)

  /** The record a step publishes; refused when a testing step would weaken what is published. */
  function StepRecord(record: string, step: RolloutStep): Result<string, StepError> {
    if TestingWouldWeaken(record, step) then Err(WouldWeaken(step.policy)) else Ok(Printed(record, step))
  }

  method BuildStepRecord(existingRecord: string, step: RolloutStep) returns (r: Result<string, StepError>)
    ensures r == StepRecord(existingRecord, step)
    ensures r.Err? <==> step.testing && !AtLeast(Applied(Printed(existingRecord, step)), Published(existingRecord))
    ensures r.Ok? && step in ROLLOUT_SEQUENCE ==> StepIndexForRecord(r.value) == FindStep(ROLLOUT_SEQUENCE, step)
  {
    hide Join, Kept, Published, Show, Applied, StepIndexForRecord, FindStep;
    RefusesExactlyWeakening(existingRecord, step);
    if step in ROLLOUT_SEQUENCE {
      PrintedStands(existingRecord, step);
    }
    if TestingWouldWeaken(existingRecord, step) {
      return Err(WouldWeaken(step.policy));
    }
    var eff := Published(existingRecord);
    var out := ["v=DMARC1", "p=" + Show(step.policy),
                "sp=" + Show(if Rank(eff.sp) > Rank(step.policy) then eff.sp else step.policy),
                "np=" + Show(if Rank(eff.np) > Rank(step.policy) then eff.np else step.policy)];
    if step.testing {
      out := out + ["t=y"];
    }
    assert out == ManagedLines(existingRecord, step);
    r := Ok(Join(out + Kept(PartsOf(existingRecord), MANAGED), "; "));
  }

  /** The value a step record gives a managed tag. */
  function StepTag(record: string, step: RolloutStep, k: string): Option<string> {
    var e := Published(record);
    if k == "v" then Some("DMARC1")
    else if k == "p" then Some(Show(step.policy))
    else if k == "sp" then Some(Show(Stricter(e.sp, step.policy)))
    else if k == "np" then Some(Show(Stricter(e.np, step.policy)))
    else if k == "t" && step.testing then Some("y")
    else None
  }

  lemma LookupCons(head: string, tail: seq<string>, k: string)
    ensures Lookup([head] + tail, k) == if Names(head, k) then Some(ValueOf(head)) else Lookup(tail, k)
  {
    hide Names, ValueOf;
    assert ([head] + tail)[1..] == tail;
  }

  /** `name=v` answers for `name` and nothing else. */
  ghost predicate Says(line: string, name: string, v: string) {
    ValueOf(line) == v && forall k: string :: Names(line, k) <==> k == name
  }

  predicate IsName(name: string) {
    Trimmed(name) && IsLower(name) && '=' !in name
  }

  lemma LineSays(name: string, v: string)
    requires IsName(name)
    ensures Says(name + "=" + v, name, Trim(v))
  {
    hide ValueOf, KeyOf, Trim, Lower;
    TrimOfTrimmed(name);
    LowerOfLower(name);
    NamedPart(name, v);
  }

  lemma PolicyLineSays(name: string, p: RolloutPolicy)
    requires IsName(name)
    ensures Says(name + "=" + Show(p), name, Show(p))
  {
    hide Trim, Says;
    ShownPolicy(p);
    LineSays(name, Show(p));
  }

  lemma ManagedLinesSay(record: string, step: RolloutStep)
    ensures var e := Published(record); var lines := ManagedLines(record, step);
      && Says(lines[0], "v", "DMARC1")
      && Says(lines[1], "p", Show(step.policy))
      && Says(lines[2], "sp", Show(Stricter(e.sp, step.policy)))
      && Says(lines[3], "np", Show(Stricter(e.np, step.policy)))
      && (step.testing ==> Says(lines[4], "t", "y"))
  {
    hide Says, Published, Show, Stricter, Trim;
    var e := Published(record);
    TrimOfTrimmed("DMARC1");
    TrimOfTrimmed("y");
    LineSays("v", "DMARC1");
    assert "v" + "=" + "DMARC1" == "v=DMARC1";
    LineSays("t", "y");
    assert "t" + "=" + "y" == "t=y";
    assert "p" + "=" == "p=" && "sp" + "=" == "sp=" && "np" + "=" == "np=";
    PolicyLineSays("p", step.policy);
    PolicyLineSays("sp", Stricter(e.sp, step.policy));
    PolicyLineSays("np", Stricter(e.np, step.policy));
  }

  lemma LookupManagedLines(record: string, step: RolloutStep, k: string)
    ensures Lookup(ManagedLines(record, step), k) == StepTag(record, step, k)
  {
    hide Names, ValueOf, Show, Published, Stricter, Lookup;
    var lines := ManagedLines(record, step);
    ManagedLinesSay(record, step);
    var t := lines[4..];
    LookupCons(lines[0], [lines[1]] + ([lines[2]] + ([lines[3]] + t)), k);
    LookupCons(lines[1], [lines[2]] + ([lines[3]] + t), k);
    LookupCons(lines[2], [lines[3]] + t, k);
    LookupCons(lines[3], t, k);
    assert lines == [lines[0]] + ([lines[1]] + ([lines[2]] + ([lines[3]] + t)));
    if step.testing {
      assert t == [lines[4]];
      LookupOne(lines[4], k);
    } else {
      LookupNothing(k);
    }
  }

  lemma LookupNothing(k: string)
    ensures Lookup([], k) == None
  {
  }

  lemma PolicyLineIsLine(name: string, p: RolloutPolicy)
    requires IsLine(name)
    ensures IsLine(name + Show(p))
  {
    hide Show;
    ShownPolicy(p);
  }

  lemma StepLinesAreLines(record: string, step: RolloutStep)
    ensures forall i :: 0 <= i < |StepLines(record, step)| ==> IsLine(StepLines(record, step)[i])
    ensures StepLines(record, step)[0] == "v=DMARC1"
  {
    hide Published, Show, Kept, Stricter, KeyOf, IsLine, PartsOf;
    var e := Published(record);
    assert IsLine("v=DMARC1") && IsLine("t=y") && IsLine("p=") && IsLine("sp=") && IsLine("np=") by { LiteralLines(); }
    PolicyLineIsLine("p=", step.policy);
    PolicyLineIsLine("sp=", Stricter(e.sp, step.policy));
    PolicyLineIsLine("np=", Stricter(e.np, step.policy));
    var managed, kept := ManagedLines(record, step), Kept(PartsOf(record), MANAGED);
    assert forall i :: 0 <= i < |kept| ==> IsLine(kept[i]) by { KeptLines(record, MANAGED); }
  }

  lemma LiteralLines()
    ensures IsLine("v=DMARC1") && IsLine("t=y") && IsLine("p=") && IsLine("sp=") && IsLine("np=")
  {
  }

  lemma KeptLines(record: string, managed: set<string>)
    ensures forall i :: 0 <= i < |Kept(PartsOf(record), managed)| ==> WellKept(Kept(PartsOf(record), managed)[i], managed)
    ensures forall i :: 0 <= i < |Kept(PartsOf(record), managed)| ==> IsLine(Kept(PartsOf(record), managed)[i])
  {
    hide IsLine, Kept, KeyOf, Trimmed;
    SplitParts(StripQuotes(record), ';');
    KeptAreWell(PartsOf(record), managed);
    var kept := Kept(PartsOf(record), managed);
    assert forall i :: 0 <= i < |kept| ==> WellKept(kept[i], managed);
  }

  // ----- reading a step record back -----

  /** The unmanaged parts of a step record as they are read back. */
  function ReadBack(record: string): seq<string> {
    Unquoted(Kept(PartsOf(record), MANAGED))
  }

  lemma UnquotedManagedLines(record: string, step: RolloutStep)
    ensures Unquoted(ManagedLines(record, step)) == ManagedLines(record, step)
  {
    hide Published, Show, Stricter;
    var e := Published(record);
    ShownPolicy(Stricter(e.np, step.policy));
  }

  /** Every tag of a step record, read back: the managed ones say the step, the others what was kept. */
  lemma StepRecordTags(record: string, step: RolloutStep, k: string)
    requires k != ""
    ensures Get(Printed(record, step), k) ==
      if k in MANAGED then StepTag(record, step, k) else Lookup(ReadBack(record), k)
  {
    hide Lookup, StepTag, KeyOf, Published, Join, StripTail, Get;
    var managed, kept := ManagedLines(record, step), Kept(PartsOf(record), MANAGED);
    StepLinesAreLines(record, step);
    Reparse(StepLines(record, step), k);
    if kept == [] {
      assert managed + kept == managed;
      UnquotedManagedLines(record, step);
      LookupNothing(k);
    } else {
      assert Unquoted(managed + kept) == managed + Unquoted(kept);
      LookupAppend(managed, Unquoted(kept), k);
    }
    LookupManagedLines(record, step, k);
    SplitParts(StripQuotes(record), ';');
    KeptAreWell(PartsOf(record), MANAGED);
    if k in MANAGED {
      LookupUnquotedManaged(kept, k);
    } else {
      UnmanagedTag(record, step, k);
    }
  }

  lemma UnmanagedTag(record: string, step: RolloutStep, k: string)
    requires k !in MANAGED
    ensures StepTag(record, step, k) == None
  {
  }

  lemma LookupUnquotedManaged(kept: seq<string>, k: string)
    requires forall i :: 0 <= i < |kept| ==> WellKept(kept[i], MANAGED)
    requires k in MANAGED
    ensures Lookup(Unquoted(kept), k) == None
  {
    hide KeyOf, ValueOf, HasEq, StripTail, Lookup;
    LookupAbsent(kept, k);
    if kept != [] {
      LookupUnquoted(kept, k);
    } else {
      LookupNothing(k);
    }
  }

  // ----- what a step record publishes -----

  lemma PrintedTags(record: string, step: RolloutStep)
    ensures var out := Printed(record, step); var e := Published(record);
      && Get(out, "p") == Some(Show(step.policy))
      && Get(out, "sp") == Some(Show(Stricter(e.sp, step.policy)))
      && Get(out, "np") == Some(Show(Stricter(e.np, step.policy)))
      && Get(out, "t") == (if step.testing then Some("y") else None)
      && Get(out, "pct") == None
  {
    hide Get, Join, StepLines, Published, Show, Stricter;
    StepRecordTags(record, step, "p");
    StepRecordTags(record, step, "sp");
    StepRecordTags(record, step, "np");
    StepRecordTags(record, step, "t");
    StepRecordTags(record, step, "pct");
  }

  /** A step record publishes the step's policy, never less than before on sp and np, and carries no pct. */
  lemma PrintedPublishes(record: string, step: RolloutStep)
    ensures var out := Printed(record, step); var e := Published(record);
      && Published(out) == Surfaces(step.policy, Stricter(e.sp, step.policy), Stricter(e.np, step.policy))
      && TestingOf(out) == step.testing
      && PctOf(out) == None
  {
    hide Get, Printed, Show, Stricter, AsPolicy, Lower;
    var e := Published(record);
    PrintedTags(record, step);
    ShownPolicy(step.policy);
    ShownPolicy(Stricter(e.sp, step.policy));
    ShownPolicy(Stricter(e.np, step.policy));
    LowerOfLower("y");
  }

  /** Printing a step and reading where it stands gives that step back. */
  lemma PrintedStands(record: string, step: RolloutStep)
    requires step in ROLLOUT_SEQUENCE
    ensures ROLLOUT_SEQUENCE[FindStep(ROLLOUT_SEQUENCE, step)] == step
    ensures StepIndexForRecord(Printed(record, step)) == FindStep(ROLLOUT_SEQUENCE, step)
  {
    hide Get, Printed, Show, AsPolicy, FindStep;
    PrintedTags(record, step);
    PrintedPublishes(record, step);
    ShownPolicy(step.policy);
    FindStepIndex(step);
  }

  /** The builder refuses exactly the testing steps whose record would be applied weaker than what is published now. */
  lemma RefusesExactlyWeakening(record: string, step: RolloutStep)
    ensures StepRecord(record, step).Err? <==> step.testing && !AtLeast(Applied(Printed(record, step)), Published(record))
  {
    hide Published, TestingOf, Printed;
    PrintedPublishes(record, step);
  }

  /** At a recognised step, the published p= is the step's policy. */
  lemma PublishedAtStep(record: string)
    ensures var i := StepIndexForRecord(record);
      -1 <= i < |ROLLOUT_SEQUENCE| && (i != -1 ==> Published(record).p == ROLLOUT_SEQUENCE[i].policy)
  {
    hide Get, AsPolicy, PctOf, TestingOf, StepIndexFor;
    StepIndexMeaning(Get(record, "p"), PctOf(record), TestingOf(record));
    assert AsPolicy(None) == None by { NoPolicy(); }
  }

  /** What the planner picks: the same policy without its pct, the next step, or the one after a testing step. */
  lemma PlanMeaning(record: string, step: RolloutStep, i: int)
    requires PlanNextStep(Some(record)).Some? && PlanNextStep(Some(record)).value.step == step && i == StepIndexForRecord(record)
    ensures step in ROLLOUT_SEQUENCE && 0 <= i < |ROLLOUT_SEQUENCE|
    ensures Rank(step.policy) >= Rank(Published(record).p)
    ensures !TestingWouldWeaken(record, step)
    ensures FindStep(ROLLOUT_SEQUENCE, step) > i || (i > 0 && Partial(PctOf(record)) && FindStep(ROLLOUT_SEQUENCE, step) == i)
  {
    hide TestingOf, PctOf, Get, AsPolicy, StepIndexFor, Published, FindStep;
    StepIndexMeaning(Get(record, "p"), PctOf(record), TestingOf(record));
    PublishedAtStep(record);
    FindStepIndex(step);
    EnforcedNeverWeakens(record, step);
  }

  /**
   * The planner passes over nothing it need not: every step between where the record stands and the planned one is a
   * testing step that would weaken what is published. The two flags say which rule chose the step.
   */
  lemma PlanIsEarliest(record: string)
    requires PlanNextStep(Some(record)).Some?
    ensures var plan := PlanNextStep(Some(record)).value; var i := StepIndexForRecord(record); var j := FindStep(ROLLOUT_SEQUENCE, plan.step);
      && 0 <= i < |ROLLOUT_SEQUENCE| && 0 <= j < |ROLLOUT_SEQUENCE| && ROLLOUT_SEQUENCE[j] == plan.step
      && (plan.dropsPartialPct <==> i > 0 && Partial(PctOf(record)))
      && (plan.dropsPartialPct ==> j == i)
      && (!plan.dropsPartialPct ==> i < j <= i + 2 && forall m :: i < m < j ==> TestingWouldWeaken(record, ROLLOUT_SEQUENCE[m]))
      && (plan.skippedTesting <==> j == i + 2)
  {
    hide TestingOf, PctOf, Get, AsPolicy, StepIndexFor, Published, FindStep;
    StepIndexMeaning(Get(record, "p"), PctOf(record), TestingOf(record));
    FindStepIndex(PlanNextStep(Some(record)).value.step);
    SequenceShape();
  }

  lemma SequenceShape()
    ensures |ROLLOUT_SEQUENCE| == 5
    ensures ROLLOUT_SEQUENCE[0] == RolloutStep(NoAction, false) && ROLLOUT_SEQUENCE[1] == RolloutStep(Quarantine, true)
    ensures ROLLOUT_SEQUENCE[2] == RolloutStep(Quarantine, false) && ROLLOUT_SEQUENCE[3] == RolloutStep(Reject, true)
    ensures ROLLOUT_SEQUENCE[4] == RolloutStep(Reject, false)
  {
  }

  lemma EnforcedNeverWeakens(record: string, step: RolloutStep)
    ensures !step.testing ==> !TestingWouldWeaken(record, step)
  {
  }

  /**
   * Never weaken: a planned step is always built, and what receivers then apply is on every surface at least what the
   * record published before (and so at least what they applied before).
   */
  lemma NeverWeakens(record: string)
    requires PlanNextStep(Some(record)).Some?
    ensures var step := PlanNextStep(Some(record)).value.step;
      && step in ROLLOUT_SEQUENCE
      && StepRecord(record, step) == Ok(Printed(record, step))
      && AtLeast(Applied(Printed(record, step)), Published(record))
      && AtLeast(Published(record), Applied(record))
  {
    hide TestingOf, Printed, Published, PlanNextStep, StepIndexForRecord, FindStep, PctOf;
    var step := PlanNextStep(Some(record)).value.step;
    PlanMeaning(record, step, StepIndexForRecord(record));
    PrintedPublishes(record, step);
  }

  /** Without a record the rollout starts with quarantine in testing. */
  lemma FirstStep()
    ensures PlanNextStep(None) == Some(NextStepPlan(RolloutStep(Quarantine, true), false, false))
  {
  }

  lemma NoPolicy()
    ensures AsPolicy(None) == None
  {
  }

  // ----- the same on the tags themselves -----

  /** How strong the text of a policy tag is; None when it is no policy. */
  function TextRank(v: string): Option<nat> {
    var text := Lower(Trim(v));
    if text == "none" then Some(0) else if text == "quarantine" then Some(1) else if text == "reject" then Some(2) else None
  }

  /** The strength of the first of these tags that is there with a policy; 0 when none is. */
  function FirstRank(record: string, tags: seq<string>): nat {
    if tags == [] then 0
    else match Get(record, tags[0])
      case None => FirstRank(record, tags[1..])
      case Some(v) => if TextRank(v).Some? then TextRank(v).value else FirstRank(record, tags[1..])
  }

  /** Where the policy of each surface is looked for: names that do not exist, subdomains, the domain. */
  const NP_TAGS: seq<string> := ["np", "sp", "p"]
  const SP_TAGS: seq<string> := ["sp", "p"]
  const P_TAGS: seq<string> := ["p"]

  function Max(a: nat, b: nat): nat {
    if a > b then a else b
  }

  lemma RankOfText(v: Option<string>)
    ensures AsPolicy(v).Some? <==> v.Some? && TextRank(v.value).Some?
    ensures AsPolicy(v).Some? ==> Rank(AsPolicy(v).value) == TextRank(v.value).value
  {
    hide Lower, Trim;
  }

  lemma PublishedRanks(record: string)
    ensures var e := Published(record);
      Rank(e.p) == FirstRank(record, P_TAGS) && Rank(e.sp) == FirstRank(record, SP_TAGS) && Rank(e.np) == FirstRank(record, NP_TAGS)
  {
    hide Get, AsPolicy, TextRank;
    RankOfText(Get(record, "p"));
    RankOfText(Get(record, "sp"));
    RankOfText(Get(record, "np"));
    assert P_TAGS[1..] == [] && SP_TAGS[1..] == P_TAGS && NP_TAGS[1..] == SP_TAGS;
  }

  /** The tag of `out` reads as exactly that strength. */
  predicate Prints(out: string, tag: string, rank: nat) {
    var v := Get(out, tag);
    v.Some? && TextRank(v.value) == Some(rank)
  }

  /** A printed step carries its own policy, on sp and np the stricter of it and what was published there. */
  lemma PrintedRanks(record: string, step: RolloutStep)
    ensures var out := Printed(record, step);
      && Prints(out, "p", Rank(step.policy))
      && Prints(out, "sp", Max(Rank(step.policy), FirstRank(record, SP_TAGS)))
      && Prints(out, "np", Max(Rank(step.policy), FirstRank(record, NP_TAGS)))
      && Get(out, "t") == if step.testing then Some("y") else None
  {
    hide Get, Printed, Show, AsPolicy, TextRank, FirstRank, Published;
    PrintedTags(record, step);
    PublishedRanks(record);
    var e := Published(record);
    ShownRank(step.policy);
    ShownRank(Stricter(e.sp, step.policy));
    ShownRank(Stricter(e.np, step.policy));
  }

  lemma ShownRank(p: RolloutPolicy)
    ensures TextRank(Show(p)) == Some(Rank(p))
  {
    hide AsPolicy, TextRank, Show;
    ShownPolicy(p);
    RankOfText(Some(Show(p)));
  }

  /** The tag reads as a policy, and what receivers apply of it (one step less under t=y, down to none) is at least that. */
  predicate AppliesAtLeast(out: string, tag: string, floor: nat) {
    var v := Get(out, tag);
    v.Some? && TextRank(v.value).Some?
    && (floor == 0 || TextRank(v.value).value >= floor + if Get(out, "t") == Some("y") then 1 else 0)
  }

  predicate KeepsStrength(record: string, out: string) {
    AppliesAtLeast(out, "p", FirstRank(record, P_TAGS)) && AppliesAtLeast(out, "sp", FirstRank(record, SP_TAGS))
    && AppliesAtLeast(out, "np", FirstRank(record, NP_TAGS))
  }

  /** A step is refused exactly when its printed record would be applied weaker, on some surface, than what the tags say now. */
  lemma RefusesOnTags(record: string, step: RolloutStep)
    ensures StepRecord(record, step).Err? <==> step.testing && !KeepsStrength(record, Printed(record, step))
  {
    hide Get, Printed, TextRank, FirstRank, Published;
    PrintedRanks(record, step);
    PublishedRanks(record);
  }

  /** Under t=y the printed policy is one step above, also over none. */
  predicate OneAbove(record: string, out: string) {
    PrintsAbove(out, "p", FirstRank(record, P_TAGS)) && PrintsAbove(out, "sp", FirstRank(record, SP_TAGS))
    && PrintsAbove(out, "np", FirstRank(record, NP_TAGS))
  }

  predicate PrintsAbove(out: string, tag: string, floor: nat) {
    var v := Get(out, tag);
    v.Some? && TextRank(v.value).Some? && TextRank(v.value).value > floor
  }

  /** A planned step is built, and nothing the tags of the record say is applied weaker afterwards. */
  lemma TagsNeverWeaken(record: string)
    requires PlanNextStep(Some(record)).Some?
    ensures var step := PlanNextStep(Some(record)).value.step; var out := Printed(record, step);
      && StepRecord(record, step) == Ok(out)
      && KeepsStrength(record, out)
      && (Get(out, "t") == Some("y") ==> OneAbove(record, out))
      && (Get(out, "t") == Some("y") <==> step.testing)
  {
    hide Get, Printed, TextRank, FirstRank, Published, Applied, PlanNextStep, KeepsStrength, OneAbove, StepIndexForRecord;
    NeverWeakens(record);
    var step := PlanNextStep(Some(record)).value.step;
    PrintedRanks(record, step);
    SequenceShape();
    StepKeeps(record, step);
  }

  lemma StepKeeps(record: string, step: RolloutStep)
    requires AtLeast(Applied(Printed(record, step)), Published(record)) && step in ROLLOUT_SEQUENCE
    ensures KeepsStrength(record, Printed(record, step)) && (step.testing ==> OneAbove(record, Printed(record, step)))
  {
    hide Get, Printed, TextRank, FirstRank, Published, TestingOf;
    SequenceShape();
    PrintedRanks(record, step);
    PublishedRanks(record);
    PrintedPublishes(record, step);
  }

  /**
   * Unmanaged tags: every one keeps its first value, for every record and step, unless the last kept part ends in a
   * double quote and is the first of its tag. Then that tag changes.
   */
  lemma KeepsUnmanagedTags(record: string, step: RolloutStep)
    ensures (forall k :: k != "" && k !in MANAGED ==> Get(Printed(record, step), k) == Get(record, k))
      <==> !LosesQuote(Kept(PartsOf(record), MANAGED))
  {
    hide Lookup, Kept, KeyOf, Printed, HasEq;
    var kept := Kept(PartsOf(record), MANAGED);
    if LosesQuote(kept) {
      KeptLines(record, MANAGED);
      LosingKey(kept);
      var k := KeyOf(kept[|kept| - 1]);
      StepRecordTags(record, step, k);
      LookupKept(PartsOf(record), MANAGED, k);
      UnquotedLoses(kept);
    } else {
      forall k | k != "" && k !in MANAGED ensures Get(Printed(record, step), k) == Get(record, k) {
        StepRecordTags(record, step, k);
        LookupKept(PartsOf(record), MANAGED, k);
        if kept != [] {
          UnquotedKeeps(kept, k);
        }
      }
    }
  }

  lemma LosingKey(kept: seq<string>)
    requires LosesQuote(kept) && forall i :: 0 <= i < |kept| ==> WellKept(kept[i], MANAGED)
    ensures var k := KeyOf(kept[|kept| - 1]); k != "" && k !in MANAGED
  {
    hide KeyOf, Lookup;
    assert WellKept(kept[|kept| - 1], MANAGED);
  }

  // ----- convergence -----

  /** One turn of the rollout: plan, build. None when there is no next step. */
  function Advance(record: string): Option<string> {
    var plan := PlanNextStep(Some(record));
    if plan.None? then None
    else match StepRecord(record, plan.value.step) case Ok(out) => Some(out) case Err(_) => None
  }

  /** Applications still to come, counting the one that drops a partial pct. */
  function StepsLeft(record: string): nat {
    var i := StepIndexForRecord(record);
    if i < 0 || i > 4 then 0 else 4 - i + if i > 0 && Partial(PctOf(record)) then 1 else 0
  }

  lemma StepsLeftBound(record: string)
    ensures StepsLeft(record) <= 4
  {
    StepIndexMeaning(Get(record, "p"), PctOf(record), TestingOf(record));
  }

  predicate FullyEnforced(record: string) {
    Get(record, "p") == Some("reject") && Get(record, "sp") == Some("reject") && Get(record, "np") == Some("reject")
    && Get(record, "t").None? && Get(record, "pct").None?
  }

  /** Every application moves on, and the one that reaches the last step enforces on every surface. */
  lemma AdvanceProgress(record: string, next: string)
    ensures Advance(record) == Some(next) ==>
      && StepsLeft(next) < StepsLeft(record)
      && StepIndexForRecord(next) != -1
      && (Advance(next).None? ==> FullyEnforced(next))
  {
    if Advance(record) == Some(next) {
      AppliedProgress(record);
    }
  }

  lemma AppliedProgress(record: string)
    requires PlanNextStep(Some(record)).Some?
    ensures var next := Printed(record, PlanNextStep(Some(record)).value.step);
      && Advance(record) == Some(next)
      && StepsLeft(next) < StepsLeft(record)
      && StepIndexForRecord(next) != -1
      && (Advance(next).None? ==> FullyEnforced(next))
  {
    hide Get, TestingOf, Printed, Published, StepIndexForRecord, PlanNextStep, StepRecord, FindStep, PctOf;
    var step := PlanNextStep(Some(record)).value.step;
    var next := Printed(record, step);
    NeverWeakens(record);
    PlanMeaning(record, step, StepIndexForRecord(record));
    PrintedTags(record, step);
    PrintedPublishes(record, step);
    PrintedStands(record, step);
    FindStepIndex(step);
    NoPlanMeaning(next);
    if PlanNextStep(Some(next)).Some? {
      PlannedAdvances(next);
    }
  }

  /** A planned step is applied. */
  lemma PlannedAdvances(record: string)
    ensures Advance(record) ==
      var plan := PlanNextStep(Some(record)); if plan.Some? then Some(Printed(record, plan.value.step)) else None
  {
    hide PlanNextStep, Printed, Applied, Published;
    if PlanNextStep(Some(record)).Some? {
      NeverWeakens(record);
    }
  }

  /** There is no next step only for an unrecognised policy or at full enforcement. */
  lemma NoPlanMeaning(record: string)
    ensures PlanNextStep(Some(record)).None? <==>
      StepIndexForRecord(record) == -1 || (StepIndexForRecord(record) == 4 && !Partial(PctOf(record)))
  {
    hide Get, TestingOf, AsPolicy, PctOf, StepIndexFor, TestingWouldWeaken;
    StepIndexMeaning(Get(record, "p"), PctOf(record), TestingOf(record));
  }

  /** The records a rollout goes through after `record`. */
  function Rollouts(record: string): seq<string>
    decreases StepsLeft(record)
  {
    match Advance(record)
    case None => []
    case Some(next) =>
      AdvanceProgress(record, next);
      [next] + Rollouts(next)
  }

  /** A rollout ends after at most four applications; if it applied any, every surface ends at reject, no t, no pct. */
  lemma {:induction false} Converges(record: string)
    ensures |Rollouts(record)| <= StepsLeft(record) <= 4
    ensures Rollouts(record) == [] ==> Advance(record) == None
    ensures var all := Rollouts(record);
      all != [] ==> FullyEnforced(all[|all| - 1]) && Advance(all[|all| - 1]) == None
    decreases StepsLeft(record)
  {
    hide StepsLeft, Advance, FullyEnforced;
    StepsLeftBound(record);
    match Advance(record)
    case None =>
    case Some(next) =>
      AdvanceProgress(record, next);
      Converges(next);
      assert Rollouts(record) == [next] + Rollouts(next);
  }

  /** Along the whole rollout nothing that was published at the start is ever applied weaker. */
  lemma {:induction false} NeverWeakensAlong(record: string, i: nat)
    ensures i < |Rollouts(record)| ==> AtLeast(Applied(Rollouts(record)[i]), Published(record))
    decreases i
  {
    hide Printed, Applied, Published, TestingOf, PlanNextStep, StepRecord;
    if i >= |Rollouts(record)| {
      return;
    }
    var next := Advance(record).value;
    NeverWeakens(record);
    if i > 0 {
      NeverWeakensAlong(next, i - 1);
      AppliedWeaker(next);
      AtLeastTransitive(Applied(Rollouts(record)[i]), Published(next), Applied(next));
      AtLeastTransitive(Applied(Rollouts(record)[i]), Applied(next), Published(record));
    }
  }

  lemma AppliedWeaker(record: string)
    ensures AtLeast(Published(record), Applied(record))
  {
    hide Get, AsPolicy, TestingOf;
  }

  lemma AtLeastTransitive(a: Surfaces, b: Surfaces, c: Surfaces)
    requires AtLeast(a, b) && AtLeast(b, c)
    ensures AtLeast(a, c)
  {
  }

  /** Along the whole rollout no surface is ever applied weaker than what the tags said at the start. */
  lemma TagsNeverWeakenAlong(record: string, i: nat)
    requires i < |Rollouts(record)|
    ensures KeepsStrength(record, Rollouts(record)[i])
  {
    hide Get, Printed, TextRank, FirstRank, Published, Applied, Rollouts;
    NeverWeakensAlong(record, i);
    RolloutIsPrinted(record, i);
    AppliedOnTags(record, Rollouts(record)[i]);
  }

  /** Every record of a rollout is a printed one. */
  ghost predicate IsPrinted(out: string) {
    exists record, step :: step in ROLLOUT_SEQUENCE && out == Printed(record, step)
  }

  lemma {:induction false} RolloutIsPrinted(record: string, i: nat)
    requires i < |Rollouts(record)|
    ensures IsPrinted(Rollouts(record)[i])
    decreases i
  {
    hide Printed, PlanNextStep, Advance;
    PlannedAdvances(record);
    NeverWeakens(record);
    if i > 0 {
      RolloutIsPrinted(Advance(record).value, i - 1);
    }
  }

  lemma AppliedOnTags(record: string, out: string)
    requires IsPrinted(out) && AtLeast(Applied(out), Published(record))
    ensures KeepsStrength(record, out)
  {
    hide Get, Printed, TextRank, FirstRank, Published, TestingOf;
    var was, step :| step in ROLLOUT_SEQUENCE && out == Printed(was, step);
    PrintedRanks(was, step);
    PrintedPublishes(was, step);
    PublishedRanks(was);
    PublishedRanks(record);
  }

  // ----- stored recommendations -----

  /** The domains table keeps a step as its policy and a marker: 0 testing, 100 enforced. */
  function ToStored(step: RolloutStep): (string, int) {
    (Show(step.policy), if step.testing then 0 else 100)
  }

  function StepIndexFromStored(policy: Option<string>, pct: Option<int>): int {
    if policy.None? || policy.value == "" || pct.None? then -1
    else if pct.value == 0 then StepIndexFor(policy, None, true)
    else StepIndexFor(policy, pct, false)
  }

  /** Nothing stored, or no policy, is no step. */
  lemma StoredIsStep(policy: Option<string>, pct: Option<int>)
    ensures var i := StepIndexFromStored(policy, pct);
      -1 <= i <= 4 && (i == -1 <==> pct.None? || policy.None? || policy.value == "" || AsPolicy(policy).None?)
  {
    StepIndexMeaning(policy, None, true);
    StepIndexMeaning(policy, pct, false);
  }

  /** Storing a step of the sequence and reading it back gives that step. */
  lemma StoredRoundTrip(step: RolloutStep)
    requires step in ROLLOUT_SEQUENCE
    ensures var (policy, pct) := ToStored(step);
      && StepIndexFromStored(Some(policy), Some(pct)) == FindStep(ROLLOUT_SEQUENCE, step)
      && (step.testing ==> pct == 0) && (!step.testing ==> pct == 100)
  {
    hide FindStep, AsPolicy, Show;
    ShownPolicy(step.policy);
    FindStepIndex(step);
  }
}
