/**
 * How long a run may live before two emails can come closer than a day: the catch-up interval is the exact bound, and a
 * second more if all runs have a booking link or none has.
 */
module SequenceLifeBound {
  import opened Wrappers
  import opened Leads
  import opened Sequence
  import opened SequenceSpacing

  /** Runs younger than `life` always keep a day between two emails to one lead. */
  ghost predicate KeepsADayApart(life: nat) {
    forall s, events :: Fresh(s) && AlwaysPrompt(s, events, life) && After(s, events).Some? ==> DayApart(After(s, events).value)
  }

  // ----- a trace, kept prompt -----

  lemma {:induction false} PromptSnoc(s: State, events: seq<Event>, e: Event, life: nat)
    requires AlwaysPrompt(s, events, life) && After(s, events).Some?
    requires Step(After(s, events).value, e).Some? ==> PromptWithin(Step(After(s, events).value, e).value, life)
    ensures AlwaysPrompt(s, events + [e], life)
    decreases |events|
  {
    hide Step, PromptWithin;
    if events == [] {
      assert [] + [e] == [e] && [e][1..] == [];
      assert Step(s, e).Some? ==> AlwaysPrompt(Step(s, e).value, [], life);
    } else {
      assert (events + [e])[1..] == events[1..] + [e];
      PromptSnoc(Step(s, events[0]).value, events[1..], e, life);
    }
  }

  /** A trace that has been prompt so far and has reached `s`. */
  ghost predicate Reaches(start: State, events: seq<Event>, s: State, life: nat) {
    After(start, events) == Some(s) && AlwaysPrompt(start, events, life)
  }

  lemma Next(start: State, events: seq<Event>, s: State, e: Event, t: State, life: nat) returns (longer: seq<Event>)
    requires Reaches(start, events, s, life) && Step(s, e) == Some(t) && PromptWithin(t, life)
    ensures Reaches(start, longer, t, life)
  {
    hide Step, PromptWithin, After, AlwaysPrompt;
    AfterThen(start, events, e);
    PromptSnoc(start, events, e, life);
    longer := events + [e];
  }

  // ----- steps on a table of one lead -----

  /** A table of one lead, enrolled long ago. */
  function Table(clock: int, lead: Lead, runs: seq<Run>, attempts: seq<Attempt>): State {
    State(clock, [-2000000], map[0 := lead], runs, attempts)
  }

  /** A run that read that lead. */
  function Reading(now: int, booking: bool, lead: Lead, phase: Phase): Run {
    Run(now, booking, [lead], 0, phase)
  }

  lemma StartReading(clock: int, lead: Lead, runs: seq<Run>, attempts: seq<Attempt>, now: int, booking: bool)
    requires lead.id == 0 && IsDue(lead, now) && now <= clock
    ensures Step(Table(clock, lead, runs, attempts), Start(now, booking, 1, [lead]))
      == Some(Table(clock, lead, runs + [Reading(now, booking, lead, Phase.Next)], attempts))
  {
    assert IsBatch(map[0 := lead], now, 1, [lead]);
  }

  function Taken(lead: Lead, now: int): Lead {
    lead.(step := lead.step + 1, nextSendAt := Some(now + CATCH_UP_SECONDS), lastSentAt := Some(now))
  }

  predicate LongDue(lead: Lead, now: int) {
    lead.id == 0 && lead.step + 1 < STEPS && lead.createdAt == -2000000 && now >= 0 && IsDue(lead, now)
  }

  /** A run wins the step it read, though the row's dates may have moved since. */
  lemma TakeStep(clock: int, lead: Lead, runs: seq<Run>, attempts: seq<Attempt>, r: nat, read: Lead, now: int, booking: bool)
    requires LongDue(lead, now) && read.id == 0 && read.step == lead.step && read.createdAt == lead.createdAt
    requires r < |runs| && runs[r] == Reading(now, booking, read, Phase.Next)
    ensures Step(Table(clock, lead, runs, attempts), Look(r, NothingKnown))
      == Some(Table(clock, Taken(lead, now), runs[r := Reading(now, booking, read, Holding(|attempts|))], attempts + [Attempt(0, lead.step, now, Held)]))
  {
    assert NextDue(lead.createdAt, lead.step + 1, now) == Some(now + CATCH_UP_SECONDS);
    assert map[0 := lead][0 := Taken(lead, now)] == map[0 := Taken(lead, now)];
  }

  lemma PutBack(clock: int, lead: Lead, runs: seq<Run>, attempts: seq<Attempt>, r: nat, n: nat, read: Lead, now: int, booking: bool)
    requires r < |runs| && runs[r] == Reading(now, booking, read, Holding(n)) && n < |attempts| && attempts[n].fate == Held
    requires read.id == 0 && lead == Taken(read, now).(nextSendAt := lead.nextSendAt, lastSentAt := lead.lastSentAt)
    requires read.status == Active && read.nextSendAt.Some?
    ensures Step(Table(clock, lead, runs, attempts), Throw(r))
      == Some(Table(clock, read, runs[r := Reading(now, booking, read, Over)], attempts[n := attempts[n].(fate := Returned)]))
  {
    var row := lead.(step := read.step, nextSendAt := read.nextSendAt, lastSentAt := read.lastSentAt, status := Active);
    assert row == read && map[0 := lead][0 := read] == map[0 := read];
    assert Restored(map[0 := lead], 0, read.step + 1, read.step, read.nextSendAt.value, read.lastSentAt) == map[0 := read];
  }

  lemma Hands(clock: int, lead: Lead, runs: seq<Run>, attempts: seq<Attempt>, r: nat, n: nat, read: Lead, now: int, booking: bool)
    requires r < |runs| && runs[r] == Reading(now, booking, read, Holding(n)) && n < |attempts|
    ensures var sending := runs[r := Reading(now, booking, read, Waiting(n))];
      Step(Table(clock, lead, runs, attempts), Send(r)) == Some(Table(clock, lead, sending, attempts[n := attempts[n].(fate := OnWire)]))
      && Step(Table(clock, lead, sending, attempts[n := attempts[n].(fate := OnWire)]), Deliver(n))
         == Some(Table(clock, lead, sending, attempts[n := attempts[n].(fate := Accepted(clock))]))
  {
    var wired := attempts[n := attempts[n].(fate := OnWire)];
    assert wired[n := wired[n].(fate := Accepted(clock))] == attempts[n := attempts[n].(fate := Accepted(clock))];
  }

  lemma FirstEnrolled(email: string)
    ensures var l := Lead(0, email, -2000000, 0, Some(-1913600), Active, None);
      Step(State(0, [], map[], [], []), Enroll(email, -2000000)) == Some(Table(0, l, [], []))
  {
    assert [] + [-2000000] == [-2000000];
  }

  lemma TooClose(clock: int, lead: Lead, runs: seq<Run>, attempts: seq<Attempt>, i: nat, j: nat)
    requires i < j < |attempts| && attempts[i].id == attempts[j].id && attempts[i].fate.Accepted? && attempts[j].fate.Accepted?
    requires !Behind(attempts[i], attempts[j].now) && !Behind(attempts[j], attempts[i].now)
    ensures !DayApart(Table(clock, lead, runs, attempts))
  {
  }

  lemma LaterTable(clock: int, lead: Lead, runs: seq<Run>, attempts: seq<Attempt>, seconds: nat)
    ensures Step(Table(clock, lead, runs, attempts), Tick(seconds)) == Some(Table(clock + seconds, lead, runs, attempts))
  {
  }

  function Ended(runs: seq<Run>, r: nat): seq<Run>
    requires r < |runs|
  {
    runs[r := runs[r].(phase := Over)]
  }

  lemma LoseStep(clock: int, lead: Lead, runs: seq<Run>, attempts: seq<Attempt>, r: nat, now: int)
    requires LongDue(lead, now) && r < |runs| && runs[r] == Reading(now, true, lead, Phase.Next)
    ensures Step(Table(clock, lead, runs, attempts), LoseAnswer(r)) == Some(Table(clock, Taken(lead, now), Ended(runs, r), attempts))
  {
    assert NextDue(lead.createdAt, lead.step + 1, now) == Some(now + CATCH_UP_SECONDS);
    assert map[0 := lead][0 := Taken(lead, now)] == map[0 := Taken(lead, now)];
  }

  lemma DieStep(clock: int, lead: Lead, runs: seq<Run>, attempts: seq<Attempt>, r: nat)
    requires r < |runs|
    ensures Step(Table(clock, lead, runs, attempts), Die(r)) == Some(Table(clock, lead, Ended(runs, r), attempts))
  {
  }

  /** It holds the last email: whatever the row says by now, its next email is put a day after this run. */
  lemma HoldStep(clock: int, lead: Lead, runs: seq<Run>, attempts: seq<Attempt>, r: nat, read: Lead, now: int)
    requires r < |runs| && runs[r] == Reading(now, false, read, Phase.Next) && read.id == 0 && read.step == STEPS - 1
    ensures Step(Table(clock, lead, runs, attempts), Look(r, NothingKnown))
      == Some(Table(clock, lead.(nextSendAt := Some(now + DAY)), runs[r := runs[r].(at := 1)], attempts))
  {
    assert map[0 := lead][0 := lead.(nextSendAt := Some(now + DAY))] == map[0 := lead.(nextSendAt := Some(now + DAY))];
  }

  function Completed(lead: Lead, now: int): Lead {
    lead.(step := lead.step + 1, nextSendAt := None, lastSentAt := Some(now), status := Status.Completed)
  }

  lemma TakeLast(clock: int, lead: Lead, runs: seq<Run>, attempts: seq<Attempt>, r: nat, now: int)
    requires lead.id == 0 && lead.step == STEPS - 1 && IsDue(lead, now) && r < |runs| && runs[r] == Reading(now, true, lead, Phase.Next)
    ensures Step(Table(clock, lead, runs, attempts), Look(r, NothingKnown))
      == Some(Table(clock, Completed(lead, now), runs[r := Reading(now, true, lead, Holding(|attempts|))], attempts + [Attempt(0, lead.step, now, Held)]))
  {
    assert map[0 := lead][0 := Completed(lead, now)] == map[0 := Completed(lead, now)];
  }

  lemma PromptTable(clock: int, lead: Lead, runs: seq<Run>, attempts: seq<Attempt>, life: nat)
    requires forall r :: 0 <= r < |runs| && Live(runs[r]) ==> clock < runs[r].now + life
    ensures PromptWithin(Table(clock, lead, runs, attempts), life)
  {
  }

  predicate NoneLive(runs: seq<Run>) {
    forall r :: 0 <= r < |runs| ==> !Live(runs[r])
  }

  /** A step forward without a mail: a run marks it, loses the answer, and the catch-up interval passes. */
  lemma LoseADay(start: State, events: seq<Event>, clock: int, lead: Lead, runs: seq<Run>, attempts: seq<Attempt>, life: nat)
    returns (longer: seq<Event>, runs': seq<Run>)
    requires Reaches(start, events, Table(clock, lead, runs, attempts), life) && LongDue(lead, clock) && NoneLive(runs) && life > 0
    ensures Reaches(start, longer, Table(clock + CATCH_UP_SECONDS, Taken(lead, clock), runs', attempts), life) && NoneLive(runs')
  {
    hide Step, Reaches, IsDue, Table;
    var r := |runs|;
    var with := runs + [Reading(clock, true, lead, Phase.Next)];
    runs' := Ended(with, r);
    assert IsDue(lead, clock) by { LongIsDue(lead, clock); }
    StartReading(clock, lead, runs, attempts, clock, true);
    PromptTable(clock, lead, with, attempts, life);
    longer := Next(start, events, Table(clock, lead, runs, attempts), Start(clock, true, 1, [lead]), Table(clock, lead, with, attempts), life);
    LoseStep(clock, lead, with, attempts, r, clock);
    PromptTable(clock, Taken(lead, clock), runs', attempts, life);
    longer := Next(start, longer, Table(clock, lead, with, attempts), LoseAnswer(r), Table(clock, Taken(lead, clock), runs', attempts), life);
    LaterTable(clock, Taken(lead, clock), runs', attempts, CATCH_UP_SECONDS);
    PromptTable(clock + CATCH_UP_SECONDS, Taken(lead, clock), runs', attempts, life);
    longer := Next(start, longer, Table(clock, Taken(lead, clock), runs', attempts), Tick(CATCH_UP_SECONDS),
                   Table(clock + CATCH_UP_SECONDS, Taken(lead, clock), runs', attempts), life);
  }

  lemma LongIsDue(lead: Lead, now: int)
    requires LongDue(lead, now)
    ensures IsDue(lead, now)
  {
  }

  const FIRST := Lead(0, "a", -2000000, 0, Some(-1913600), Active, None)

  /** Three steps on: the lead waits for its fourth email, nobody is at work, nothing was attempted. */
  lemma ThreeStepsOn(life: nat) returns (start: State, events: seq<Event>, runs: seq<Run>, lead: Lead)
    requires life > 0
    ensures Fresh(start) && Reaches(start, events, Table(248400, lead, runs, []), life) && NoneLive(runs)
    ensures LongDue(lead, 248400) && lead.step == 3 && lead.nextSendAt == Some(248400)
  {
    hide Step, Reaches, Table, PromptWithin;
    start := State(0, [], map[], [], []);
    assert Reaches(start, [], start, life) by { StartReached(start, life); }
    FirstEnrolled("a");
    PromptTable(0, FIRST, [], [], life);
    events := Next(start, [], start, Enroll("a", -2000000), Table(0, FIRST, [], []), life);
    events, runs := LoseADay(start, events, 0, FIRST, [], [], life);
    lead := Taken(FIRST, 0);
    events, runs := LoseADay(start, events, 82800, lead, runs, [], life);
    lead := Taken(lead, 82800);
    events, runs := LoseADay(start, events, 165600, lead, runs, [], life);
    lead := Taken(lead, 165600);
  }

  lemma StartReached(start: State, life: nat)
    requires start == State(0, [], map[], [], [])
    ensures Reaches(start, [], start, life)
  {
  }

  /**
   * The first half of the trouble: run X takes the fourth step at the last moment of a day; a run R without a booking
   * link reads the lead as sent four times; X puts the step back. R stays at work for 82,800 seconds.
   */
  lemma StaleHold(life: nat) returns (start: State, events: seq<Event>, runs: seq<Run>, r: nat, lead: Lead, read: Lead, attempts: seq<Attempt>)
    requires life > CATCH_UP_SECONDS
    ensures Fresh(start) && Reaches(start, events, Table(414000, lead, runs, attempts), life)
    ensures LongDue(lead, 414000) && lead.step == 3 && read.step == 4 && read.id == 0
    ensures r < |runs| && runs[r] == Reading(331200, false, read, Phase.Next) && NoneLive(Ended(runs, r))
    ensures |attempts| == 1
  {
    hide Step, Reaches, Table, PromptWithin;
    var before;
    start, events, before, lead := ThreeStepsOn(life);
    var x := |before|;
    var r0 := before + [Reading(248400, true, lead, Phase.Next)];
    StartReading(248400, lead, before, [], 248400, true);
    PromptTable(248400, lead, r0, [], life);
    events := Next(start, events, Table(248400, lead, before, []), Start(248400, true, 1, [lead]), Table(248400, lead, r0, []), life);
    TakeStep(248400, lead, r0, [], x, lead, 248400, true);
    read := Taken(lead, 248400);
    var r1, t1 := r0[x := Reading(248400, true, lead, Holding(0))], [] + [Attempt(0, 3, 248400, Held)];
    PromptTable(248400, read, r1, t1, life);
    events := Next(start, events, Table(248400, lead, r0, []), Look(x, NothingKnown), Table(248400, read, r1, t1), life);
    LaterTable(248400, read, r1, t1, 82800);
    PromptTable(331200, read, r1, t1, life);
    events := Next(start, events, Table(248400, read, r1, t1), Tick(82800), Table(331200, read, r1, t1), life);
    r := |r1|;
    StartReading(331200, read, r1, t1, 331200, false);
    var r2 := r1 + [Reading(331200, false, read, Phase.Next)];
    PromptTable(331200, read, r2, t1, life);
    events := Next(start, events, Table(331200, read, r1, t1), Start(331200, false, 1, [read]), Table(331200, read, r2, t1), life);
    PutBack(331200, read, r2, t1, x, 0, lead, 248400, true);
    runs, attempts := r2[x := Reading(248400, true, lead, Over)], t1[0 := t1[0].(fate := Returned)];
    PromptTable(331200, lead, runs, attempts, life);
    events := Next(start, events, Table(331200, read, r2, t1), Throw(x), Table(331200, lead, runs, attempts), life);
    LaterTable(331200, lead, runs, attempts, 82800);
    PromptTable(414000, lead, runs, attempts, life);
    events := Next(start, events, Table(331200, lead, runs, attempts), Tick(82800), Table(414000, lead, runs, attempts), life);
  }

  /**
   * The second half: run Y sends the fourth email, R then moves the fifth to a day after R began, an hour after Y, and
   * run Z sends it.
   */
  lemma EmailsAnHourApart(life: nat) returns (start: State, events: seq<Event>)
    requires life > CATCH_UP_SECONDS
    ensures Fresh(start) && AlwaysPrompt(start, events, life) && After(start, events).Some? && !DayApart(After(start, events).value)
  {
    hide Step, Reaches, Table, PromptWithin;
    var runs, r, lead, read, t0;
    start, events, runs, r, lead, read, t0 := StaleHold(life);
    var y := |runs|;
    assert forall i :: 0 <= i < |runs| && i != r ==> !Live(Ended(runs, r)[i]) && Ended(runs, r)[i] == runs[i];
    var r1 := runs + [Reading(414000, true, lead, Phase.Next)];
    StartReading(414000, lead, runs, t0, 414000, true);
    PromptTable(414000, lead, r1, t0, life);
    events := Next(start, events, Table(414000, lead, runs, t0), Start(414000, true, 1, [lead]), Table(414000, lead, r1, t0), life);
    TakeStep(414000, lead, r1, t0, y, lead, 414000, true);
    var sent := Taken(lead, 414000);
    var r2, t1 := r1[y := Reading(414000, true, lead, Holding(1))], t0 + [Attempt(0, 3, 414000, Held)];
    PromptTable(414000, sent, r2, t1, life);
    events := Next(start, events, Table(414000, lead, r1, t0), Look(y, NothingKnown), Table(414000, sent, r2, t1), life);
    Hands(414000, sent, r2, t1, y, 1, lead, 414000, true);
    var r3, w1, t2 := r2[y := Reading(414000, true, lead, Waiting(1))], t1[1 := t1[1].(fate := OnWire)], t1[1 := t1[1].(fate := Accepted(414000))];
    PromptTable(414000, sent, r3, w1, life);
    PromptTable(414000, sent, r3, t2, life);
    events := Next(start, events, Table(414000, sent, r2, t1), Send(y), Table(414000, sent, r3, w1), life);
    events := Next(start, events, Table(414000, sent, r3, w1), Deliver(1), Table(414000, sent, r3, t2), life);
    HoldStep(414000, sent, r3, t2, r, read, 331200);
    var held := sent.(nextSendAt := Some(331200 + DAY));
    var r4 := r3[r := r3[r].(at := 1)];
    PromptTable(414000, held, r4, t2, life);
    events := Next(start, events, Table(414000, sent, r3, t2), Look(r, NothingKnown), Table(414000, held, r4, t2), life);
    assert forall i :: 0 <= i < |runs| && i != r ==> r4[i] == runs[i];
    events, runs := EndTwo(start, events, held, r4, t2, r, y, life);
    events := SendsTheLast(start, events, held, runs, t2, life);
  }

  lemma EndTwo(start: State, sofar: seq<Event>, lead: Lead, runs: seq<Run>, attempts: seq<Attempt>, r: nat, y: nat, life: nat)
    returns (events: seq<Event>, runs': seq<Run>)
    requires r < y < |runs| && NoneLive(Ended(Ended(runs, r), y)) && life > CATCH_UP_SECONDS
    requires forall i :: 0 <= i < |runs| && Live(runs[i]) ==> 414000 < runs[i].now + life
    requires Reaches(start, sofar, Table(414000, lead, runs, attempts), life)
    ensures Reaches(start, events, Table(417600, lead, runs', attempts), life) && NoneLive(runs')
  {
    hide Step, Reaches, Table, PromptWithin;
    DieStep(414000, lead, runs, attempts, r);
    var one := Ended(runs, r);
    PromptTable(414000, lead, one, attempts, life);
    events := Next(start, sofar, Table(414000, lead, runs, attempts), Die(r), Table(414000, lead, one, attempts), life);
    DieStep(414000, lead, one, attempts, y);
    runs' := Ended(one, y);
    PromptTable(414000, lead, runs', attempts, life);
    events := Next(start, events, Table(414000, lead, one, attempts), Die(y), Table(414000, lead, runs', attempts), life);
    LaterTable(414000, lead, runs', attempts, 3600);
    PromptTable(417600, lead, runs', attempts, life);
    events := Next(start, events, Table(414000, lead, runs', attempts), Tick(3600), Table(417600, lead, runs', attempts), life);
  }

  lemma SendsTheLast(start: State, sofar: seq<Event>, lead: Lead, runs: seq<Run>, attempts: seq<Attempt>, life: nat) returns (events: seq<Event>)
    requires lead.id == 0 && lead.step == 4 && IsDue(lead, 417600) && NoneLive(runs) && life > CATCH_UP_SECONDS
    requires |attempts| == 2 && attempts[1] == Attempt(0, 3, 414000, Accepted(414000))
    requires Reaches(start, sofar, Table(417600, lead, runs, attempts), life)
    ensures AlwaysPrompt(start, events, life) && After(start, events).Some? && !DayApart(After(start, events).value)
  {
    hide Step, Reaches, Table, PromptWithin;
    var z := |runs|;
    var r1 := runs + [Reading(417600, true, lead, Phase.Next)];
    StartReading(417600, lead, runs, attempts, 417600, true);
    PromptTable(417600, lead, r1, attempts, life);
    events := Next(start, sofar, Table(417600, lead, runs, attempts), Start(417600, true, 1, [lead]), Table(417600, lead, r1, attempts), life);
    TakeLast(417600, lead, r1, attempts, z, 417600);
    var done := Completed(lead, 417600);
    var r2, t1 := r1[z := Reading(417600, true, lead, Holding(2))], attempts + [Attempt(0, 4, 417600, Held)];
    PromptTable(417600, done, r2, t1, life);
    events := Next(start, events, Table(417600, lead, r1, attempts), Look(z, NothingKnown), Table(417600, done, r2, t1), life);
    Hands(417600, done, r2, t1, z, 2, lead, 417600, true);
    var r3, w2, t2 := r2[z := Reading(417600, true, lead, Waiting(2))], t1[2 := t1[2].(fate := OnWire)], t1[2 := t1[2].(fate := Accepted(417600))];
    PromptTable(417600, done, r3, w2, life);
    PromptTable(417600, done, r3, t2, life);
    events := Next(start, events, Table(417600, done, r2, t1), Send(z), Table(417600, done, r3, w2), life);
    events := Next(start, events, Table(417600, done, r3, w2), Deliver(2), Table(417600, done, r3, t2), life);
    assert t2[1] == Attempt(0, 3, 414000, Accepted(414000)) && t2[2] == Attempt(0, 4, 417600, Accepted(417600));
    TooClose(417600, done, r3, t2, 1, 2);
    ReachedMeans(start, events, Table(417600, done, r3, t2), life);
  }

  lemma ReachedMeans(start: State, events: seq<Event>, s: State, life: nat)
    requires Reaches(start, events, s, life)
    ensures After(start, events) == Some(s) && AlwaysPrompt(start, events, life)
  {
  }

  // ----- runs all of one kind -----

  /** The same for runs that all have a booking link, or all have none. */
  ghost predicate KeepsADayApartIf(booking: bool, life: nat) {
    forall s, events :: Fresh(s) && AlwaysPrompt(s, events, life) && FitAll(Always(booking), events) && After(s, events).Some? ==>
      DayApart(After(s, events).value)
  }

  ghost predicate ReachesIf(booking: bool, start: State, events: seq<Event>, s: State, life: nat) {
    Reaches(start, events, s, life) && FitAll(Always(booking), events)
  }

  predicate NoneNegative(runs: seq<Run>) {
    forall r :: 0 <= r < |runs| ==> runs[r].now >= 0
  }

  /** One event more, up to a second past the catch-up interval. */
  lemma Play(booking: bool, start: State, events: seq<Event>, s: State, e: Event, t: State, life: nat) returns (longer: seq<Event>)
    requires ReachesIf(booking, start, events, s, life) && Step(s, e) == Some(t) && Fits(Always(booking), e)
    requires t.clock <= CATCH_UP_SECONDS + 1 < life && NoneNegative(t.runs)
    ensures ReachesIf(booking, start, longer, t, life)
  {
    assert PromptWithin(t, life);
    hide Step, After, AlwaysPrompt, PromptWithin;
    AfterThen(start, events, e);
    PromptSnoc(start, events, e, life);
    longer := events + [e];
  }

  const ONCE := Taken(FIRST, 0)

  lemma StartReachedIf(booking: bool, start: State, none: seq<Run>, life: nat)
    requires start == State(0, [], map[], [], []) && none == []
    ensures ReachesIf(booking, start, [], start, life) && NoneNegative(none)
  {
    StartReached(start, life);
  }

  /**
   * X, started at 0, and Y, a second later, read the lead before X takes its first step. The second day begins: D starts
   * on the very second the second email is due, C a second later, and X is still at work.
   */
  lemma FourReads(booking: bool, life: nat) returns (start: State, events: seq<Event>, runs: seq<Run>, attempts: seq<Attempt>)
    requires life > CATCH_UP_SECONDS + 1
    ensures Fresh(start) && ReachesIf(booking, start, events, Table(82801, ONCE, runs, attempts), life) && NoneNegative(runs)
    ensures attempts == [Attempt(0, 0, 0, Held)]
    ensures |runs| == 4 && runs[0] == Reading(0, booking, FIRST, Holding(0)) && runs[1] == Reading(1, booking, FIRST, Phase.Next)
    ensures runs[2] == Reading(82800, booking, ONCE, Phase.Next) && runs[3] == Reading(82801, booking, ONCE, Phase.Next)
  {
    hide Step, Table, ReachesIf, NoneNegative;
    start := State(0, [], map[], [], []);
    var none: seq<Run> := [];
    StartReachedIf(booking, start, none, life);
    TableHas(0, FIRST, none, []);
    FirstEnrolled("a");
    events := Play(booking, start, [], start, Enroll("a", -2000000), Table(0, FIRST, none, []), life);
    events, runs := StartsOn(booking, start, events, 0, FIRST, none, [], life);
    events := WaitsTill(booking, start, events, 0, 1, FIRST, runs, [], life);
    events, runs := StartsOn(booking, start, events, 1, FIRST, runs, [], life);
    events, runs, attempts := Takes(booking, start, events, 1, FIRST, runs, [], 0, FIRST, 0, life);
    events := WaitsTill(booking, start, events, 1, 82800, ONCE, runs, attempts, life);
    events, runs := StartsOn(booking, start, events, 82800, ONCE, runs, attempts, life);
    events := WaitsTill(booking, start, events, 82800, 82801, ONCE, runs, attempts, life);
    events, runs := StartsOn(booking, start, events, 82801, ONCE, runs, attempts, life);
    assert [] + [Attempt(0, 0, 0, Held)] == [Attempt(0, 0, 0, Held)];
  }

  lemma TableHas(clock: int, lead: Lead, runs: seq<Run>, attempts: seq<Attempt>)
    ensures Table(clock, lead, runs, attempts).clock == clock && Table(clock, lead, runs, attempts).runs == runs
  {
  }

  lemma StartsOn(booking: bool, start: State, sofar: seq<Event>, clock: int, lead: Lead, runs: seq<Run>, attempts: seq<Attempt>, life: nat)
    returns (events: seq<Event>, runs': seq<Run>)
    requires ReachesIf(booking, start, sofar, Table(clock, lead, runs, attempts), life) && NoneNegative(runs)
    requires lead.id == 0 && IsDue(lead, clock) && 0 <= clock <= CATCH_UP_SECONDS + 1 < life
    ensures runs' == runs + [Reading(clock, booking, lead, Phase.Next)] && NoneNegative(runs')
    ensures ReachesIf(booking, start, events, Table(clock, lead, runs', attempts), life)
  {
    hide Step, Table, ReachesIf;
    runs' := runs + [Reading(clock, booking, lead, Phase.Next)];
    StartReading(clock, lead, runs, attempts, clock, booking);
    TableHas(clock, lead, runs', attempts);
    events := Play(booking, start, sofar, Table(clock, lead, runs, attempts),
                   Start(clock, booking, 1, [lead]), Table(clock, lead, runs', attempts), life);
  }

  lemma WaitsTill(booking: bool, start: State, sofar: seq<Event>, clock: int, later: int,
    lead: Lead, runs: seq<Run>, attempts: seq<Attempt>, life: nat)
    returns (events: seq<Event>)
    requires ReachesIf(booking, start, sofar, Table(clock, lead, runs, attempts), life) && NoneNegative(runs)
    requires clock <= later <= CATCH_UP_SECONDS + 1 < life
    ensures ReachesIf(booking, start, events, Table(later, lead, runs, attempts), life)
  {
    hide Step, Table, ReachesIf;
    LaterTable(clock, lead, runs, attempts, later - clock);
    TableHas(later, lead, runs, attempts);
    events := Play(booking, start, sofar, Table(clock, lead, runs, attempts), Tick(later - clock), Table(later, lead, runs, attempts), life);
  }

  lemma Takes(booking: bool, start: State, sofar: seq<Event>, clock: int,
    lead: Lead, runs: seq<Run>, attempts: seq<Attempt>, r: nat, read: Lead, now: int, life: nat)
    returns (events: seq<Event>, runs': seq<Run>, attempts': seq<Attempt>)
    requires ReachesIf(booking, start, sofar, Table(clock, lead, runs, attempts), life) && NoneNegative(runs)
    requires LongDue(lead, now) && read.id == 0 && read.step == lead.step && read.createdAt == lead.createdAt
    requires r < |runs| && runs[r] == Reading(now, booking, read, Phase.Next) && clock <= CATCH_UP_SECONDS + 1 < life
    ensures runs' == runs[r := Reading(now, booking, read, Holding(|attempts|))] && NoneNegative(runs')
    ensures attempts' == attempts + [Attempt(0, lead.step, now, Held)]
    ensures ReachesIf(booking, start, events, Table(clock, Taken(lead, now), runs', attempts'), life)
  {
    hide Step, Table, ReachesIf;
    runs' := runs[r := Reading(now, booking, read, Holding(|attempts|))];
    attempts' := attempts + [Attempt(0, lead.step, now, Held)];
    TakeStep(clock, lead, runs, attempts, r, read, now, booking);
    TableHas(clock, Taken(lead, now), runs', attempts');
    events := Play(booking, start, sofar, Table(clock, lead, runs, attempts),
                   Look(r, NothingKnown), Table(clock, Taken(lead, now), runs', attempts'), life);
  }

  lemma GivesBack(booking: bool, start: State, sofar: seq<Event>, clock: int,
    lead: Lead, runs: seq<Run>, attempts: seq<Attempt>, r: nat, n: nat, read: Lead, now: int, life: nat)
    returns (events: seq<Event>, runs': seq<Run>, attempts': seq<Attempt>)
    requires ReachesIf(booking, start, sofar, Table(clock, lead, runs, attempts), life) && NoneNegative(runs)
    requires r < |runs| && runs[r] == Reading(now, booking, read, Holding(n)) && n < |attempts| && attempts[n].fate == Held
    requires read.id == 0 && lead == Taken(read, now).(nextSendAt := lead.nextSendAt, lastSentAt := lead.lastSentAt)
    requires read.status == Active && read.nextSendAt.Some? && clock <= CATCH_UP_SECONDS + 1 < life
    ensures runs' == runs[r := Reading(now, booking, read, Over)] && NoneNegative(runs')
    ensures attempts' == attempts[n := attempts[n].(fate := Returned)]
    ensures ReachesIf(booking, start, events, Table(clock, read, runs', attempts'), life)
  {
    hide Step, Table, ReachesIf;
    runs', attempts' := runs[r := Reading(now, booking, read, Over)], attempts[n := attempts[n].(fate := Returned)];
    PutBack(clock, lead, runs, attempts, r, n, read, now, booking);
    TableHas(clock, read, runs', attempts');
    events := Play(booking, start, sofar, Table(clock, lead, runs, attempts), Throw(r), Table(clock, read, runs', attempts'), life);
  }

  lemma Sends(booking: bool, start: State, sofar: seq<Event>, clock: int,
    lead: Lead, runs: seq<Run>, attempts: seq<Attempt>, r: nat, n: nat, read: Lead, now: int, life: nat)
    returns (events: seq<Event>, runs': seq<Run>, attempts': seq<Attempt>)
    requires ReachesIf(booking, start, sofar, Table(clock, lead, runs, attempts), life) && NoneNegative(runs)
    requires r < |runs| && runs[r] == Reading(now, booking, read, Holding(n)) && n < |attempts| && clock <= CATCH_UP_SECONDS + 1 < life
    ensures runs' == runs[r := Reading(now, booking, read, Waiting(n))] && NoneNegative(runs')
    ensures attempts' == attempts[n := attempts[n].(fate := Accepted(clock))]
    ensures ReachesIf(booking, start, events, Table(clock, lead, runs', attempts'), life)
  {
    hide Step, Table, ReachesIf;
    runs' := runs[r := Reading(now, booking, read, Waiting(n))];
    var wired := attempts[n := attempts[n].(fate := OnWire)];
    attempts' := attempts[n := attempts[n].(fate := Accepted(clock))];
    Hands(clock, lead, runs, attempts, r, n, read, now, booking);
    TableHas(clock, lead, runs', wired);
    TableHas(clock, lead, runs', attempts');
    events := Play(booking, start, sofar, Table(clock, lead, runs, attempts), Send(r), Table(clock, lead, runs', wired), life);
    events := Play(booking, start, events, Table(clock, lead, runs', wired), Deliver(n), Table(clock, lead, runs', attempts'), life);
  }

  /**
   * X puts the first step back and Y sends it, which makes the second due a second later than D read. C takes the second
   * just then, puts back the dates it read, and D finds them due: its mail is a second short of a day after Y's.
   */
  lemma ASecondShort(booking: bool, life: nat) returns (start: State, events: seq<Event>)
    requires life > CATCH_UP_SECONDS + 1
    ensures Fresh(start) && AlwaysPrompt(start, events, life) && FitAll(Always(booking), events)
    ensures After(start, events).Some? && !DayApart(After(start, events).value)
  {
    hide Step, Table, ReachesIf, NoneNegative, After, AlwaysPrompt, FitAll, DayApart;
    var runs, tries;
    start, events, runs, tries := FourReads(booking, life);
    events, runs, tries := GivesBack(booking, start, events, 82801, ONCE, runs, tries, 0, 0, FIRST, 0, life);
    events, runs, tries := Takes(booking, start, events, 82801, FIRST, runs, tries, 1, FIRST, 1, life);
    var sent := Taken(FIRST, 1);
    events, runs, tries := Sends(booking, start, events, 82801, sent, runs, tries, 1, 1, FIRST, 1, life);
    events, runs, tries := Takes(booking, start, events, 82801, sent, runs, tries, 3, ONCE, 82801, life);
    events, runs, tries := GivesBack(booking, start, events, 82801, Taken(sent, 82801), runs, tries, 3, 2, ONCE, 82801, life);
    events, runs, tries := Takes(booking, start, events, 82801, ONCE, runs, tries, 2, ONCE, 82800, life);
    var last := Taken(ONCE, 82800);
    events, runs, tries := Sends(booking, start, events, 82801, last, runs, tries, 2, 3, ONCE, 82800, life);
    TooClose(82801, last, runs, tries, 1, 3);
    ReachedIfMeans(booking, start, events, Table(82801, last, runs, tries), life);
  }

  lemma ReachedIfMeans(booking: bool, start: State, events: seq<Event>, s: State, life: nat)
    requires ReachesIf(booking, start, events, s, life)
    ensures After(start, events) == Some(s) && AlwaysPrompt(start, events, life) && FitAll(Always(booking), events)
  {
  }

  // ----- the bounds -----

  /**
   * The bound is exact: emails to one lead stay a day apart on every trace whose runs live less than `life` seconds if
   * and only if `life` is at most the catch-up interval of 82,800 seconds.
   */
  lemma LifeBoundIsExact(life: nat)
    ensures KeepsADayApart(life) <==> life <= CATCH_UP_SECONDS
  {
    hide Fresh, AlwaysPrompt, After, DayApart;
    if life <= CATCH_UP_SECONDS {
      forall s, events | Fresh(s) && AlwaysPrompt(s, events, life) && After(s, events).Some? ensures DayApart(After(s, events).value) {
        PromptRunsKeepADayApart(AnyBooking, s, events, life);
      }
    } else {
      var start, events := EmailsAnHourApart(life);
    }
  }

  /**
   * Under one booking configuration the exact bound is one second more: with or without a link, 82,801 seconds.
   */
  lemma LifeBoundOfOneKind(booking: bool, life: nat)
    ensures KeepsADayApartIf(booking, life) <==> life <= CATCH_UP_SECONDS + 1
  {
    hide Fresh, AlwaysPrompt, After, DayApart, FitAll;
    if life <= CATCH_UP_SECONDS + 1 {
      forall s, events | Fresh(s) && AlwaysPrompt(s, events, life) && FitAll(Always(booking), events) && After(s, events).Some?
        ensures DayApart(After(s, events).value)
      {
        PromptRunsKeepADayApart(Always(booking), s, events, life);
      }
    } else {
      var start, events := ASecondShort(booking, life);
    }
  }
}
