/**
 * The onboarding sequence under overlapping runs, crashes, lost answers and ambiguous provider outcomes. A run reads a
 * batch of due leads, marks each step sent by compare-and-set before sending it, and puts it back only when the mail
 * was definitely not sent. Every event below makes at most one database write or one provider action.
 */
module Sequence {
  import opened Wrappers
  import opened Leads

  /** What became of one attempt to send a step. `Returned`: not sent, and the step was put back. */
  datatype Fate = Held | OnWire | Accepted(at: int) | Refused | Returned

  /** One won advance: the lead and step it was won for, and the clock of the run that won it. */
  datatype Attempt = Attempt(id: nat, step: nat, now: int, fate: Fate)

  /** Where a run is with its current lead: before the advance, holding it unsent, or waiting for the provider. */
  datatype Phase = Next | Holding(n: nat) | Waiting(n: nat) | Over

  datatype Run = Run(now: int, booking: bool, batch: seq<Lead>, at: nat, phase: Phase)

  /** `born[id]` is when lead `id` was enrolled; ids are never used twice. */
  datatype State = State(clock: int, born: seq<int>, rows: Rows, runs: seq<Run>, attempts: seq<Attempt>)

  datatype Sight = OnSuppressionList | IsMember | NothingKnown

  datatype Answer = Sent | SuppressedNow | BadRecipient | NotSent | Unknown

  datatype Event =
    | Tick(seconds: nat)
    | Enroll(email: string, enrolledAt: int)
    | Stop(id: nat, reason: Status)
    | Forget(ids: set<nat>)
    | Start(now: int, booking: bool, limit: nat, batch: seq<Lead>)
    | Look(r: nat, sight: Sight)
    | LoseAnswer(r: nat)
    | Die(r: nat)
    | Throw(r: nat)
    | Send(r: nat)
    | Deliver(n: nat)
    | Refuse(n: nat)
    | Hear(r: nat, answer: Answer)

  predicate Live(run: Run) {
    !run.phase.Over?
  }

  predicate AtLead(s: State, r: nat) {
    r < |s.runs| && s.runs[r].phase == Next && s.runs[r].at < |s.runs[r].batch|
  }

  function LeadOf(s: State, r: nat): Lead
    requires r < |s.runs| && s.runs[r].at < |s.runs[r].batch|
  {
    s.runs[r].batch[s.runs[r].at]
  }

  function NextLead(s: State, r: nat, rows: Rows): State
    requires r < |s.runs|
  {
    s.(rows := rows, runs := s.runs[r := s.runs[r].(at := s.runs[r].at + 1, phase := Next)])
  }

  function Finish(s: State, r: nat, rows: Rows): State
    requires r < |s.runs|
  {
    s.(rows := rows, runs := s.runs[r := s.runs[r].(phase := Over)])
  }

  function SetFate(s: State, n: nat, fate: Fate): State
    requires n < |s.attempts|
  {
    s.(attempts := s.attempts[n := s.attempts[n].(fate := fate)])
  }

  /** The lead is put back as the run read it, and the run stops. */
  function GiveBack(s: State, r: nat, n: nat): State
    requires r < |s.runs| && s.runs[r].at < |s.runs[r].batch| && n < |s.attempts|
  {
    var lead := LeadOf(s, r);
    Finish(SetFate(s, n, Returned), r,
           Restored(s.rows, lead.id, lead.step + 1, lead.step, Or(lead.nextSendAt, s.runs[r].now), lead.lastSentAt))
  }

  /** Stop conditions, the hold for a missing booking link, and the advance: up to the moment the mail is built. */
  function Looked(s: State, r: nat, sight: Sight): State
    requires AtLead(s, r)
  {
    var run, lead := s.runs[r], LeadOf(s, r);
    if sight.OnSuppressionList? then NextLead(s, r, WithoutEmail(s.rows, lead.email))
    else if sight.IsMember? then NextLead(s, r, WithStatus(s.rows, lead.id, Converted))
    else if NeedsBooking(lead.step) && !run.booking then NextLead(s, r, Released(s.rows, lead.id, run.now + DAY))
    else if !Wins(s.rows, lead.id, lead.step, run.now) then NextLead(s, r, s.rows)
    else
      State(s.clock, s.born, Advanced(s.rows, lead.id, lead.step, NextDue(lead.createdAt, lead.step + 1, run.now), run.now),
            s.runs[r := run.(phase := Holding(|s.attempts|))],
            s.attempts + [Attempt(lead.id, lead.step, run.now, Held)])
  }

  predicate CanHear(s: State, r: nat, answer: Answer) {
    r < |s.runs| && s.runs[r].at < |s.runs[r].batch| && s.runs[r].phase.Waiting? && s.runs[r].phase.n < |s.attempts|
    && var fate := s.attempts[s.runs[r].phase.n].fate;
    match answer
    case Sent => fate.Accepted?
    case Unknown => true
    case _ => fate == Refused
  }

  function Heard(s: State, r: nat, answer: Answer): State
    requires CanHear(s, r, answer)
  {
    var lead := LeadOf(s, r);
    match answer
    case Sent => NextLead(s, r, s.rows)
    case SuppressedNow => NextLead(s, r, WithoutEmail(s.rows, lead.email))
    case BadRecipient => NextLead(s, r, WithStatus(s.rows, lead.id, Bounced))
    case NotSent => GiveBack(s, r, s.runs[r].phase.n)
    case Unknown => Finish(s, r, s.rows)
  }

  function Enrolled(s: State, email: string, enrolledAt: int): State {
    if exists id :: id in s.rows && s.rows[id].email == email then s
    else
      var id := |s.born|;
      s.(born := s.born + [enrolledAt],
      rows := s.rows[id := Lead(id, email, enrolledAt, 0, Some(enrolledAt + SEQUENCE_DAYS[0] * DAY), Active, None)])
  }

  /** Enrolling an address that is there already does nothing; otherwise a new lead waits for its first email, a day on. */
  lemma EnrolsExactly(s: State, email: string, enrolledAt: int)
    ensures var t := Enrolled(s, email, enrolledAt);
      if exists id :: id in s.rows && s.rows[id].email == email then t == s
      else t == s.(born := s.born + [enrolledAt],
                   rows := s.rows[|s.born| := Lead(|s.born|, email, enrolledAt, 0, Some(enrolledAt + 86400), Active, None)])
  {
  }

  /** The machine. None: the event cannot happen here. */
  ghost function Step(s: State, e: Event): Option<State> {
    match e
    case Tick(seconds) => Some(s.(clock := s.clock + seconds))
    case Enroll(email, enrolledAt) => Some(Enrolled(s, email, enrolledAt))
    case Stop(id, reason) =>
      if reason in {Replied, Booked, Converted} then Some(s.(rows := WithStatus(s.rows, id, reason))) else None
    case Forget(ids) => Some(s.(rows := s.rows - ids))
    case Start(now, booking, limit, batch) =>
      if now <= s.clock && IsBatch(s.rows, now, limit, batch) then Some(s.(runs := s.runs + [Run(now, booking, batch, 0, Next)])) else None
    case Look(r, sight) => if AtLead(s, r) then Some(Looked(s, r, sight)) else None
    // The advance was written but its answer never came: the run stops without knowing that it won.
    case LoseAnswer(r) =>
      if AtLead(s, r) then
        var lead := LeadOf(s, r);
        Some(Finish(s, r, Advanced(s.rows, lead.id, lead.step, NextDue(lead.createdAt, lead.step + 1, s.runs[r].now), s.runs[r].now)))
      else None
    case Die(r) => if r < |s.runs| then Some(Finish(s, r, s.rows)) else None
    case Throw(r) =>
      if r < |s.runs| && s.runs[r].at < |s.runs[r].batch| && s.runs[r].phase.Holding? && s.runs[r].phase.n < |s.attempts| then
        Some(GiveBack(s, r, s.runs[r].phase.n))
      else None
    case Send(r) =>
      if r < |s.runs| && s.runs[r].phase.Holding? && s.runs[r].phase.n < |s.attempts| then
        var n := s.runs[r].phase.n;
        Some(SetFate(s.(runs := s.runs[r := s.runs[r].(phase := Waiting(n))]), n, OnWire))
      else None
    case Deliver(n) => if n < |s.attempts| && s.attempts[n].fate == OnWire then Some(SetFate(s, n, Accepted(s.clock))) else None
    case Refuse(n) => if n < |s.attempts| && s.attempts[n].fate == OnWire then Some(SetFate(s, n, Refused)) else None
    case Hear(r, answer) => if CanHear(s, r, answer) then Some(Heard(s, r, answer)) else None
  }

  ghost function After(s: State, events: seq<Event>): Option<State>
    decreases |events|
  {
    if events == [] then Some(s)
    else match Step(s, events[0]) case None => None case Some(t) => After(t, events[1..])
  }

  lemma {:induction false} AfterAppend(s: State, a: seq<Event>, b: seq<Event>)
    requires After(s, a).Some?
    ensures After(s, a + b) == After(After(s, a).value, b)
    decreases |a|
  {
    hide Step;
    if a == [] {
      assert a + b == b;
    } else {
      assert (a + b)[1..] == a[1..] + b;
      AfterAppend(Step(s, a[0]).value, a[1..], b);
    }
  }

  lemma AfterOne(s: State, e: Event)
    ensures After(s, []) == Some(s) && After(s, [e]) == Step(s, e)
  {
    hide Step;
    assert [e][1..] == [];
    assert Step(s, e).Some? ==> After(Step(s, e).value, []) == Step(s, e);
  }

  /** One more event at the end of a trace. */
  lemma AfterThen(s: State, events: seq<Event>, e: Event)
    requires After(s, events).Some?
    ensures After(s, events + [e]) == Step(After(s, events).value, e)
  {
    hide Step, After;
    AfterAppend(s, events, [e]);
    AfterOne(After(s, events).value, e);
  }

  predicate Fresh(s: State) {
    s.born == [] && s.rows == map[] && s.runs == [] && s.attempts == []
  }

  // ----- what every event keeps -----

  /** The mail was not put back: it was, may be or may still become accepted. */
  predicate Open(a: Attempt) {
    a.fate != Returned
  }

  /** The attempt a run carries, if any. */
  predicate Carries(run: Run, n: nat) {
    run.phase == Holding(n) || run.phase == Waiting(n)
  }

  predicate SameSend(a: Attempt, b: Attempt) {
    a.id == b.id && a.step == b.step
  }

  predicate RowOk(born: seq<int>, id: nat, row: Lead) {
    id < |born| && row.id == id && row.createdAt == born[id] && row.step <= STEPS
    && (row.status == Active ==> row.step < STEPS)
    && (row.status == Active && row.nextSendAt.Some? ==> row.nextSendAt.value >= Earliest(born[id], row.step))
  }

  ghost predicate RowsOk(born: seq<int>, rows: Rows) {
    forall id :: id in rows ==> RowOk(born, id, rows[id])
  }

  /** An attempt was due on its run's clock; while it is open, its lead is past the attempt's step. */
  predicate AttemptOk(clock: int, born: seq<int>, rows: Rows, a: Attempt) {
    a.id < |born| && a.step < STEPS && Earliest(born[a.id], a.step) <= a.now <= clock
    && (Open(a) && a.id in rows ==> rows[a.id].step > a.step)
    && (a.fate.Accepted? ==> a.now <= a.fate.at <= clock)
  }

  ghost predicate AttemptsOk(clock: int, born: seq<int>, rows: Rows, attempts: seq<Attempt>) {
    forall n :: 0 <= n < |attempts| ==> AttemptOk(clock, born, rows, attempts[n])
  }

  /** Nobody sends a step while an earlier attempt at it is open. */
  ghost predicate OpenOnce(attempts: seq<Attempt>) {
    forall i, j :: 0 <= i < j < |attempts| && Open(attempts[i]) && Open(attempts[j]) ==> !SameSend(attempts[i], attempts[j])
  }

  /** A row as a run read it, which may be long out of date. */
  predicate ReadOk(born: seq<int>, now: int, lead: Lead) {
    lead.id < |born| && lead.createdAt == born[lead.id] && lead.step < STEPS
    && lead.nextSendAt.Some? && Earliest(born[lead.id], lead.step) <= lead.nextSendAt.value <= now
  }

  predicate CarryOk(attempts: seq<Attempt>, run: Run, n: nat) {
    n < |attempts| && run.at < |run.batch|
    && attempts[n].id == run.batch[run.at].id && attempts[n].step == run.batch[run.at].step && attempts[n].now == run.now
    && (run.phase.Holding? ==> attempts[n].fate == Held)
    && (run.phase.Waiting? ==> attempts[n].fate.OnWire? || attempts[n].fate.Accepted? || attempts[n].fate.Refused?)
  }

  ghost predicate RunOk(clock: int, born: seq<int>, attempts: seq<Attempt>, run: Run) {
    run.now <= clock
    && (forall j :: 0 <= j < |run.batch| ==> ReadOk(born, run.now, run.batch[j]))
    && (run.phase.Holding? || run.phase.Waiting? ==> CarryOk(attempts, run, run.phase.n))
  }

  ghost predicate RunsOk(clock: int, born: seq<int>, attempts: seq<Attempt>, runs: seq<Run>) {
    (forall r :: 0 <= r < |runs| ==> RunOk(clock, born, attempts, runs[r]))
    && forall i, j, n :: 0 <= i < j < |runs| && Carries(runs[i], n) ==> !Carries(runs[j], n)
  }

  ghost predicate Inv(s: State) {
    RowsOk(s.born, s.rows) && AttemptsOk(s.clock, s.born, s.rows, s.attempts) && OpenOnce(s.attempts)
    && RunsOk(s.clock, s.born, s.attempts, s.runs)
  }

  // ----- frames -----

  /** No lead is put back a step. */
  ghost predicate NoneLowered(rows: Rows, rows': Rows) {
    forall id :: id in rows' ==> id in rows && rows'[id].step >= rows[id].step
  }

  lemma AttemptsFrame(clock: int, born: seq<int>, rows: Rows, rows': Rows, attempts: seq<Attempt>)
    requires AttemptsOk(clock, born, rows, attempts) && NoneLowered(rows, rows')
    ensures AttemptsOk(clock, born, rows', attempts)
  {
    forall n | 0 <= n < |attempts| ensures AttemptOk(clock, born, rows', attempts[n]) {
      assert AttemptOk(clock, born, rows, attempts[n]);
    }
  }

  /** A run that moves on without carrying anything. */
  lemma RunMoves(clock: int, born: seq<int>, attempts: seq<Attempt>, runs: seq<Run>, r: nat, run: Run)
    requires RunsOk(clock, born, attempts, runs) && r < |runs|
    requires run.now == runs[r].now && run.batch == runs[r].batch && (run.phase == Next || run.phase == Over)
    ensures RunsOk(clock, born, attempts, runs[r := run])
  {
    assert RunOk(clock, born, attempts, runs[r]);
  }

  /** The fate of an attempt changes: no run carries it, or the run that does is waiting for the provider's answer. */
  lemma FateChanges(clock: int, born: seq<int>, attempts: seq<Attempt>, runs: seq<Run>, n: nat, a: Attempt)
    requires RunsOk(clock, born, attempts, runs) && n < |attempts| && a == attempts[n].(fate := a.fate)
    requires forall r :: 0 <= r < |runs| && Carries(runs[r], n) ==> runs[r].phase.Waiting? && (a.fate.Accepted? || a.fate.Refused?)
    ensures RunsOk(clock, born, attempts[n := a], runs)
  {
    var attempts' := attempts[n := a];
    forall r | 0 <= r < |runs| ensures RunOk(clock, born, attempts', runs[r]) {
      assert RunOk(clock, born, attempts, runs[r]);
    }
  }

  /** A run goes on carrying its attempt, or takes up one that nobody carries. */
  lemma RunCarries(clock: int, born: seq<int>, attempts: seq<Attempt>, attempts': seq<Attempt>, runs: seq<Run>, r: nat, run: Run, n: nat)
    requires RunsOk(clock, born, attempts, runs) && r < |runs| && Carries(run, n)
    requires run.now == runs[r].now && run.batch == runs[r].batch && CarryOk(attempts', run, n)
    requires forall i :: 0 <= i < |runs| && i != r ==> !Carries(runs[i], n)
    requires |attempts'| >= |attempts| && forall i :: 0 <= i < |attempts| && i != n ==> attempts'[i] == attempts[i]
    ensures RunsOk(clock, born, attempts', runs[r := run])
  {
    var runs' := runs[r := run];
    forall i | 0 <= i < |runs| ensures RunOk(clock, born, attempts', runs'[i]) {
      assert RunOk(clock, born, attempts, runs[i]);
    }
    assert forall m: nat :: Carries(run, m) ==> m == n;
  }

  lemma CarriedInRange(s: State, r: nat)
    requires Inv(s) && r < |s.runs|
    ensures forall n: nat :: Carries(s.runs[r], n) ==> n < |s.attempts| && CarryOk(s.attempts, s.runs[r], n)
  {
    assert RunOk(s.clock, s.born, s.attempts, s.runs[r]);
  }

  // ----- events -----

  lemma WriteInv(s: State, rows: Rows)
    requires Inv(s) && RowsOk(s.born, rows) && NoneLowered(s.rows, rows)
    ensures Inv(s.(rows := rows))
  {
    hide RowsOk, AttemptsOk, OpenOnce, RunsOk, NoneLowered;
    AttemptsFrame(s.clock, s.born, s.rows, rows, s.attempts);
  }

  lemma NextLeadInv(s: State, r: nat, rows: Rows)
    requires Inv(s) && r < |s.runs| && RowsOk(s.born, rows) && NoneLowered(s.rows, rows)
    ensures Inv(NextLead(s, r, rows)) && Inv(Finish(s, r, rows))
  {
    hide RowsOk, AttemptsOk, OpenOnce, RunsOk, NoneLowered;
    AttemptsFrame(s.clock, s.born, s.rows, rows, s.attempts);
    RunMoves(s.clock, s.born, s.attempts, s.runs, r, s.runs[r].(at := s.runs[r].at + 1, phase := Next));
    RunMoves(s.clock, s.born, s.attempts, s.runs, r, s.runs[r].(phase := Over));
  }

  lemma TickInv(s: State, seconds: nat)
    requires Inv(s)
    ensures Inv(s.(clock := s.clock + seconds))
  {
  }

  lemma EnrollInv(s: State, email: string, enrolledAt: int)
    requires Inv(s)
    ensures Inv(Enrolled(s, email, enrolledAt))
  {
    var t := Enrolled(s, email, enrolledAt);
    forall r | 0 <= r < |s.runs| ensures RunOk(s.clock, t.born, s.attempts, s.runs[r]) {
      assert RunOk(s.clock, s.born, s.attempts, s.runs[r]);
    }
  }

  lemma StartInv(s: State, now: int, booking: bool, limit: nat, batch: seq<Lead>)
    requires Inv(s) && now <= s.clock && IsBatch(s.rows, now, limit, batch)
    ensures Inv(s.(runs := s.runs + [Run(now, booking, batch, 0, Next)]))
  {
    forall j | 0 <= j < |batch| ensures ReadOk(s.born, now, batch[j]) {
      assert RowOk(s.born, batch[j].id, s.rows[batch[j].id]);
    }
  }

  lemma ReadIsOk(s: State, r: nat)
    requires Inv(s) && r < |s.runs| && s.runs[r].at < |s.runs[r].batch|
    ensures ReadOk(s.born, s.runs[r].now, LeadOf(s, r)) && s.runs[r].now <= s.clock
  {
    assert RunOk(s.clock, s.born, s.attempts, s.runs[r]);
  }

  lemma SmallWrites(born: seq<int>, rows: Rows, id: nat, status: Status, email: string)
    requires RowsOk(born, rows) && status != Active
    ensures RowsOk(born, WithStatus(rows, id, status)) && NoneLowered(rows, WithStatus(rows, id, status))
    ensures RowsOk(born, WithoutEmail(rows, email)) && NoneLowered(rows, WithoutEmail(rows, email))
  {
  }

  lemma AdvancedRows(born: seq<int>, rows: Rows, lead: Lead, now: int)
    requires RowsOk(born, rows) && ReadOk(born, now, lead)
    ensures var rows' := Advanced(rows, lead.id, lead.step, NextDue(lead.createdAt, lead.step + 1, now), now);
      RowsOk(born, rows') && NoneLowered(rows, rows')
  {
    NextDueMeaning(lead.createdAt, lead.step + 1, now);
  }

  lemma ReleasedRows(born: seq<int>, rows: Rows, lead: Lead, now: int)
    requires RowsOk(born, rows) && ReadOk(born, now, lead) && NeedsBooking(lead.step)
    ensures var rows' := Released(rows, lead.id, now + DAY); RowsOk(born, rows') && NoneLowered(rows, rows')
  {
  }

  predicate Goes(s: State, r: nat) {
    AtLead(s, r) && Wins(s.rows, LeadOf(s, r).id, LeadOf(s, r).step, s.runs[r].now)
    && (NeedsBooking(LeadOf(s, r).step) ==> s.runs[r].booking)
  }

  lemma WinAttempts(s: State, r: nat)
    requires Inv(s) && Goes(s, r)
    ensures var t := Looked(s, r, NothingKnown);
      AttemptsOk(t.clock, t.born, t.rows, t.attempts) && OpenOnce(t.attempts) && RowsOk(t.born, t.rows)
  {
    hide NextDue, RunsOk, RowsOk, IsDue;
    var run, lead := s.runs[r], LeadOf(s, r);
    ReadIsOk(s, r);
    AdvancedRows(s.born, s.rows, lead, run.now);
    var t := Looked(s, r, NothingKnown);
    AttemptsFrame(s.clock, s.born, s.rows, t.rows, s.attempts);
    assert forall i :: 0 <= i < |s.attempts| ==> AttemptOk(s.clock, s.born, s.rows, s.attempts[i]);
  }

  lemma WinInv(s: State, r: nat)
    requires Inv(s) && Goes(s, r)
    ensures Inv(Looked(s, r, NothingKnown))
  {
    hide NextDue, RunsOk, RowsOk, AttemptsOk, OpenOnce, Advanced;
    WinAttempts(s, r);
    var t := Looked(s, r, NothingKnown);
    NobodyCarries(s, |s.attempts|);
    RunCarries(s.clock, s.born, s.attempts, t.attempts, s.runs, r, t.runs[r], |s.attempts|);
  }

  lemma NobodyCarries(s: State, n: nat)
    requires Inv(s) && n >= |s.attempts|
    ensures forall i :: 0 <= i < |s.runs| ==> !Carries(s.runs[i], n)
  {
    forall i | 0 <= i < |s.runs| ensures !Carries(s.runs[i], n) {
      CarriedInRange(s, i);
    }
  }

  lemma LookInv(s: State, r: nat, sight: Sight)
    requires Inv(s) && AtLead(s, r)
    ensures Inv(Looked(s, r, sight))
  {
    hide Inv, RowsOk, NoneLowered, WithStatus, WithoutEmail, Released, Advanced, NextDue, Wins, ReadOk;
    var run, lead := s.runs[r], LeadOf(s, r);
    ReadIsOk(s, r);
    assert RowsOk(s.born, s.rows) by { InvRows(s); }
    SmallWrites(s.born, s.rows, lead.id, Converted, lead.email);
    if sight.OnSuppressionList? {
      NextLeadInv(s, r, WithoutEmail(s.rows, lead.email));
    } else if sight.IsMember? {
      NextLeadInv(s, r, WithStatus(s.rows, lead.id, Converted));
    } else if NeedsBooking(lead.step) && !run.booking {
      ReleasedRows(s.born, s.rows, lead, run.now);
      NextLeadInv(s, r, Released(s.rows, lead.id, run.now + DAY));
    } else if Wins(s.rows, lead.id, lead.step, run.now) {
      WinInv(s, r);
      assert sight == NothingKnown;
    } else {
      SameRows(s.rows);
      NextLeadInv(s, r, s.rows);
    }
  }

  lemma InvRows(s: State)
    requires Inv(s)
    ensures RowsOk(s.born, s.rows)
  {
  }

  lemma SameRows(rows: Rows)
    ensures NoneLowered(rows, rows)
  {
  }

  lemma LoseInv(s: State, r: nat)
    requires Inv(s) && AtLead(s, r)
    ensures Inv(Step(s, LoseAnswer(r)).value)
  {
    hide Inv, RowsOk, NoneLowered, Advanced, NextDue, ReadOk;
    var lead := LeadOf(s, r);
    ReadIsOk(s, r);
    InvRows(s);
    AdvancedRows(s.born, s.rows, lead, s.runs[r].now);
    NextLeadInv(s, r, Advanced(s.rows, lead.id, lead.step, NextDue(lead.createdAt, lead.step + 1, s.runs[r].now), s.runs[r].now));
  }

  lemma RestoredRows(born: seq<int>, rows: Rows, lead: Lead, now: int)
    requires RowsOk(born, rows) && ReadOk(born, now, lead)
    ensures RowsOk(born, Restored(rows, lead.id, lead.step + 1, lead.step, lead.nextSendAt.value, lead.lastSentAt))
  {
  }

  /** Putting a step back leaves every other open attempt below its lead's step. */
  lemma RestoredAttempts(clock: int, born: seq<int>, rows: Rows, rows': Rows, attempts: seq<Attempt>, n: nat, next: int, last: Option<int>)
    requires AttemptsOk(clock, born, rows, attempts) && OpenOnce(attempts) && n < |attempts| && Open(attempts[n])
    requires rows' == Restored(rows, attempts[n].id, attempts[n].step + 1, attempts[n].step, next, last)
    ensures AttemptsOk(clock, born, rows', attempts[n := attempts[n].(fate := Returned)])
    ensures OpenOnce(attempts[n := attempts[n].(fate := Returned)])
  {
    var attempts' := attempts[n := attempts[n].(fate := Returned)];
    forall i | 0 <= i < |attempts| ensures AttemptOk(clock, born, rows', attempts'[i]) {
      assert AttemptOk(clock, born, rows, attempts[i]);
      if i != n && Open(attempts[i]) {
        assert !SameSend(attempts[i], attempts[n]);
      }
    }
  }

  lemma GiveBackInv(s: State, r: nat, n: nat)
    requires Inv(s) && r < |s.runs| && Carries(s.runs[r], n) && n < |s.attempts| && s.runs[r].at < |s.runs[r].batch|
    ensures Inv(GiveBack(s, r, n))
  {
    hide RowsOk, AttemptsOk, OpenOnce, RunsOk, Restored;
    var run, lead := s.runs[r], LeadOf(s, r);
    CarriedInRange(s, r);
    ReadIsOk(s, r);
    RestoredRows(s.born, s.rows, lead, run.now);
    var t := GiveBack(s, r, n);
    RestoredAttempts(s.clock, s.born, s.rows, t.rows, s.attempts, n, lead.nextSendAt.value, lead.lastSentAt);
    RunMoves(s.clock, s.born, s.attempts, s.runs, r, run.(phase := Over));
    assert forall i :: 0 <= i < |t.runs| ==> !Carries(t.runs[i], n) by { CarriedOnce(s, r, n); }
    FateChanges(s.clock, s.born, s.attempts, t.runs, n, s.attempts[n].(fate := Returned));
  }

  lemma CarriedOnce(s: State, r: nat, n: nat)
    requires Inv(s) && r < |s.runs| && Carries(s.runs[r], n)
    ensures forall i :: 0 <= i < |s.runs| && i != r ==> !Carries(s.runs[i], n)
  {
  }

  /** An attempt whose mail is sent, accepted or refused is as open as before. */
  lemma FateAttempts(clock: int, born: seq<int>, rows: Rows, attempts: seq<Attempt>, n: nat, fate: Fate)
    requires AttemptsOk(clock, born, rows, attempts) && OpenOnce(attempts) && n < |attempts| && Open(attempts[n])
    requires fate.OnWire? || fate == Accepted(clock) || fate.Refused?
    ensures AttemptsOk(clock, born, rows, attempts[n := attempts[n].(fate := fate)])
    ensures OpenOnce(attempts[n := attempts[n].(fate := fate)])
  {
    var attempts' := attempts[n := attempts[n].(fate := fate)];
    assert forall i :: 0 <= i < |attempts| ==> AttemptOk(clock, born, rows, attempts[i]);
  }

  lemma SendInv(s: State, r: nat)
    requires Inv(s) && Step(s, Send(r)).Some?
    ensures Inv(Step(s, Send(r)).value)
  {
    hide AttemptsOk, OpenOnce, RunsOk;
    var n := s.runs[r].phase.n;
    assert Carries(s.runs[r], n);
    CarriedInRange(s, r);
    CarriedOnce(s, r, n);
    FateAttempts(s.clock, s.born, s.rows, s.attempts, n, OnWire);
    var t := Step(s, Send(r)).value;
    RunCarries(s.clock, s.born, s.attempts, t.attempts, s.runs, r, t.runs[r], n);
  }

  lemma ProviderInv(s: State, n: nat, fate: Fate)
    requires Inv(s) && n < |s.attempts| && s.attempts[n].fate == OnWire && (fate == Accepted(s.clock) || fate == Refused)
    ensures Inv(SetFate(s, n, fate))
  {
    hide AttemptsOk, OpenOnce, RunsOk;
    FateAttempts(s.clock, s.born, s.rows, s.attempts, n, fate);
    forall r | 0 <= r < |s.runs| && Carries(s.runs[r], n) ensures s.runs[r].phase.Waiting? {
      CarriedInRange(s, r);
    }
    FateChanges(s.clock, s.born, s.attempts, s.runs, n, s.attempts[n].(fate := fate));
  }

  lemma HearInv(s: State, r: nat, answer: Answer)
    requires Inv(s) && CanHear(s, r, answer)
    ensures Inv(Heard(s, r, answer))
  {
    hide Inv, RowsOk, NoneLowered, WithStatus, WithoutEmail, GiveBack;
    var lead := LeadOf(s, r);
    InvRows(s);
    SmallWrites(s.born, s.rows, lead.id, Bounced, lead.email);
    SameRows(s.rows);
    match answer
    case Sent => NextLeadInv(s, r, s.rows);
    case SuppressedNow => NextLeadInv(s, r, WithoutEmail(s.rows, lead.email));
    case BadRecipient => NextLeadInv(s, r, WithStatus(s.rows, lead.id, Bounced));
    case NotSent => GiveBackInv(s, r, s.runs[r].phase.n);
    case Unknown => NextLeadInv(s, r, s.rows);
  }

  lemma ForgetRows(born: seq<int>, rows: Rows, ids: set<nat>)
    requires RowsOk(born, rows)
    ensures RowsOk(born, rows - ids) && NoneLowered(rows, rows - ids)
  {
  }

  lemma InvStep(s: State, e: Event)
    requires Inv(s) && Step(s, e).Some?
    ensures Inv(Step(s, e).value)
  {
    hide Inv, RowsOk, NoneLowered, WithStatus, GiveBack, Looked, Heard, Enrolled, IsBatch, WithoutEmail, Advanced;
    InvRows(s);
    SameRows(s.rows);
    match e
    case Tick(seconds) => TickInv(s, seconds);
    case Enroll(email, enrolledAt) => EnrollInv(s, email, enrolledAt);
    case Stop(id, reason) =>
      SmallWrites(s.born, s.rows, id, reason, "");
      WriteInv(s, WithStatus(s.rows, id, reason));
    case Forget(ids) =>
      ForgetRows(s.born, s.rows, ids);
      WriteInv(s, s.rows - ids);
    case Start(now, booking, limit, batch) => StartInv(s, now, booking, limit, batch);
    case Look(r, sight) => LookInv(s, r, sight);
    case LoseAnswer(r) => LoseInv(s, r);
    case Die(r) => NextLeadInv(s, r, s.rows);
    case Throw(r) => GiveBackInv(s, r, s.runs[r].phase.n);
    case Send(r) => SendInv(s, r);
    case Deliver(n) => ProviderInv(s, n, Accepted(s.clock));
    case Refuse(n) => ProviderInv(s, n, Refused);
    case Hear(r, answer) => HearInv(s, r, answer);
  }

  lemma {:induction false} InvAfter(s: State, events: seq<Event>)
    requires Inv(s)
    ensures After(s, events).Some? ==> Inv(After(s, events).value)
    decreases |events|
  {
    hide Inv, Step;
    if events != [] && Step(s, events[0]).Some? {
      InvStep(s, events[0]);
      InvAfter(Step(s, events[0]).value, events[1..]);
    }
  }

  // ----- the two promises that hold for every run -----

  ghost predicate AtMostOnce(s: State) {
    forall i, j :: 0 <= i < j < |s.attempts| && s.attempts[i].fate.Accepted? && s.attempts[j].fate.Accepted? ==>
      !SameSend(s.attempts[i], s.attempts[j])
  }

  /** Nothing reaches the provider before it is due, on the run's clock and on the real one. */
  ghost predicate NeverEarly(s: State) {
    forall n :: 0 <= n < |s.attempts| ==>
      var a := s.attempts[n];
      a.id < |s.born| && a.step < STEPS && a.now >= Earliest(s.born[a.id], a.step)
      && (a.fate.Accepted? ==> a.fate.at >= Earliest(s.born[a.id], a.step))
  }

  /**
   * Whatever runs overlap, crash, lose answers or are stopped: no step is accepted twice for one lead, and none before
   * its day after enrolment.
   */
  lemma AtMostOnceNeverEarly(s: State, events: seq<Event>)
    requires Fresh(s)
    ensures After(s, events).Some? ==> AtMostOnce(After(s, events).value) && NeverEarly(After(s, events).value)
  {
    hide After, Step;
    InvAfter(s, events);
    if After(s, events).Some? {
      var t := After(s, events).value;
      assert forall n :: 0 <= n < |t.attempts| ==> AttemptOk(t.clock, t.born, t.rows, t.attempts[n]);
    }
  }
}
