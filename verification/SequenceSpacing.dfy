/**
 * The day between two emails to one lead, which holds when no run outlives the catch-up interval.
 */
module SequenceSpacing {
  import opened Wrappers
  import opened Leads
  import opened Sequence

  // ----- what prompt runs keep -----

  /** Which runs there are: of any kind, or all with the same answer to whether there is a booking link. */
  datatype Config = AnyBooking | Always(booking: bool)

  /** Without a booking link the last email is never sent. */
  predicate NeverLast(m: Config) {
    m == Always(false)
  }

  /** How long runs may live: a second longer if they all are of one kind. */
  function LifeOf(m: Config): nat {
    if m.Always? then CATCH_UP_SECONDS + 1 else CATCH_UP_SECONDS
  }

  function Days(k: nat): (d: int)
    ensures k >= 1 ==> d >= CATCH_UP_SECONDS
    ensures k >= 2 ==> d > CATCH_UP_SECONDS
  {
    if k == 0 then 0 else CATCH_UP_SECONDS + Days(k - 1)
  }

  predicate Behind(a: Attempt, t: int) {
    t >= a.now + CATCH_UP_SECONDS
  }

  predicate PairSpaced(a: Attempt, b: Attempt) {
    Open(a) && Open(b) && a.id == b.id && a.step < b.step ==> Behind(a, b.now)
  }

  ghost predicate AttemptsSpaced(attempts: seq<Attempt>) {
    forall i, j :: 0 <= i < |attempts| && 0 <= j < |attempts| ==> PairSpaced(attempts[i], attempts[j])
  }

  /** `next` is a day for every step after the attempt. */
  predicate DaysBehind(a: Attempt, step: nat, next: int)
    requires a.step < step
  {
    next >= a.now + Days(step - a.step)
  }

  /** A lead's next email is due a day after the last open attempt, two days after the one before, and so on. */
  predicate RowSpaced(m: Config, rows: Rows, a: Attempt) {
    Open(a) && a.id in rows && rows[a.id].status == Active && rows[a.id].nextSendAt.Some? && a.step < rows[a.id].step ==>
      DaysBehind(a, rows[a.id].step, rows[a.id].nextSendAt.value)
      || (NeverLast(m) && rows[a.id].step == STEPS - 1 && a.step == STEPS - 2)
  }

  ghost predicate RowsSpaced(m: Config, rows: Rows, attempts: seq<Attempt>) {
    forall n :: 0 <= n < |attempts| ==> RowSpaced(m, rows, attempts[n])
  }

  /**
   * The same of a row as a run read it, for attempts at earlier steps. A run that read it just when the attempt before
   * could still be put back may have it wrong by one step, but then comes too early to send the next.
   */
  ghost predicate ReadSpaced(m: Config, attempts: seq<Attempt>, now: int, lead: Lead) {
    forall n :: 0 <= n < |attempts| && Open(attempts[n]) && attempts[n].id == lead.id && attempts[n].step < lead.step ==>
      lead.nextSendAt.Some?
      && (DaysBehind(attempts[n], lead.step, lead.nextSendAt.value)
          || (m.Always? && attempts[n].step + 1 == lead.step
              && (!Behind(attempts[n], now) || (NeverLast(m) && lead.step == STEPS - 1))))
  }

  ghost predicate ReadsSpaced(m: Config, attempts: seq<Attempt>, runs: seq<Run>) {
    forall r, j :: 0 <= r < |runs| && 0 <= j < |runs[r].batch| && Live(runs[r]) ==> ReadSpaced(m, attempts, runs[r].now, runs[r].batch[j])
  }

  /** A run read the lead one step on, on the very second it was due. */
  predicate OneAhead(m: Config, now: int, lead: Lead, step: nat) {
    m.Always? && lead.step == step + 1 && (lead.nextSendAt == Some(now) || (NeverLast(m) && lead.step == STEPS - 1))
  }

  /** No live run has read a lead further on than it is, but by that one step. */
  ghost predicate ReadsBelow(m: Config, rows: Rows, runs: seq<Run>) {
    forall r, j :: 0 <= r < |runs| && 0 <= j < |runs[r].batch| && Live(runs[r]) && runs[r].batch[j].id in rows ==>
      runs[r].batch[j].step <= rows[runs[r].batch[j].id].step
      || OneAhead(m, runs[r].now, runs[r].batch[j], rows[runs[r].batch[j].id].step)
  }

  ghost predicate NotPast(m: Config, runs: seq<Run>, a: Attempt) {
    forall r, j :: 0 <= r < |runs| && 0 <= j < |runs[r].batch| && Live(runs[r]) && runs[r].batch[j].id == a.id ==>
      runs[r].batch[j].step <= a.step || OneAhead(m, runs[r].now, runs[r].batch[j], a.step)
  }

  /** While a run may still put a step back, no live run has read that lead past the step, but by that one step. */
  ghost predicate NonePast(m: Config, attempts: seq<Attempt>, runs: seq<Run>) {
    forall r, n :: 0 <= r < |runs| && 0 <= n < |attempts| && Carries(runs[r], n) ==> NotPast(m, runs, attempts[n])
  }

  ghost predicate ConfigOk(m: Config, attempts: seq<Attempt>, runs: seq<Run>) {
    m.Always? ==>
      (forall r :: 0 <= r < |runs| ==> runs[r].booking == m.booking)
      && (NeverLast(m) ==> forall n :: 0 <= n < |attempts| ==> attempts[n].step < STEPS - 1)
  }

  ghost predicate Spacing(m: Config, s: State) {
    AttemptsSpaced(s.attempts) && RowsSpaced(m, s.rows, s.attempts) && ReadsSpaced(m, s.attempts, s.runs)
    && ReadsBelow(m, s.rows, s.runs) && NonePast(m, s.attempts, s.runs) && ConfigOk(m, s.attempts, s.runs)
  }

  /** Every run still at work began less than `life` seconds ago. */
  ghost predicate PromptWithin(s: State, life: nat) {
    forall r :: 0 <= r < |s.runs| && Live(s.runs[r]) ==> s.clock < s.runs[r].now + life
  }

  /** No run lives longer than that. */
  ghost predicate Prompt(m: Config, s: State) {
    PromptWithin(s, LifeOf(m))
  }

  /** The event does not start a run of another kind. */
  predicate Fits(m: Config, e: Event) {
    m.Always? && e.Start? ==> e.booking == m.booking
  }

  // ----- frames -----

  /** Rows that still have a next email have it no earlier than before. */
  ghost predicate NoneSooner(rows: Rows, rows': Rows) {
    forall id :: id in rows' && rows'[id].status == Active ==>
      id in rows && rows[id].status == Active && rows'[id].step == rows[id].step && (rows'[id].nextSendAt.Some? ==>
      rows[id].nextSendAt.Some? && rows'[id].nextSendAt.value >= rows[id].nextSendAt.value)
  }

  lemma RowsFrame(m: Config, s: State, rows: Rows)
    requires Spacing(m, s) && NoneLowered(s.rows, rows) && (NoneSooner(s.rows, rows) || RowsSpaced(m, rows, s.attempts))
    ensures Spacing(m, s.(rows := rows))
  {
    hide AttemptsSpaced, ReadsSpaced, NonePast;
    assert forall n :: 0 <= n < |s.attempts| ==> RowSpaced(m, s.rows, s.attempts[n]);
  }

  /** A run goes on, taking up no attempt. */
  lemma RunFrame(m: Config, s: State, r: nat, run: Run)
    requires Spacing(m, s) && r < |s.runs| && Live(s.runs[r])
    requires run.batch == s.runs[r].batch && run.now == s.runs[r].now && run.booking == s.runs[r].booking
    requires forall n: nat :: Carries(run, n) ==> Carries(s.runs[r], n)
    ensures Spacing(m, s.(runs := s.runs[r := run]))
  {
    hide AttemptsSpaced, RowsSpaced, ReadSpaced;
    var runs := s.runs[r := run];
    forall i, n | 0 <= i < |runs| && 0 <= n < |s.attempts| && Carries(runs[i], n) ensures NotPast(m, runs, s.attempts[n]) {
      assert Carries(s.runs[i], n);
      assert NotPast(m, s.runs, s.attempts[n]);
    }
  }

  /** A run that has stopped may be declared stopped again. */
  lemma StoppedFrame(m: Config, s: State, r: nat)
    requires Spacing(m, s) && r < |s.runs|
    ensures Spacing(m, s.(runs := s.runs[r := s.runs[r].(phase := Over)]))
  {
    if Live(s.runs[r]) {
      RunFrame(m, s, r, s.runs[r].(phase := Over));
    } else {
      assert s.runs[r := s.runs[r].(phase := Over)] == s.runs;
    }
  }

  /** Attempts change their fates, none of them becoming open. */
  lemma FateFrame(m: Config, s: State, n: nat, fate: Fate)
    requires Spacing(m, s) && n < |s.attempts| && Open(s.attempts[n])
    ensures Spacing(m, SetFate(s, n, fate))
  {
    var t := SetFate(s, n, fate);
    assert forall i :: 0 <= i < |s.attempts| ==> RowSpaced(m, s.rows, s.attempts[i]);
    forall r, j | 0 <= r < |s.runs| && 0 <= j < |s.runs[r].batch| && Live(s.runs[r])
      ensures ReadSpaced(m, t.attempts, s.runs[r].now, s.runs[r].batch[j])
    {
      assert ReadSpaced(m, s.attempts, s.runs[r].now, s.runs[r].batch[j]);
    }
    forall r, i | 0 <= r < |s.runs| && 0 <= i < |s.attempts| && Carries(s.runs[r], i) ensures NotPast(m, s.runs, t.attempts[i]) {
      assert NotPast(m, s.runs, s.attempts[i]);
    }
  }

  // ----- events -----

  lemma LiveRead(m: Config, s: State, r: nat)
    requires Inv(s) && Spacing(m, s) && r < |s.runs| && Live(s.runs[r]) && s.runs[r].at < |s.runs[r].batch|
    ensures ReadOk(s.born, s.runs[r].now, LeadOf(s, r)) && ReadSpaced(m, s.attempts, s.runs[r].now, LeadOf(s, r))
    ensures LeadOf(s, r).id in s.rows ==>
      LeadOf(s, r).step <= s.rows[LeadOf(s, r).id].step || OneAhead(m, s.runs[r].now, LeadOf(s, r), s.rows[LeadOf(s, r).id].step)
  {
    ReadIsOk(s, r);
  }

  lemma NextLeadSpacing(m: Config, s: State, r: nat, rows: Rows)
    requires Spacing(m, s) && r < |s.runs| && Live(s.runs[r])
    requires NoneLowered(s.rows, rows) && (NoneSooner(s.rows, rows) || RowsSpaced(m, rows, s.attempts))
    ensures Spacing(m, NextLead(s, r, rows)) && Spacing(m, Finish(s, r, rows))
  {
    hide Spacing, NoneSooner, RowsSpaced, NoneLowered;
    RowsFrame(m, s, rows);
    var t := s.(rows := rows);
    RunFrame(m, t, r, s.runs[r].(at := s.runs[r].at + 1, phase := Next));
    RunFrame(m, t, r, s.runs[r].(phase := Over));
  }

  lemma SmallWritesSpacing(born: seq<int>, rows: Rows, id: nat, status: Status, email: string, ids: set<nat>)
    requires RowsOk(born, rows) && status != Active
    ensures NoneSooner(rows, WithStatus(rows, id, status)) && NoneLowered(rows, WithStatus(rows, id, status))
    ensures NoneSooner(rows, WithoutEmail(rows, email)) && NoneLowered(rows, WithoutEmail(rows, email))
    ensures NoneSooner(rows, rows - ids) && NoneLowered(rows, rows - ids) && NoneSooner(rows, rows) && NoneLowered(rows, rows)
  {
  }

  lemma EnrollSpacing(m: Config, s: State, email: string, enrolledAt: int)
    requires Inv(s) && Spacing(m, s)
    ensures Spacing(m, Enrolled(s, email, enrolledAt))
  {
    hide AttemptsSpaced, NonePast, ReadsSpaced;
    var t := Enrolled(s, email, enrolledAt);
    forall n | 0 <= n < |s.attempts| ensures RowSpaced(m, t.rows, s.attempts[n]) {
      assert AttemptOk(s.clock, s.born, s.rows, s.attempts[n]) && RowSpaced(m, s.rows, s.attempts[n]);
    }
    forall r, j | 0 <= r < |s.runs| && 0 <= j < |s.runs[r].batch| && Live(s.runs[r]) ensures s.runs[r].batch[j].id < |s.born| {
      assert RunOk(s.clock, s.born, s.attempts, s.runs[r]) && ReadOk(s.born, s.runs[r].now, s.runs[r].batch[j]);
    }
  }

  /** The key step: a batch never holds a lead whose last step a live run may still put back. */
  lemma StartSpacing(m: Config, s: State, now: int, booking: bool, limit: nat, batch: seq<Lead>)
    requires Inv(s) && Spacing(m, s) && Prompt(m, s) && Fits(m, Start(now, booking, limit, batch))
    requires now <= s.clock && IsBatch(s.rows, now, limit, batch)
    ensures Spacing(m, s.(runs := s.runs + [Run(now, booking, batch, 0, Next)]))
  {
    hide AttemptsSpaced, RowsOk;
    var runs := s.runs + [Run(now, booking, batch, 0, Next)];
    forall j | 0 <= j < |batch| ensures ReadSpaced(m, s.attempts, now, batch[j]) {
      assert forall n :: 0 <= n < |s.attempts| ==> RowSpaced(m, s.rows, s.attempts[n]);
    }
    forall r, n | 0 <= r < |runs| && 0 <= n < |s.attempts| && Carries(runs[r], n) ensures NotPast(m, runs, s.attempts[n]) {
      CarriedNotDue(m, s, r, n, now);
      assert NotPast(m, s.runs, s.attempts[n]);
    }
  }

  /** While a run may still put a step back, the lead is not due, but for the very second that ends its day. */
  lemma CarriedNotDue(m: Config, s: State, r: nat, n: nat, now: int)
    requires Inv(s) && Spacing(m, s) && Prompt(m, s) && now <= s.clock && r < |s.runs| && n < |s.attempts| && Carries(s.runs[r], n)
    ensures var a := s.attempts[n];
      a.id in s.rows && IsDue(s.rows[a.id], now) ==> OneAhead(m, now, s.rows[a.id], a.step)
  {
    CarriedInRange(s, r);
    assert RowSpaced(m, s.rows, s.attempts[n]) && AttemptOk(s.clock, s.born, s.rows, s.attempts[n]);
  }

  /** A hold moves the row by what the run read, which may be long out of date. */
  lemma ReleasedSpacing(m: Config, s: State, r: nat)
    requires Inv(s) && Spacing(m, s) && AtLead(s, r) && NeedsBooking(LeadOf(s, r).step) && !s.runs[r].booking
    ensures RowsSpaced(m, Released(s.rows, LeadOf(s, r).id, s.runs[r].now + DAY), s.attempts)
  {
    hide AttemptsSpaced, ReadsSpaced, ReadsBelow, NonePast, RunsOk, OpenOnce;
    var lead := LeadOf(s, r);
    LiveRead(m, s, r);
    var rows := Released(s.rows, lead.id, s.runs[r].now + DAY);
    forall n | 0 <= n < |s.attempts| ensures RowSpaced(m, rows, s.attempts[n]) {
      var a := s.attempts[n];
      assert RowSpaced(m, s.rows, a) && AttemptOk(s.clock, s.born, s.rows, a);
      if a.id == lead.id && lead.id in s.rows && Open(a) && s.rows[a.id].status == Active && a.step < s.rows[a.id].step {
        assert RowOk(s.born, lead.id, s.rows[lead.id]);
        MoreDays(a, lead.step, s.rows[a.id].step);
      }
    }
  }

  lemma MoreDays(a: Attempt, high: nat, low: nat)
    requires a.step < low <= high
    ensures Days(low - a.step) <= Days(high - a.step)
    decreases high
  {
    if low < high {
      MoreDays(a, high - 1, low);
    }
  }

  lemma AdvancedSpacing(m: Config, s: State, r: nat)
    requires Inv(s) && Spacing(m, s) && AtLead(s, r)
    ensures var lead := LeadOf(s, r);
      RowsSpaced(m, Advanced(s.rows, lead.id, lead.step, NextDue(lead.createdAt, lead.step + 1, s.runs[r].now), s.runs[r].now), s.attempts)
  {
    hide AttemptsSpaced, ReadsSpaced, ReadsBelow, NonePast, RunsOk, RowsOk, OpenOnce;
    var lead, now := LeadOf(s, r), s.runs[r].now;
    NextDueMeaning(lead.createdAt, lead.step + 1, now);
    var rows := Advanced(s.rows, lead.id, lead.step, NextDue(lead.createdAt, lead.step + 1, now), now);
    forall n | 0 <= n < |s.attempts| ensures RowSpaced(m, rows, s.attempts[n]) {
      var a := s.attempts[n];
      assert RowSpaced(m, s.rows, a) && AttemptOk(s.clock, s.born, s.rows, a);
      if a.step < lead.step {
        assert Days(lead.step + 1 - a.step) == CATCH_UP_SECONDS + Days(lead.step - a.step);
      }
    }
  }

  lemma WinSpacing(m: Config, s: State, r: nat)
    requires Inv(s) && Spacing(m, s) && Goes(s, r)
    ensures Spacing(m, Looked(s, r, NothingKnown))
  {
    hide Inv, ReadSpaced, NextDue, Advanced, RowsSpaced, ReadsSpaced, NonePast, ReadsBelow;
    var lead, t, n := LeadOf(s, r), Looked(s, r, NothingKnown), |s.attempts|;
    var b := t.attempts[n];
    WinAttemptsSpaced(m, s, r);
    WinRowsSpaced(m, s, r);
    WinReads(m, s, r);
  }

  lemma WinAttemptsSpaced(m: Config, s: State, r: nat)
    requires Inv(s) && Spacing(m, s) && Goes(s, r)
    ensures AttemptsSpaced(Looked(s, r, NothingKnown).attempts)
  {
    hide ReadsSpaced, ReadsBelow, NonePast, RunsOk, RowsOk, Advanced, NextDue;
    var t, n := Looked(s, r, NothingKnown), |s.attempts|;
    forall i | 0 <= i < n ensures PairSpaced(s.attempts[i], t.attempts[n]) && PairSpaced(t.attempts[n], s.attempts[i]) {
      assert RowSpaced(m, s.rows, s.attempts[i]) && AttemptOk(s.clock, s.born, s.rows, s.attempts[i]);
    }
    forall i, j | 0 <= i <= n && 0 <= j <= n ensures PairSpaced(t.attempts[i], t.attempts[j]) {
      assert i < n && j < n ==> PairSpaced(s.attempts[i], s.attempts[j]);
    }
  }

  lemma WinRowsSpaced(m: Config, s: State, r: nat)
    requires Inv(s) && Spacing(m, s) && Goes(s, r)
    ensures RowsSpaced(m, Looked(s, r, NothingKnown).rows, Looked(s, r, NothingKnown).attempts)
  {
    hide Inv, AttemptsSpaced, ReadsSpaced, ReadsBelow, NonePast;
    var lead, t, n := LeadOf(s, r), Looked(s, r, NothingKnown), |s.attempts|;
    AdvancedSpacing(m, s, r);
    NextDueMeaning(lead.createdAt, lead.step + 1, s.runs[r].now);
    forall i | 0 <= i <= n ensures RowSpaced(m, t.rows, t.attempts[i]) {
      assert i < n ==> RowSpaced(m, t.rows, s.attempts[i]);
    }
  }

  lemma WinReads(m: Config, s: State, r: nat)
    requires Inv(s) && Spacing(m, s) && Goes(s, r)
    ensures var t := Looked(s, r, NothingKnown);
      ReadsSpaced(m, t.attempts, t.runs) && ReadsBelow(m, t.rows, t.runs) && NonePast(m, t.attempts, t.runs)
  {
    hide AttemptsSpaced, RowsSpaced, RowsOk, AttemptsOk, OpenOnce, NextDue, IsDue;
    var t, n := Looked(s, r, NothingKnown), |s.attempts|;
    var b := t.attempts[n];
    assert NotPast(m, t.runs, b);
    forall q, j | 0 <= q < |t.runs| && 0 <= j < |t.runs[q].batch| && Live(t.runs[q])
      ensures ReadSpaced(m, t.attempts, t.runs[q].now, t.runs[q].batch[j])
    {
      assert ReadSpaced(m, s.attempts, s.runs[q].now, s.runs[q].batch[j]);
    }
    forall q, i | 0 <= q < |t.runs| && 0 <= i < |t.attempts| && Carries(t.runs[q], i) ensures NotPast(m, t.runs, t.attempts[i]) {
      if q != r {
        CarriedInRange(s, q);
        assert NotPast(m, s.runs, s.attempts[i]);
      }
    }
  }

  lemma GiveBackSpacing(m: Config, s: State, r: nat, n: nat)
    requires Inv(s) && Spacing(m, s) && r < |s.runs| && Carries(s.runs[r], n) && n < |s.attempts| && s.runs[r].at < |s.runs[r].batch|
    ensures Spacing(m, GiveBack(s, r, n))
  {
    hide Inv, AttemptsSpaced, RowsSpaced, ReadsSpaced, ReadsBelow, NonePast, Restored;
    var lead := LeadOf(s, r);
    LiveRead(m, s, r);
    CarriedInRange(s, r);
    var u := Finish(SetFate(s, n, Returned), r, s.rows);
    FateFrame(m, s, n, Returned);
    RunFrame(m, SetFate(s, n, Returned), r, s.runs[r].(phase := Over));
    assert Spacing(m, u);
    RestoredRowsSpaced(m, s, n, lead);
    RestoredReadsBelow(m, s, r, n, lead);
  }

  lemma RestoredRowsSpaced(m: Config, s: State, n: nat, lead: Lead)
    requires Inv(s) && Spacing(m, s) && n < |s.attempts| && Open(s.attempts[n]) && lead.nextSendAt.Some?
    requires ReadSpaced(m, s.attempts, s.attempts[n].now, lead) && s.attempts[n].id == lead.id && s.attempts[n].step == lead.step
    requires NeverLast(m) ==> lead.step < STEPS - 1
    ensures RowsSpaced(m, Restored(s.rows, lead.id, lead.step + 1, lead.step, lead.nextSendAt.value, lead.lastSentAt),
                       s.attempts[n := s.attempts[n].(fate := Returned)])
  {
    hide ReadsSpaced, ReadsBelow, NonePast, RunsOk, RowsOk;
    var rows := Restored(s.rows, lead.id, lead.step + 1, lead.step, lead.nextSendAt.value, lead.lastSentAt);
    forall i | 0 <= i < |s.attempts| && i != n ensures RowSpaced(m, rows, s.attempts[i]) {
      assert RowSpaced(m, s.rows, s.attempts[i]) && AttemptOk(s.clock, s.born, s.rows, s.attempts[i]);
      assert Open(s.attempts[i]) ==> !SameSend(s.attempts[i], s.attempts[n]) && PairSpaced(s.attempts[i], s.attempts[n]);
    }
  }

  lemma RestoredReadsBelow(m: Config, s: State, r: nat, n: nat, lead: Lead)
    requires Spacing(m, s) && r < |s.runs| && Carries(s.runs[r], n) && n < |s.attempts| && lead.nextSendAt.Some?
    requires s.attempts[n].id == lead.id && s.attempts[n].step == lead.step
    ensures ReadsBelow(m, Restored(s.rows, lead.id, lead.step + 1, lead.step, lead.nextSendAt.value, lead.lastSentAt),
                       s.runs[r := s.runs[r].(phase := Over)])
  {
    hide AttemptsSpaced, ReadsSpaced, RowsSpaced;
    assert NotPast(m, s.runs, s.attempts[n]);
  }

  lemma LookSpacing(m: Config, s: State, r: nat, sight: Sight)
    requires Inv(s) && Spacing(m, s) && AtLead(s, r)
    ensures Spacing(m, Looked(s, r, sight))
  {
    hide Inv, Spacing, RowsOk, NoneLowered, NoneSooner, RowsSpaced, WithStatus, WithoutEmail, Released, Advanced, NextDue, Wins, ReadOk, IsDue;
    var run, lead := s.runs[r], LeadOf(s, r);
    InvRows(s);
    ReadIsOk(s, r);
    SmallWritesSpacing(s.born, s.rows, lead.id, Converted, lead.email, {});
    if sight.OnSuppressionList? {
      NextLeadSpacing(m, s, r, WithoutEmail(s.rows, lead.email));
    } else if sight.IsMember? {
      NextLeadSpacing(m, s, r, WithStatus(s.rows, lead.id, Converted));
    } else if NeedsBooking(lead.step) && !run.booking {
      ReleasedRows(s.born, s.rows, lead, run.now);
      ReleasedSpacing(m, s, r);
      NextLeadSpacing(m, s, r, Released(s.rows, lead.id, run.now + DAY));
    } else if Wins(s.rows, lead.id, lead.step, run.now) {
      WinSpacing(m, s, r);
      assert sight == NothingKnown;
    } else {
      NextLeadSpacing(m, s, r, s.rows);
    }
  }

  lemma LoseSpacing(m: Config, s: State, r: nat)
    requires Inv(s) && Spacing(m, s) && AtLead(s, r)
    ensures Spacing(m, Step(s, LoseAnswer(r)).value)
  {
    hide Inv, Spacing, RowsOk, NoneLowered, NoneSooner, RowsSpaced, Advanced, NextDue, ReadOk;
    InvRows(s);
    ReadIsOk(s, r);
    AdvancedRows(s.born, s.rows, LeadOf(s, r), s.runs[r].now);
    AdvancedSpacing(m, s, r);
    var lead := LeadOf(s, r);
    NextLeadSpacing(m, s, r, Advanced(s.rows, lead.id, lead.step, NextDue(lead.createdAt, lead.step + 1, s.runs[r].now), s.runs[r].now));
  }

  lemma HearSpacing(m: Config, s: State, r: nat, answer: Answer)
    requires Inv(s) && Spacing(m, s) && CanHear(s, r, answer)
    ensures Spacing(m, Heard(s, r, answer))
  {
    hide Inv, Spacing, RowsOk, NoneLowered, NoneSooner, RowsSpaced, WithStatus, WithoutEmail, GiveBack;
    var lead := LeadOf(s, r);
    InvRows(s);
    SmallWritesSpacing(s.born, s.rows, lead.id, Bounced, lead.email, {});
    match answer
    case Sent => NextLeadSpacing(m, s, r, s.rows);
    case SuppressedNow => NextLeadSpacing(m, s, r, WithoutEmail(s.rows, lead.email));
    case BadRecipient => NextLeadSpacing(m, s, r, WithStatus(s.rows, lead.id, Bounced));
    case NotSent => GiveBackSpacing(m, s, r, s.runs[r].phase.n);
    case Unknown => NextLeadSpacing(m, s, r, s.rows);
  }

  lemma SendSpacing(m: Config, s: State, r: nat)
    requires Inv(s) && Spacing(m, s) && Step(s, Send(r)).Some?
    ensures Spacing(m, Step(s, Send(r)).value)
  {
    hide Inv, Spacing;
    var n := s.runs[r].phase.n;
    assert Carries(s.runs[r], n);
    CarriedInRange(s, r);
    RunFrame(m, s, r, s.runs[r].(phase := Waiting(n)));
    FateFrame(m, s.(runs := s.runs[r := s.runs[r].(phase := Waiting(n))]), n, OnWire);
  }

  lemma SpacingStep(m: Config, s: State, e: Event)
    requires Inv(s) && Spacing(m, s) && Prompt(m, s) && Fits(m, e) && Step(s, e).Some?
    ensures Spacing(m, Step(s, e).value)
  {
    hide Inv, Spacing, Prompt, PromptWithin, RowsOk, NoneLowered, NoneSooner, WithStatus, GiveBack, Looked, Heard, Enrolled, IsBatch, RowsSpaced, Advanced;
    InvRows(s);
    match e
    case Tick(seconds) => ClockFrame(m, s, s.clock + seconds);
    case Enroll(email, enrolledAt) => EnrollSpacing(m, s, email, enrolledAt);
    case Stop(id, reason) =>
      SmallWritesSpacing(s.born, s.rows, id, reason, "", {});
      RowsFrame(m, s, WithStatus(s.rows, id, reason));
    case Forget(ids) =>
      SmallWritesSpacing(s.born, s.rows, 0, Replied, "", ids);
      RowsFrame(m, s, s.rows - ids);
    case Start(now, booking, limit, batch) => StartSpacing(m, s, now, booking, limit, batch);
    case Look(r, sight) => LookSpacing(m, s, r, sight);
    case LoseAnswer(r) => LoseSpacing(m, s, r);
    case Die(r) => StoppedFrame(m, s, r);
    case Throw(r) => GiveBackSpacing(m, s, r, s.runs[r].phase.n);
    case Send(r) => SendSpacing(m, s, r);
    case Deliver(n) => FateFrame(m, s, n, Accepted(s.clock));
    case Refuse(n) => FateFrame(m, s, n, Refused);
    case Hear(r, answer) => HearSpacing(m, s, r, answer);
  }

  lemma ClockFrame(m: Config, s: State, clock: int)
    requires Spacing(m, s)
    ensures Spacing(m, s.(clock := clock))
  {
  }

  /** Every state the events pass through is prompt. */
  ghost predicate AlwaysPrompt(s: State, events: seq<Event>, life: nat)
    decreases |events|
  {
    PromptWithin(s, life) && (events != [] && Step(s, events[0]).Some? ==> AlwaysPrompt(Step(s, events[0]).value, events[1..], life))
  }

  /** Every run that starts is of the one kind, if there is one. */
  predicate FitAll(m: Config, events: seq<Event>) {
    forall n :: 0 <= n < |events| ==> Fits(m, events[n])
  }

  lemma {:induction false} SpacingAfter(m: Config, s: State, events: seq<Event>, life: nat)
    requires life <= LifeOf(m) && FitAll(m, events)
    requires Inv(s) && Spacing(m, s) && AlwaysPrompt(s, events, life) && After(s, events).Some?
    ensures Inv(After(s, events).value) && Spacing(m, After(s, events).value)
    decreases |events|
  {
    hide Inv, Spacing, Step, Fits;
    if events != [] {
      InvStep(s, events[0]);
      SpacingStep(m, s, events[0]);
      SpacingAfter(m, Step(s, events[0]).value, events[1..], life);
    }
  }

  /** Two accepted emails to one lead are at least `CATCH_UP_SECONDS` apart on their runs' clocks. */
  ghost predicate DayApart(s: State) {
    forall i, j :: 0 <= i < j < |s.attempts| && s.attempts[i].fate.Accepted? && s.attempts[j].fate.Accepted? ==>
      (s.attempts[i].id == s.attempts[j].id ==> Behind(s.attempts[i], s.attempts[j].now) || Behind(s.attempts[j], s.attempts[i].now))
  }

  /**
   * Whatever runs overlap, crash, lose answers, put steps back or catch up, as long as none lives for 82,800 seconds, or
   * for one more if all have a booking link or none has.
   */
  lemma PromptRunsKeepADayApart(m: Config, s: State, events: seq<Event>, life: nat)
    requires life <= LifeOf(m) && FitAll(m, events)
    requires Fresh(s) && AlwaysPrompt(s, events, life) && After(s, events).Some?
    ensures DayApart(After(s, events).value)
  {
    hide After, Step, AlwaysPrompt;
    SpacingAfter(m, s, events, life);
    var t := After(s, events).value;
    assert AttemptsSpaced(t.attempts) && OpenOnce(t.attempts);
    forall i, j | 0 <= i < j < |t.attempts| && Open(t.attempts[i]) && Open(t.attempts[j]) && t.attempts[i].id == t.attempts[j].id
      ensures Behind(t.attempts[i], t.attempts[j].now) || Behind(t.attempts[j], t.attempts[i].now)
    {
      assert !SameSend(t.attempts[i], t.attempts[j]);
      assert PairSpaced(t.attempts[i], t.attempts[j]) && PairSpaced(t.attempts[j], t.attempts[i]);
    }
  }
}
