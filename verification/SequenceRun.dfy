/**
 * One run of the onboarding sequence as it is written: a loop over the due leads that counts, marks, sends and puts
 * back. It does to the table what the fold `Run` says, which on a table nobody else writes is one outcome per lead, and
 * every such run is a trace of the interleaving machine.
 */
module SequenceRun {
  import opened Wrappers
  import opened Leads
  import S = Sequence

  datatype RunResult = RunResult(sent: nat, held: nat, stopped: nat, failed: nat)

  /** Where, if anywhere, the database or the code fails while a lead is worked on. */
  datatype Fault = NoFault | AtChecks | AtAdvance(written: bool) | AtBuild(putBack: bool) | AtAnswer(written: bool)

  /** What the run meets at one lead. */
  datatype Turn = Turn(sight: S.Sight, fault: Fault, answer: S.Answer)

  datatype Outcome = Passed | Delivered | Held | Stopped | Failed

  class LeadTable {
    var rows: Rows

    method Advance(id: nat, step: nat, next: Option<int>, now: int) returns (won: bool)
      modifies this
      ensures won == Wins(old(rows), id, step, now) && rows == Advanced(old(rows), id, step, next, now)
    {
      won := id in rows && rows[id].status == Active && rows[id].step == step
        && rows[id].nextSendAt.Some? && rows[id].nextSendAt.value <= now;
      if won {
        var status := if next == None then Completed else Active;
        rows := rows[id := rows[id].(step := step + 1, nextSendAt := next, lastSentAt := Some(now), status := status)];
      }
    }

    method Restore(id: nat, advancedTo: nat, step: nat, next: int, last: Option<int>)
      modifies this
      ensures rows == Restored(old(rows), id, advancedTo, step, next, last)
    {
      if id in rows && rows[id].step == advancedTo {
        rows := rows[id := rows[id].(step := step, nextSendAt := Some(next), lastSentAt := last, status := Active)];
      }
    }

    method Release(id: nat, next: int)
      modifies this
      ensures rows == Released(old(rows), id, next)
    {
      if id in rows {
        rows := rows[id := rows[id].(nextSendAt := Some(next))];
      }
    }

    method SetStatus(id: nat, status: Status)
      modifies this
      ensures rows == WithStatus(old(rows), id, status)
    {
      if id in rows {
        rows := rows[id := rows[id].(status := status, nextSendAt := None)];
      }
    }

    method Delete(email: string)
      modifies this
      ensures rows == WithoutEmail(old(rows), email)
    {
      rows := map id | id in rows && rows[id].email != email :: rows[id];
    }
  }

  // ----- one lead -----

  function Marked(rows: Rows, lead: Lead, now: int): Rows {
    Advanced(rows, lead.id, lead.step, NextDue(lead.createdAt, lead.step + 1, now), now)
  }

  function PutBack(rows: Rows, lead: Lead, now: int): Rows {
    Restored(rows, lead.id, lead.step + 1, lead.step, Or(lead.nextSendAt, now), lead.lastSentAt)
  }

  predicate Writes(answer: S.Answer) {
    answer.SuppressedNow? || answer.BadRecipient? || answer.NotSent?
  }

  /** What the provider's answer leads to, once the step is marked. */
  function Answered(rows: Rows, lead: Lead, now: int, turn: Turn): (Rows, Outcome) {
    if Writes(turn.answer) && turn.fault == AtAnswer(false) then (rows, Failed)
    else
      match turn.answer
      case Sent => (rows, Delivered)
      case SuppressedNow => (WithoutEmail(rows, lead.email), if turn.fault.AtAnswer? then Failed else Stopped)
      case BadRecipient => (WithStatus(rows, lead.id, Bounced), if turn.fault.AtAnswer? then Failed else Stopped)
      case NotSent => (PutBack(rows, lead, now), Failed)
      case Unknown => (rows, Failed)
  }

  function Turned(rows: Rows, lead: Lead, now: int, booking: bool, turn: Turn): (Rows, Outcome) {
    if turn.fault.AtChecks? then (rows, Failed)
    else if turn.sight.OnSuppressionList? then (WithoutEmail(rows, lead.email), Stopped)
    else if turn.sight.IsMember? then (WithStatus(rows, lead.id, Converted), Stopped)
    else if NeedsBooking(lead.step) && !booking then (Released(rows, lead.id, now + DAY), Held)
    else if turn.fault.AtAdvance? then (if turn.fault.written then Marked(rows, lead, now) else rows, Failed)
    else if !Wins(rows, lead.id, lead.step, now) then (rows, Passed)
    else if turn.fault.AtBuild? then
      (if turn.fault.putBack then PutBack(Marked(rows, lead, now), lead, now) else Marked(rows, lead, now), Failed)
    else Answered(Marked(rows, lead, now), lead, now, turn)
  }

  function Tally(r: RunResult, o: Outcome): RunResult {
    match o
    case Passed => r
    case Delivered => r.(sent := r.sent + 1)
    case Held => r.(held := r.held + 1)
    case Stopped => r.(stopped := r.stopped + 1)
    case Failed => r.(failed := r.failed + 1)
  }

  /** The whole run: lead after lead, until one fails. */
  function Run(rows: Rows, r: RunResult, batch: seq<Lead>, now: int, booking: bool, turns: seq<Turn>): (Rows, RunResult)
    requires |batch| == |turns|
    decreases |batch|
  {
    if batch == [] then (rows, r)
    else
      var (rows', o) := Turned(rows, batch[0], now, booking, turns[0]);
      if o == Failed then (rows', Tally(r, o)) else Run(rows', Tally(r, o), batch[1..], now, booking, turns[1..])
  }

  const ZERO := RunResult(0, 0, 0, 0)

  /**
   * The loop. `batch` is what the due query answered; `turns` is what the run meets at each lead; `made` records what was
   * handed to the provider, on the provider's clock, and what became of it.
   */
  method RunOnboardingSequence(table: LeadTable, ready: bool, now: int, booking: bool, batch: seq<Lead>, turns: seq<Turn>, ghost clock: int)
    returns (result: RunResult, ghost made: seq<S.Attempt>)
    requires |batch| == |turns|
    modifies table
    ensures ready ==> (table.rows, result) == Run(old(table.rows), RunResult(0, 0, 0, 0), batch, now, booking, turns)
    ensures ready ==> made == RunAttempts(old(table.rows), batch, now, booking, turns, clock)
    ensures !ready ==> table.rows == old(table.rows) && result == RunResult(0, 0, 0, 0) && made == []
  {
    hide Wins, Turned, TurnAttempts;
    result, made := ZERO, [];
    if !ready {
      return;
    }
    var i := 0;
    while i < |batch|
      invariant 0 <= i <= |batch|
      invariant Run(old(table.rows), ZERO, batch, now, booking, turns) == Run(table.rows, result, batch[i..], now, booking, turns[i..])
      invariant RunAttempts(old(table.rows), batch, now, booking, turns, clock)
        == made + RunAttempts(table.rows, batch[i..], now, booking, turns[i..], clock)
    {
      ghost var before := made;
      ghost var attempts;
      var o;
      o, attempts := OneLead(table, batch[i], now, booking, turns[i], clock);
      result, made := Tally(result, o), made + attempts;
      assert attempts + [] == attempts;
      ghost var later := RunAttempts(table.rows, batch[i + 1..], now, booking, turns[i + 1..], clock);
      assert before + (attempts + later) == made + later;
      if o == Failed {
        return;
      }
      i := i + 1;
    }
  }

  /** The body of the loop. */
  method OneLead(table: LeadTable, lead: Lead, now: int, booking: bool, turn: Turn, ghost clock: int)
    returns (o: Outcome, ghost made: seq<S.Attempt>)
    modifies table
    ensures (table.rows, o) == Turned(old(table.rows), lead, now, booking, turn)
    ensures made == TurnAttempts(old(table.rows), lead, now, booking, turn, clock)
  {
    hide Wins, Restored, Released, WithStatus, WithoutEmail, NextDue;
    made := [];
    if turn.fault == AtChecks {
      return Failed, made;
    }
    if turn.sight == S.OnSuppressionList {
      table.Delete(lead.email);
      return Stopped, made;
    }
    if turn.sight == S.IsMember {
      table.SetStatus(lead.id, Converted);
      return Stopped, made;
    }
    if NeedsBooking(lead.step) && !booking {
      table.Release(lead.id, now + DAY);
      return Held, made;
    }
    var next := NextDue(lead.createdAt, lead.step + 1, now);
    if turn.fault == AtAdvance(false) {
      return Failed, made;
    }
    var won := table.Advance(lead.id, lead.step, next, now);
    if turn.fault == AtAdvance(true) {
      return Failed, made;
    }
    if !won {
      return Passed, made;
    }
    if turn.fault.AtBuild? {
      made := [S.Attempt(lead.id, lead.step, now, S.Held)];
      if turn.fault.putBack {
        table.Restore(lead.id, lead.step + 1, lead.step, Or(lead.nextSendAt, now), lead.lastSentAt);
        made := [S.Attempt(lead.id, lead.step, now, S.Returned)];
      }
      return Failed, made;
    }
    made := [S.Attempt(lead.id, lead.step, now, if turn.answer.Sent? then S.Accepted(clock) else if turn.answer.Unknown? then S.OnWire else S.Refused)];
    if Writes(turn.answer) && turn.fault == AtAnswer(false) {
      return Failed, made;
    }
    match turn.answer {
      case Sent => o := Delivered;
      case SuppressedNow =>
        table.Delete(lead.email);
        o := if turn.fault.AtAnswer? then Failed else Stopped;
      case BadRecipient =>
        table.SetStatus(lead.id, Bounced);
        o := if turn.fault.AtAnswer? then Failed else Stopped;
      case NotSent =>
        table.Restore(lead.id, lead.step + 1, lead.step, Or(lead.nextSendAt, now), lead.lastSentAt);
        made := [S.Attempt(lead.id, lead.step, now, S.Returned)];
        o := Failed;
      case Unknown => o := Failed;
    }
  }

  // ----- an undisturbed run -----

  /** What becomes of a lead nobody else touches, whatever the rest of the table holds: its row (None: deleted) and its outcome. */
  function LeadAfter(lead: Lead, now: int, booking: bool, turn: Turn): (Option<Lead>, Outcome) {
    var next := NextDue(lead.createdAt, lead.step + 1, now);
    var marked := lead.(step := lead.step + 1, nextSendAt := next, lastSentAt := Some(now), status := if next.None? then Completed else Active);
    if turn.fault.AtChecks? then (Some(lead), Failed)
    else if turn.sight.OnSuppressionList? then (None, Stopped)
    else if turn.sight.IsMember? then (Some(lead.(status := Converted, nextSendAt := None)), Stopped)
    else if NeedsBooking(lead.step) && !booking then (Some(lead.(nextSendAt := Some(now + DAY))), Held)
    else match turn.fault
      case AtAdvance(written) => (Some(if written then marked else lead), Failed)
      case AtBuild(putBack) => (Some(if putBack then lead else marked), Failed)
      case _ =>
        if Writes(turn.answer) && turn.fault == AtAnswer(false) then (Some(marked), Failed)
        else
          match turn.answer
          case Sent => (Some(marked), Delivered)
          case SuppressedNow => (None, if turn.fault.AtAnswer? then Failed else Stopped)
          case BadRecipient => (Some(marked.(status := Bounced, nextSendAt := None)), if turn.fault.AtAnswer? then Failed else Stopped)
          case NotSent => (Some(lead), Failed)
          case Unknown => (Some(marked), Failed)
  }

  ghost predicate UniqueEmails(rows: Rows) {
    forall a, b :: a in rows && b in rows && a != b ==> rows[a].email != rows[b].email
  }

  /** The run read these leads as they are. */
  ghost predicate Reads(rows: Rows, batch: seq<Lead>, now: int) {
    (forall i :: 0 <= i < |batch| ==> batch[i].id in rows && rows[batch[i].id] == batch[i] && IsDue(batch[i], now))
    && forall i, j :: 0 <= i < j < |batch| ==> batch[i].id != batch[j].id
  }

  function Without(rows: Rows, id: nat): Rows {
    map i | i in rows && i != id :: rows[i]
  }

  function Replaced(rows: Rows, id: nat, row: Option<Lead>): Rows {
    if row.Some? then rows[id := row.value] else Without(rows, id)
  }

  lemma MarkedAlone(rows: Rows, lead: Lead, now: int)
    requires UniqueEmails(rows) && lead.id in rows && rows[lead.id] == lead && IsDue(lead, now)
    ensures var next := NextDue(lead.createdAt, lead.step + 1, now); var m := Marked(rows, lead, now);
      var marked := lead.(step := lead.step + 1, nextSendAt := next, lastSentAt := Some(now), status := if next.None? then Completed else Active);
      && m == Replaced(rows, lead.id, Some(marked))
      && PutBack(m, lead, now) == Replaced(rows, lead.id, Some(lead))
      && WithoutEmail(m, lead.email) == Replaced(rows, lead.id, None)
      && WithStatus(m, lead.id, Bounced) == Replaced(rows, lead.id, Some(marked.(status := Bounced, nextSendAt := None)))
  {
    hide NextDue;
    var m := Marked(rows, lead, now);
    DeletesOne(m, lead.id);
    assert Without(m, lead.id) == Without(rows, lead.id);
    assert rows[lead.id := lead] == rows;
    assert PutBack(m, lead, now)[lead.id] == lead;
  }

  lemma TurnedAlone(rows: Rows, lead: Lead, now: int, booking: bool, turn: Turn)
    requires UniqueEmails(rows) && lead.id in rows && rows[lead.id] == lead && IsDue(lead, now)
    ensures var (row, o) := LeadAfter(lead, now, booking, turn);
      && Turned(rows, lead, now, booking, turn) == (Replaced(rows, lead.id, row), o)
      && (row.Some? ==> row.value.email == lead.email) && o != Passed
  {
    hide NextDue, Advanced, Marked, PutBack, UniqueEmails, Replaced;
    MarkedAlone(rows, lead, now);
    SmallAlone(rows, lead, now);
  }

  lemma SmallAlone(rows: Rows, lead: Lead, now: int)
    requires UniqueEmails(rows) && lead.id in rows && rows[lead.id] == lead
    ensures WithoutEmail(rows, lead.email) == Replaced(rows, lead.id, None) && rows == Replaced(rows, lead.id, Some(lead))
    ensures WithStatus(rows, lead.id, Converted) == Replaced(rows, lead.id, Some(lead.(status := Converted, nextSendAt := None)))
    ensures Released(rows, lead.id, now + DAY) == Replaced(rows, lead.id, Some(lead.(nextSendAt := Some(now + DAY))))
  {
    DeletesOne(rows, lead.id);
    assert rows[lead.id := lead] == rows;
  }

  lemma DeletesOne(rows: Rows, id: nat)
    requires UniqueEmails(rows) && id in rows
    ensures WithoutEmail(rows, rows[id].email) == Without(rows, id)
  {
  }

  /** How many leads the run works on: all, or up to and including the first that fails. */
  function Worked(batch: seq<Lead>, now: int, booking: bool, turns: seq<Turn>): (k: nat)
    requires |batch| == |turns|
    ensures k <= |batch|
    decreases |batch|
  {
    if batch == [] then 0
    else if LeadAfter(batch[0], now, booking, turns[0]).1 == Failed then 1
    else 1 + Worked(batch[1..], now, booking, turns[1..])
  }

  /** The row a lead ends with: its own outcome if the run got to it, otherwise as it was. */
  ghost predicate EndsAs(rows: Rows, lead: Lead, row: Option<Lead>) {
    if row.Some? then lead.id in rows && rows[lead.id] == row.value else lead.id !in rows
  }

  /** The first lead is dealt with; the rest of the batch still reads the table as it is. */
  lemma FirstAlone(rows: Rows, batch: seq<Lead>, now: int, booking: bool, turn: Turn)
    requires batch != [] && UniqueEmails(rows) && Reads(rows, batch, now)
    ensures var (row, o) := LeadAfter(batch[0], now, booking, turn); var rows1 := Replaced(rows, batch[0].id, row);
      && Turned(rows, batch[0], now, booking, turn) == (rows1, o) && o != Passed
      && UniqueEmails(rows1) && Reads(rows1, batch[1..], now)
  {
    hide LeadAfter, Turned, IsDue;
    TurnedAlone(rows, batch[0], now, booking, turn);
    assert forall i :: 0 <= i < |batch| - 1 ==> batch[1..][i] == batch[i + 1];
  }

  ghost predicate InBatch(batch: seq<Lead>, id: nat) {
    exists i :: 0 <= i < |batch| && batch[i].id == id
  }

  /** Rows the run did not read, and rows that do not exist, stay as they are. */
  lemma {:induction false} RunKeeps(rows: Rows, r: RunResult, batch: seq<Lead>, now: int, booking: bool, turns: seq<Turn>, id: nat)
    requires |batch| == |turns| && UniqueEmails(rows) && Reads(rows, batch, now) && !InBatch(batch, id)
    ensures var rows' := Run(rows, r, batch, now, booking, turns).0;
      (id in rows' <==> id in rows) && (id in rows ==> rows'[id] == rows[id])
    decreases |batch|
  {
    hide LeadAfter, Turned, UniqueEmails, Reads;
    if batch != [] {
      FirstAlone(rows, batch, now, booking, turns[0]);
      assert !InBatch(batch[1..], id);
      var (row, o) := LeadAfter(batch[0], now, booking, turns[0]);
      RunKeeps(Replaced(rows, batch[0].id, row), Tally(r, o), batch[1..], now, booking, turns[1..], id);
    }
  }

  /** How many of the leads the run works on end this way. */
  function EndAs(batch: seq<Lead>, now: int, booking: bool, turns: seq<Turn>, o: Outcome): nat
    requires |batch| == |turns|
    decreases |batch|
  {
    if batch == [] then 0
    else
      var first := LeadAfter(batch[0], now, booking, turns[0]).1;
      (if first == o then 1 else 0) + if first == Failed then 0 else EndAs(batch[1..], now, booking, turns[1..], o)
  }

  lemma TallyAdds(r: RunResult, o: Outcome)
    ensures var t := Tally(r, o);
      && t.sent == r.sent + (if o == Delivered then 1 else 0) && t.held == r.held + (if o == Held then 1 else 0)
      && t.stopped == r.stopped + (if o == Stopped then 1 else 0) && t.failed == r.failed + if o == Failed then 1 else 0
  {
  }

  /** Every lead the run works on is counted once, under its own outcome. */
  lemma {:induction false} RunCounts(rows: Rows, r: RunResult, batch: seq<Lead>, now: int, booking: bool, turns: seq<Turn>)
    requires |batch| == |turns| && UniqueEmails(rows) && Reads(rows, batch, now)
    ensures Run(rows, r, batch, now, booking, turns).1 == RunResult(
              r.sent + EndAs(batch, now, booking, turns, Delivered), r.held + EndAs(batch, now, booking, turns, Held),
              r.stopped + EndAs(batch, now, booking, turns, Stopped), r.failed + EndAs(batch, now, booking, turns, Failed))
    decreases |batch|
  {
    hide LeadAfter, Turned, UniqueEmails, Reads, Replaced, Tally;
    if batch != [] {
      FirstAlone(rows, batch, now, booking, turns[0]);
      var (row, o) := LeadAfter(batch[0], now, booking, turns[0]);
      TallyAdds(r, o);
      RunCounts(Replaced(rows, batch[0].id, row), Tally(r, o), batch[1..], now, booking, turns[1..]);
    }
  }

  lemma NeverPassed(lead: Lead, now: int, booking: bool, turn: Turn)
    ensures LeadAfter(lead, now, booking, turn).1 != Passed
  {
  }

  /** The four counts add up to the leads worked on; the run stops early only at a failure, and then counts one. */
  lemma {:induction false} CountsAddUp(batch: seq<Lead>, now: int, booking: bool, turns: seq<Turn>)
    requires |batch| == |turns|
    ensures EndAs(batch, now, booking, turns, Delivered) + EndAs(batch, now, booking, turns, Held)
      + EndAs(batch, now, booking, turns, Stopped) + EndAs(batch, now, booking, turns, Failed) == Worked(batch, now, booking, turns)
    ensures EndAs(batch, now, booking, turns, Failed) <= 1
    ensures EndAs(batch, now, booking, turns, Failed) == 0 ==> Worked(batch, now, booking, turns) == |batch|
    decreases |batch|
  {
    hide LeadAfter;
    if batch != [] {
      NeverPassed(batch[0], now, booking, turns[0]);
      CountsAddUp(batch[1..], now, booking, turns[1..]);
    }
  }

  /** A lead the run works on ends with exactly its own outcome; one it does not reach stays as it was. */
  lemma {:induction false} RunEnds(rows: Rows, r: RunResult, batch: seq<Lead>, now: int, booking: bool, turns: seq<Turn>, i: nat)
    requires |batch| == |turns| && UniqueEmails(rows) && Reads(rows, batch, now) && i < |batch|
    ensures EndsAs(Run(rows, r, batch, now, booking, turns).0, batch[i],
                   if i < Worked(batch, now, booking, turns) then LeadAfter(batch[i], now, booking, turns[i]).0 else Some(batch[i]))
    decreases i
  {
    hide LeadAfter, Turned, UniqueEmails;
    var (row, o) := LeadAfter(batch[0], now, booking, turns[0]);
    FirstAlone(rows, batch, now, booking, turns[0]);
    var rows1 := Replaced(rows, batch[0].id, row);
    if o != Failed {
      if i == 0 {
        assert !InBatch(batch[1..], batch[0].id);
        RunKeeps(rows1, Tally(r, o), batch[1..], now, booking, turns[1..], batch[0].id);
        assert row.Some? ==> row.value == rows1[batch[0].id];
      } else {
        RunEnds(rows1, Tally(r, o), batch[1..], now, booking, turns[1..], i - 1);
      }
    }
  }

  // ----- a run is a trace of the machine -----

  /** The events of a marked step, from the mail being built to the provider's answer dealt with. */
  function SendingEvents(r: nat, n: nat, turn: Turn): seq<S.Event> {
    if turn.fault.AtBuild? then [if turn.fault.putBack then S.Throw(r) else S.Die(r)]
    else if turn.answer.Unknown? then [S.Send(r), S.Hear(r, S.Unknown)]
    else if turn.answer.Sent? then [S.Send(r), S.Deliver(n), S.Hear(r, S.Sent)]
    else if turn.fault == AtAnswer(false) then [S.Send(r), S.Refuse(n), S.Die(r)]
    else [S.Send(r), S.Refuse(n), S.Hear(r, turn.answer)] + if turn.fault.AtAnswer? then [S.Die(r)] else []
  }

  function TurnEvents(s: S.State, r: nat, turn: Turn): seq<S.Event>
    requires S.AtLead(s, r)
  {
    var lead, run := S.LeadOf(s, r), s.runs[r];
    if turn.fault.AtChecks? then [S.Die(r)]
    else if !turn.sight.NothingKnown? || (NeedsBooking(lead.step) && !run.booking) then [S.Look(r, turn.sight)]
    else if turn.fault == AtAdvance(false) then [S.Die(r)]
    else if turn.fault == AtAdvance(true) then [S.LoseAnswer(r)]
    else if !Wins(s.rows, lead.id, lead.step, run.now) then [S.Look(r, turn.sight)]
    else [S.Look(r, turn.sight)] + SendingEvents(r, |s.attempts|, turn)
  }

  /** What becomes of a step the run has marked. */
  function SendFate(turn: Turn, clock: int): S.Fate {
    if turn.fault.AtBuild? then (if turn.fault.putBack then S.Returned else S.Held)
    else match turn.answer
      case Unknown => S.OnWire
      case Sent => S.Accepted(clock)
      case NotSent => if turn.fault == AtAnswer(false) then S.Refused else S.Returned
      case _ => S.Refused
  }

  /** The run marks the step of this lead and learns that it did. */
  predicate Marks(rows: Rows, lead: Lead, now: int, booking: bool, turn: Turn) {
    turn.sight.NothingKnown? && !turn.fault.AtChecks? && !turn.fault.AtAdvance? && (NeedsBooking(lead.step) ==> booking)
    && Wins(rows, lead.id, lead.step, now)
  }

  function TurnAttempts(rows: Rows, lead: Lead, now: int, booking: bool, turn: Turn, clock: int): seq<S.Attempt> {
    if Marks(rows, lead, now, booking, turn) then [S.Attempt(lead.id, lead.step, now, SendFate(turn, clock))] else []
  }

  /** The attempts the run makes, in order. */
  function RunAttempts(rows: Rows, batch: seq<Lead>, now: int, booking: bool, turns: seq<Turn>, clock: int): seq<S.Attempt>
    requires |batch| == |turns|
    decreases |batch|
  {
    if batch == [] then []
    else
      var (rows', o) := Turned(rows, batch[0], now, booking, turns[0]);
      TurnAttempts(rows, batch[0], now, booking, turns[0], clock)
      + if o == Failed then [] else RunAttempts(rows', batch[1..], now, booking, turns[1..], clock)
  }

  /** Where the machine's run stands, and with which attempts, after a turn that ended in `o`. */
  predicate Stands(s: S.State, t: S.State, r: nat, rows: Rows, o: Outcome, attempts: seq<S.Attempt>) {
    t.rows == rows && t.attempts == attempts && |t.runs| == |s.runs| && r < |s.runs| && t.clock == s.clock && t.born == s.born
    && t.runs[r].batch == s.runs[r].batch && t.runs[r].now == s.runs[r].now && t.runs[r].booking == s.runs[r].booking
    && if o == Failed then t.runs[r].phase.Over? else t.runs[r].phase.Next? && t.runs[r].at == s.runs[r].at + 1
  }

  lemma AfterThese(s: S.State, a: S.Event, b: S.Event, c: S.Event)
    requires S.Step(s, a).Some? && S.Step(S.Step(s, a).value, b).Some?
    ensures S.After(s, [a]) == S.Step(s, a) && S.After(s, [a, b]) == S.Step(S.Step(s, a).value, b)
    ensures S.After(s, [a, b, c]) == S.Step(S.Step(S.Step(s, a).value, b).value, c)
  {
    hide S.Step;
    S.AfterOne(s, a);
    S.AfterThen(s, [a], b);
    S.AfterThen(s, [a, b], c);
    assert [a] + [b] == [a, b] && [a, b] + [c] == [a, b, c];
  }

  /** The mail handed over, with that fate at the provider. */
  function Handed(s: S.State, r: nat, n: nat, fate: S.Fate): S.State
    requires r < |s.runs| && n < |s.attempts|
  {
    S.SetFate(s.(runs := s.runs[r := s.runs[r].(phase := S.Waiting(n))]), n, fate)
  }

  lemma HandsOver(s: S.State, r: nat, n: nat)
    requires r < |s.runs| && s.runs[r].at < |s.runs[r].batch| && s.runs[r].phase == S.Holding(n) && n < |s.attempts|
    ensures S.Step(s, S.Send(r)) == Some(Handed(s, r, n, S.OnWire))
    ensures S.Step(Handed(s, r, n, S.OnWire), S.Deliver(n)) == Some(Handed(s, r, n, S.Accepted(s.clock)))
    ensures S.Step(Handed(s, r, n, S.OnWire), S.Refuse(n)) == Some(Handed(s, r, n, S.Refused))
  {
    var w := Handed(s, r, n, S.OnWire);
    assert w.attempts[n := w.attempts[n].(fate := S.Refused)] == Handed(s, r, n, S.Refused).attempts;
    assert w.attempts[n := w.attempts[n].(fate := S.Accepted(s.clock))] == Handed(s, r, n, S.Accepted(s.clock)).attempts;
  }

  function WithFate(s: S.State, n: nat, fate: S.Fate): seq<S.Attempt>
    requires n < |s.attempts|
  {
    s.attempts[n := s.attempts[n].(fate := fate)]
  }

  lemma HearsFrom(s: S.State, r: nat, n: nat, fate: S.Fate, answer: S.Answer)
    requires r < |s.runs| && s.runs[r].at < |s.runs[r].batch| && s.runs[r].phase == S.Holding(n) && n < |s.attempts|
    requires answer.Unknown? || (if answer.Sent? then fate.Accepted? else fate.Refused?)
    ensures var h := Handed(s, r, n, fate); var lead := S.LeadOf(s, r);
      var (rows, o) := Answered(s.rows, lead, s.runs[r].now, Turn(S.NothingKnown, NoFault, answer));
      var attempts := WithFate(s, n, if answer.NotSent? then S.Returned else fate);
      && S.Step(h, S.Hear(r, answer)).Some? && Stands(s, S.Step(h, S.Hear(r, answer)).value, r, rows, o, attempts)
      && S.Step(h, S.Die(r)).Some? && Stands(s, S.Step(h, S.Die(r)).value, r, s.rows, Failed, WithFate(s, n, fate))
      && var t := S.Step(h, S.Hear(r, answer)).value; S.Step(t, S.Die(r)).Some? && Stands(s, S.Step(t, S.Die(r)).value, r, rows, Failed, attempts)
  {
    hide Restored, WithStatus, WithoutEmail;
    var h := Handed(s, r, n, fate);
    assert h.attempts[n := h.attempts[n].(fate := S.Returned)] == WithFate(s, n, S.Returned);
  }

  lemma BuildsIsTrace(s: S.State, r: nat, n: nat)
    requires r < |s.runs| && s.runs[r].at < |s.runs[r].batch| && s.runs[r].phase == S.Holding(n) && n < |s.attempts|
    ensures var lead := S.LeadOf(s, r);
      && S.Step(s, S.Throw(r)).Some?
      && Stands(s, S.Step(s, S.Throw(r)).value, r, PutBack(s.rows, lead, s.runs[r].now), Failed, WithFate(s, n, S.Returned))
      && S.Step(s, S.Die(r)).Some? && Stands(s, S.Step(s, S.Die(r)).value, r, s.rows, Failed, s.attempts)
  {
    hide Restored;
  }

  function SentOff(s: S.State, r: nat, turn: Turn): (Rows, Outcome)
    requires r < |s.runs| && s.runs[r].at < |s.runs[r].batch|
  {
    var lead, now := S.LeadOf(s, r), s.runs[r].now;
    if turn.fault.AtBuild? then (if turn.fault.putBack then PutBack(s.rows, lead, now) else s.rows, Failed)
    else Answered(s.rows, lead, now, turn)
  }

  lemma SendingIsTrace(s: S.State, r: nat, n: nat, turn: Turn)
    requires r < |s.runs| && s.runs[r].at < |s.runs[r].batch| && s.runs[r].phase == S.Holding(n) && n < |s.attempts|
    requires s.attempts[n].fate == S.Held
    ensures var (rows, o) := SentOff(s, r, turn);
      var t := S.After(s, SendingEvents(r, n, turn)); t.Some? && Stands(s, t.value, r, rows, o, WithFate(s, n, SendFate(turn, s.clock)))
  {
    hide S.Step, S.After, Handed, PutBack, Stands, WithStatus, WithoutEmail;
    assert WithFate(s, n, S.Held) == s.attempts;
    HandsOver(s, r, n);
    BuildsIsTrace(s, r, n);
    if turn.fault.AtBuild? {
      var e := if turn.fault.putBack then S.Throw(r) else S.Die(r);
      S.AfterOne(s, e);
    } else if turn.answer.Unknown? {
      HearsFrom(s, r, n, S.OnWire, S.Unknown);
      AfterThese(s, S.Send(r), S.Hear(r, S.Unknown), S.Die(r));
    } else if turn.answer.Sent? {
      HearsFrom(s, r, n, S.Accepted(s.clock), S.Sent);
      AfterThese(s, S.Send(r), S.Deliver(n), S.Hear(r, S.Sent));
    } else if turn.fault == AtAnswer(false) {
      HearsFrom(s, r, n, S.Refused, turn.answer);
      AfterThese(s, S.Send(r), S.Refuse(n), S.Die(r));
    } else {
      HearsFrom(s, r, n, S.Refused, turn.answer);
      AfterThese(s, S.Send(r), S.Refuse(n), S.Hear(r, turn.answer));
      var heard := [S.Send(r), S.Refuse(n), S.Hear(r, turn.answer)];
      if turn.fault.AtAnswer? {
        S.AfterThen(s, heard, S.Die(r));
        assert SendingEvents(r, n, turn) == heard + [S.Die(r)];
      } else {
        assert SendingEvents(r, n, turn) == heard;
      }
    }
  }

  lemma StandsOn(s: S.State, u: S.State, t: S.State, r: nat, rows: Rows, o: Outcome, attempts: seq<S.Attempt>)
    requires r < |s.runs| && |u.runs| == |s.runs| && u.clock == s.clock && u.born == s.born && u.runs[r].(phase := S.Next) == s.runs[r].(phase := S.Next)
    requires Stands(u, t, r, rows, o, attempts)
    ensures Stands(s, t, r, rows, o, attempts)
  {
  }

  predicate LooksOnly(s: S.State, r: nat, turn: Turn)
    requires S.AtLead(s, r)
  {
    var lead, run := S.LeadOf(s, r), s.runs[r];
    !turn.fault.AtChecks?
    && (!turn.sight.NothingKnown? || (NeedsBooking(lead.step) && !run.booking)
        || (!turn.fault.AtAdvance? && !Wins(s.rows, lead.id, lead.step, run.now)))
  }

  lemma LooksIsTrace(s: S.State, r: nat, turn: Turn)
    requires S.AtLead(s, r) && LooksOnly(s, r, turn)
    ensures TurnEvents(s, r, turn) == [S.Look(r, turn.sight)]
    ensures var run := s.runs[r]; var (rows, o) := Turned(s.rows, S.LeadOf(s, r), run.now, run.booking, turn);
      var t := S.Step(s, S.Look(r, turn.sight)); t.Some? && Stands(s, t.value, r, rows, o, s.attempts)
  {
    hide Advanced, NextDue, WithStatus, WithoutEmail, Released, Wins;
  }

  lemma LoseIsTrace(s: S.State, r: nat)
    requires S.AtLead(s, r)
    ensures S.Step(s, S.LoseAnswer(r)).Some? && S.Step(s, S.Die(r)).Some?
    ensures Stands(s, S.Step(s, S.LoseAnswer(r)).value, r, Marked(s.rows, S.LeadOf(s, r), s.runs[r].now), Failed, s.attempts)
    ensures Stands(s, S.Step(s, S.Die(r)).value, r, s.rows, Failed, s.attempts)
  {
    hide Advanced, NextDue;
  }

  lemma WinIsTrace(s: S.State, r: nat, turn: Turn)
    requires S.AtLead(s, r) && S.Goes(s, r) && turn.sight.NothingKnown? && !turn.fault.AtChecks? && !turn.fault.AtAdvance?
    ensures var run := s.runs[r]; var (rows, o) := Turned(s.rows, S.LeadOf(s, r), run.now, run.booking, turn);
      var made := TurnAttempts(s.rows, S.LeadOf(s, r), run.now, run.booking, turn, s.clock);
      var t := S.After(s, TurnEvents(s, r, turn)); t.Some? && Stands(s, t.value, r, rows, o, s.attempts + made)
  {
    hide Advanced, NextDue, Wins, S.After, Answered, SendingEvents, Stands, PutBack, SendFate;
    var u := S.Looked(s, r, turn.sight);
    var look := [S.Look(r, turn.sight)];
    S.AfterOne(s, S.Look(r, turn.sight));
    var sending := SendingEvents(r, |s.attempts|, turn);
    S.AfterAppend(s, look, sending);
    SendingIsTrace(u, r, |s.attempts|, turn);
    var (rows, o) := SentOff(u, r, turn);
    var made := TurnAttempts(s.rows, S.LeadOf(s, r), s.runs[r].now, s.runs[r].booking, turn, s.clock);
    assert WithFate(u, |s.attempts|, SendFate(turn, s.clock)) == s.attempts + made;
    StandsOn(s, u, S.After(u, sending).value, r, rows, o, s.attempts + made);
  }

  /** A turn of the loop is a run of events. */
  lemma TurnIsTrace(s: S.State, r: nat, turn: Turn)
    requires S.AtLead(s, r)
    ensures var run := s.runs[r]; var (rows, o) := Turned(s.rows, S.LeadOf(s, r), run.now, run.booking, turn);
      var made := TurnAttempts(s.rows, S.LeadOf(s, r), run.now, run.booking, turn, s.clock);
      var t := S.After(s, TurnEvents(s, r, turn)); t.Some? && Stands(s, t.value, r, rows, o, s.attempts + made)
  {
    hide Advanced, NextDue, Wins, S.After, S.Step, Answered, Stands, Released, WithStatus, WithoutEmail, SendingEvents, SendFate;
    assert s.attempts + [] == s.attempts;
    LoseIsTrace(s, r);
    S.AfterOne(s, S.Die(r));
    S.AfterOne(s, S.LoseAnswer(r));
    S.AfterOne(s, S.Look(r, turn.sight));
    if LooksOnly(s, r, turn) {
      LooksIsTrace(s, r, turn);
    } else if !turn.fault.AtChecks? && !turn.fault.AtAdvance? {
      WinIsTrace(s, r, turn);
    }
  }

  /** The loop, from the lead it has reached on, is a run of events of the machine, with the same table and attempts. */
  lemma {:induction false} RunIsTrace(s: S.State, r: nat, result: RunResult, turns: seq<Turn>) returns (events: seq<S.Event>)
    requires AtLoop(s, r, turns)
    ensures S.After(s, events).Some? && S.After(s, events).value.clock == s.clock && S.After(s, events).value.born == s.born
    ensures var run := s.runs[r]; var t := S.After(s, events).value; var rest := run.batch[run.at..];
      t.rows == Run(s.rows, result, rest, run.now, run.booking, turns).0
      && t.attempts == s.attempts + RunAttempts(s.rows, rest, run.now, run.booking, turns, s.clock)
    decreases |turns|
  {
    hide S.Step, Turned, TurnEvents, TurnAttempts;
    var run := s.runs[r];
    var rest := run.batch[run.at..];
    if turns == [] {
      assert s.attempts + [] == s.attempts;
      return [];
    }
    TurnIsTrace(s, r, turns[0]);
    events := TurnEvents(s, r, turns[0]);
    var t := S.After(s, events).value;
    var (rows, o) := Turned(s.rows, S.LeadOf(s, r), run.now, run.booking, turns[0]);
    var made := TurnAttempts(s.rows, S.LeadOf(s, r), run.now, run.booking, turns[0], s.clock);
    assert rest[0] == S.LeadOf(s, r) && rest[1..] == run.batch[run.at + 1..];
    if o != Failed {
      var more := RunIsTrace(t, r, Tally(result, o), turns[1..]);
      S.AfterAppend(s, events, more);
      events := events + more;
      var later := RunAttempts(rows, rest[1..], run.now, run.booking, turns[1..], s.clock);
      assert s.attempts + made + later == s.attempts + (made + later);
    } else {
      assert made + [] == made;
    }
  }

  /** A run of the machine that is about to work on its leads from `at` on. */
  predicate AtLoop(s: S.State, r: nat, turns: seq<Turn>) {
    r < |s.runs| && s.runs[r].phase == S.Next && s.runs[r].at <= |s.runs[r].batch| && |turns| == |s.runs[r].batch| - s.runs[r].at
  }

  function AcceptedIn(attempts: seq<S.Attempt>): nat {
    if attempts == [] then 0 else (if attempts[0].fate.Accepted? then 1 else 0) + AcceptedIn(attempts[1..])
  }

  lemma {:induction false} AcceptedConcat(a: seq<S.Attempt>, b: seq<S.Attempt>)
    ensures AcceptedIn(a + b) == AcceptedIn(a) + AcceptedIn(b)
  {
    if a == [] {
      assert a + b == b;
    } else {
      assert (a + b)[1..] == a[1..] + b;
      AcceptedConcat(a[1..], b);
    }
  }

  lemma DeliveredIsAccepted(rows: Rows, lead: Lead, now: int, booking: bool, turn: Turn, clock: int)
    ensures AcceptedIn(TurnAttempts(rows, lead, now, booking, turn, clock)) == if Turned(rows, lead, now, booking, turn).1 == Delivered then 1 else 0
  {
    hide Wins, Marked, PutBack;
    assert AcceptedIn([]) == 0;
    assert [S.Attempt(lead.id, lead.step, now, SendFate(turn, clock))][1..] == [];
  }

  /** What the run counts as sent are exactly the mails the provider accepted and said so. */
  lemma {:induction false} SentAreAccepted(rows: Rows, r: RunResult, batch: seq<Lead>, now: int, booking: bool, turns: seq<Turn>, clock: int)
    requires |batch| == |turns|
    ensures Run(rows, r, batch, now, booking, turns).1.sent == r.sent + AcceptedIn(RunAttempts(rows, batch, now, booking, turns, clock))
    decreases |batch|
  {
    hide Turned, TurnAttempts;
    if batch != [] {
      var (rows', o) := Turned(rows, batch[0], now, booking, turns[0]);
      var made := TurnAttempts(rows, batch[0], now, booking, turns[0], clock);
      DeliveredIsAccepted(rows, batch[0], now, booking, turns[0], clock);
      assert AcceptedIn([]) == 0;
      if o == Failed {
        AcceptedConcat(made, []);
      } else {
        AcceptedConcat(made, RunAttempts(rows', batch[1..], now, booking, turns[1..], clock));
        SentAreAccepted(rows', Tally(r, o), batch[1..], now, booking, turns[1..], clock);
      }
    }
  }

  /**
   * Started in any state the machine can be in, the loop sends no step that was accepted before, none twice, and none
   * before its day.
   */
  lemma RunSendsOnce(s: S.State, r: nat, turns: seq<Turn>)
    requires S.Inv(s) && AtLoop(s, r, turns)
    ensures var run := s.runs[r];
      var made := RunAttempts(s.rows, run.batch[run.at..], run.now, run.booking, turns, s.clock);
      forall i :: 0 <= i < |made| && made[i].fate.Accepted? ==>
        (forall a :: a in s.attempts && a.fate.Accepted? ==> !S.SameSend(a, made[i]))
        && (forall j :: 0 <= j < i && made[j].fate.Accepted? ==> !S.SameSend(made[j], made[i]))
        && made[i].id < |s.born| && made[i].step < STEPS && made[i].fate.at >= made[i].now >= Earliest(s.born[made[i].id], made[i].step)
  {
    hide Run, RunAttempts, S.After, S.RowsOk, S.RunsOk;
    var run := s.runs[r];
    var made := RunAttempts(s.rows, run.batch[run.at..], run.now, run.booking, turns, s.clock);
    var events := RunIsTrace(s, r, ZERO, turns);
    S.InvAfter(s, events);
    var t := S.After(s, events).value;
    var n := |s.attempts|;
    forall i | 0 <= i < |made| && made[i].fate.Accepted?
      ensures (forall a :: a in s.attempts && a.fate.Accepted? ==> !S.SameSend(a, made[i]))
        && (forall j :: 0 <= j < i && made[j].fate.Accepted? ==> !S.SameSend(made[j], made[i]))
        && made[i].id < |s.born| && made[i].step < STEPS && made[i].fate.at >= made[i].now >= Earliest(s.born[made[i].id], made[i].step)
    {
      assert t.attempts[n + i] == made[i];
      assert S.AttemptOk(t.clock, t.born, t.rows, t.attempts[n + i]);
      forall a | a in s.attempts && a.fate.Accepted? ensures !S.SameSend(a, made[i]) {
        var k :| 0 <= k < n && s.attempts[k] == a;
        assert t.attempts[k] == a;
      }
      forall j | 0 <= j < i && made[j].fate.Accepted? ensures !S.SameSend(made[j], made[i]) {
        assert t.attempts[n + j] == made[j];
      }
    }
  }
}
