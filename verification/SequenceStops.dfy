/**
 * Stopping a lead while a run is sending to it: when a stop is final, and the trace on which it is undone.
 */
module SequenceStops {
  import opened Wrappers
  import opened Leads
  import opened Sequence

  // ----- a stop against a step in flight -----

  predicate NotYetAccepted(fate: Fate) {
    fate.Held? || fate.OnWire? || fate.Refused?
  }

  /** Run `r` carries an attempt whose undo would match the lead's row. */
  predicate MayPutBack(s: State, id: nat, r: nat, n: nat) {
    r < |s.runs| && n < |s.attempts| && Carries(s.runs[r], n) && s.attempts[n].id == id && NotYetAccepted(s.attempts[n].fate)
    && id in s.rows && s.attempts[n].step + 1 == s.rows[id].step
  }

  ghost predicate InFlight(s: State, id: nat) {
    exists r, n :: MayPutBack(s, id, r, n)
  }

  predicate IsStopped(s: State, id: nat) {
    id < |s.born| && (id in s.rows ==> s.rows[id].status != Active)
  }

  /** A stop stops the lead, and its reason is recorded. */
  lemma StopStops(s: State, id: nat, reason: Status)
    requires id < |s.born| && Step(s, Stop(id, reason)).Some?
    ensures var t := Step(s, Stop(id, reason)).value;
      IsStopped(t, id) && (id in t.rows ==> t.rows[id].status == reason && t.rows[id].nextSendAt.None?)
  {
  }

  ghost predicate StopIsFinal(s: State, id: nat) {
    forall events :: After(s, events).Some? ==> IsStopped(After(s, events).value, id)
  }

  /** Between `s` and `t` no run took up a step of lead `id`. */
  ghost predicate NoNewAttempt(s: State, t: State, id: nat) {
    |s.attempts| <= |t.attempts|
    && (forall n :: 0 <= n < |s.attempts| ==> t.attempts[n].id == s.attempts[n].id)
    && forall n :: |s.attempts| <= n < |t.attempts| ==> t.attempts[n].id != id
  }

  lemma GiveBackKeepsStop(s: State, id: nat, r: nat, n: nat)
    requires Inv(s) && IsStopped(s, id) && !InFlight(s, id)
    requires r < |s.runs| && Carries(s.runs[r], n) && s.runs[r].at < |s.runs[r].batch| && n < |s.attempts| && NotYetAccepted(s.attempts[n].fate)
    ensures var t := GiveBack(s, r, n); IsStopped(t, id) && (id in t.rows ==> id in s.rows && t.rows[id] == s.rows[id])
  {
    hide RowsOk, AttemptsOk, OpenOnce, RunsOk;
    CarriedInRange(s, r);
    assert !MayPutBack(s, id, r, n);
  }

  /** What an event can do to a stopped lead that nothing in flight can put back. */
  lemma StopStep(s: State, e: Event, id: nat)
    requires Inv(s) && Step(s, e).Some? && IsStopped(s, id) && !InFlight(s, id)
    ensures var t := Step(s, e).value;
      IsStopped(t, id) && (id in t.rows ==> id in s.rows && t.rows[id].step == s.rows[id].step)
  {
    hide RowsOk, AttemptsOk, OpenOnce, RunsOk, InFlight, GiveBack;
    match e
    case Throw(r) =>
      CarriedInRange(s, r);
      assert Carries(s.runs[r], s.runs[r].phase.n);
      GiveBackKeepsStop(s, id, r, s.runs[r].phase.n);
    case Hear(r, answer) =>
      if answer == NotSent {
        GiveBackKeepsStop(s, id, r, s.runs[r].phase.n);
      }
    case _ =>
  }

  /** Every unsent attempt carried in `t` was carried unsent in `s`. */
  ghost predicate NoneTakenUp(s: State, t: State, id: nat) {
    forall r: nat, n: nat :: CarriesFor(t, id, r, n) ==>
      CarriesFor(s, id, r, n) && t.attempts[n].step == s.attempts[n].step
  }

  predicate CarriesFor(s: State, id: nat, r: nat, n: nat) {
    r < |s.runs| && n < |s.attempts| && Carries(s.runs[r], n) && s.attempts[n].id == id && NotYetAccepted(s.attempts[n].fate)
  }

  lemma SameFlight(s: State, t: State, id: nat)
    requires !InFlight(s, id) && (id in t.rows ==> id in s.rows && t.rows[id].step == s.rows[id].step) && NoneTakenUp(s, t, id)
    ensures !InFlight(t, id)
  {
    forall r: nat, n: nat ensures !MayPutBack(t, id, r, n) {
      assert !MayPutBack(s, id, r, n);
      assert CarriesFor(t, id, r, n) ==> CarriesFor(s, id, r, n) && t.attempts[n].step == s.attempts[n].step;
    }
  }

  /** No event starts a new attempt for a stopped lead, or makes one undoable that was not. */
  lemma FlightStep(s: State, e: Event, id: nat)
    requires Inv(s) && Step(s, e).Some? && IsStopped(s, id) && !InFlight(s, id)
    ensures !InFlight(Step(s, e).value, id) && NoNewAttempt(s, Step(s, e).value, id)
  {
    hide InFlight, NoNewAttempt, Inv, NoneTakenUp, Enrolled, Looked, Heard, GiveBack;
    var t := Step(s, e).value;
    StopStep(s, e, id);
    match e
    case Look(r, sight) => LookFlight(s, r, sight, id);
    case Hear(r, answer) => HearFlight(s, r, answer, id);
    case Throw(r) => GiveBackFlight(s, r, s.runs[r].phase.n, id);
    case Enroll(_, _) => EnrollFlight(s, e, id);
    case _ => OtherFlight(s, e, id);
  }

  lemma EnrollFlight(s: State, e: Event, id: nat)
    requires e.Enroll? && Step(s, e).Some? && !InFlight(s, id)
    requires var t := Step(s, e).value; id in t.rows ==> id in s.rows && t.rows[id].step == s.rows[id].step
    ensures !InFlight(Step(s, e).value, id) && NoNewAttempt(s, Step(s, e).value, id)
  {
    SameFlight(s, Step(s, e).value, id);
  }

  lemma OtherFlight(s: State, e: Event, id: nat)
    requires Inv(s) && Step(s, e).Some? && !InFlight(s, id) && !e.Look? && !e.Hear? && !e.Throw? && !e.Enroll?
    requires var t := Step(s, e).value; id in t.rows ==> id in s.rows && t.rows[id].step == s.rows[id].step
    ensures !InFlight(Step(s, e).value, id) && NoNewAttempt(s, Step(s, e).value, id)
  {
    hide Inv, InFlight, Advanced, NextDue, WithStatus, IsBatch;
    InRange(s);
    var t := Step(s, e).value;
    AttemptsGrow(s, t, id);
    SameFlight(s, t, id);
  }

  lemma GiveBackFlight(s: State, r: nat, n: nat, id: nat)
    requires !InFlight(s, id) && r < |s.runs| && s.runs[r].at < |s.runs[r].batch| && n < |s.attempts|
    requires var t := GiveBack(s, r, n); id in t.rows ==> id in s.rows && t.rows[id].step == s.rows[id].step
    ensures !InFlight(GiveBack(s, r, n), id) && NoNewAttempt(s, GiveBack(s, r, n), id)
  {
    hide InFlight, Restored;
    var t := GiveBack(s, r, n);
    AttemptsGrow(s, t, id);
    SameFlight(s, t, id);
  }

  lemma HearFlight(s: State, r: nat, answer: Answer, id: nat)
    requires CanHear(s, r, answer) && !InFlight(s, id)
    requires var t := Heard(s, r, answer); id in t.rows ==> id in s.rows && t.rows[id].step == s.rows[id].step
    ensures !InFlight(Heard(s, r, answer), id) && NoNewAttempt(s, Heard(s, r, answer), id)
  {
    hide InFlight, GiveBack, WithStatus, WithoutEmail, NoNewAttempt;
    var t := Heard(s, r, answer);
    if answer == NotSent {
      GiveBackFlight(s, r, s.runs[r].phase.n, id);
    } else {
      AttemptsGrow(s, t, id);
      SameFlight(s, t, id);
    }
  }

  lemma AttemptsGrow(s: State, t: State, id: nat)
    requires |t.attempts| == |s.attempts| && forall n :: 0 <= n < |s.attempts| ==> t.attempts[n].id == s.attempts[n].id
    ensures NoNewAttempt(s, t, id)
  {
  }

  lemma InRange(s: State)
    requires Inv(s)
    ensures forall r: nat, n: nat :: r < |s.runs| && Carries(s.runs[r], n) ==> n < |s.attempts|
    ensures forall r: nat :: r < |s.runs| && s.runs[r].phase.Holding? && s.runs[r].phase.n < |s.attempts| ==> s.attempts[s.runs[r].phase.n].fate == Held
  {
    forall r: nat, n: nat | r < |s.runs| && Carries(s.runs[r], n) ensures n < |s.attempts| {
      CarriedInRange(s, r);
    }
    forall r: nat | r < |s.runs| && s.runs[r].phase.Holding? && s.runs[r].phase.n < |s.attempts|
      ensures s.attempts[s.runs[r].phase.n].fate == Held
    {
      CarriedInRange(s, r);
      assert Carries(s.runs[r], s.runs[r].phase.n);
    }
  }

  lemma LookFlight(s: State, r: nat, sight: Sight, id: nat)
    requires Inv(s) && AtLead(s, r) && IsStopped(s, id) && !InFlight(s, id)
    requires var t := Looked(s, r, sight); id in t.rows ==> id in s.rows && t.rows[id].step == s.rows[id].step
    ensures !InFlight(Looked(s, r, sight), id) && NoNewAttempt(s, Looked(s, r, sight), id)
  {
    hide Inv, InFlight, Advanced, NextDue, Released, WithStatus, WithoutEmail;
    InRange(s);
    SameFlight(s, Looked(s, r, sight), id);
  }

  /** A lead stopped with nothing in flight stays stopped and is sent nothing more. */
  lemma {:induction false} SettledStop(s: State, events: seq<Event>, id: nat)
    requires Inv(s) && IsStopped(s, id) && !InFlight(s, id) && After(s, events).Some?
    ensures var t := After(s, events).value;
      IsStopped(t, id) && NoNewAttempt(s, t, id)
    decreases |events|
  {
    hide Inv, Step, InFlight;
    if events != [] {
      InvStep(s, events[0]);
      StopStep(s, events[0], id);
      FlightStep(s, events[0], id);
      SettledStop(Step(s, events[0]).value, events[1..], id);
    }
  }

  lemma GivenBackIsActive(s: State, id: nat, r: nat, n: nat)
    requires Inv(s) && MayPutBack(s, id, r, n)
    ensures s.runs[r].at < |s.runs[r].batch| && var t := GiveBack(s, r, n); id in t.rows && t.rows[id].status == Active
  {
    hide RowsOk, AttemptsOk, OpenOnce, RunsOk;
    CarriedInRange(s, r);
  }

  /** A step in flight that is then refused makes the stopped lead active again. */
  lemma Revives(s: State, id: nat, r: nat, n: nat)
    requires Inv(s) && MayPutBack(s, id, r, n)
    ensures exists events :: After(s, events).Some? && !IsStopped(After(s, events).value, id)
  {
    hide Inv, GiveBack, After;
    GivenBackIsActive(s, id, r, n);
    CarriedInRange(s, r);
    if s.runs[r].phase.Holding? {
      AfterOne(s, Throw(r));
      assert After(s, [Throw(r)]).Some? && !IsStopped(After(s, [Throw(r)]).value, id);
    } else if s.attempts[n].fate.Refused? {
      AfterOne(s, Hear(r, NotSent));
      assert After(s, [Hear(r, NotSent)]).Some? && !IsStopped(After(s, [Hear(r, NotSent)]).value, id);
    } else {
      var t := SetFate(s, n, Refused);
      assert Step(s, Refuse(n)) == Some(t);
      AfterOne(s, Refuse(n));
      AfterThen(s, [Refuse(n)], Hear(r, NotSent));
      assert [Refuse(n)] + [Hear(r, NotSent)] == [Refuse(n), Hear(r, NotSent)];
      InvStep(s, Refuse(n));
      assert MayPutBack(t, id, r, n);
      GivenBackIsActive(t, id, r, n);
      assert After(s, [Refuse(n), Hear(r, NotSent)]).Some? && !IsStopped(After(s, [Refuse(n), Hear(r, NotSent)]).value, id);
    }
  }

  /**
   * Stopping a lead is final exactly when no run is carrying its latest step with the mail not yet accepted: the undo
   * matches the row on its step alone and sets it active again, whatever stopped it in between.
   */
  lemma StopIsFinalExactly(s: State, id: nat)
    requires Inv(s) && IsStopped(s, id)
    ensures StopIsFinal(s, id) <==> !InFlight(s, id)
  {
    hide Inv, After, IsStopped;
    if InFlight(s, id) {
      var r, n :| MayPutBack(s, id, r, n);
      Revives(s, id, r, n);
    } else {
      forall events | After(s, events).Some? ensures IsStopped(After(s, events).value, id) {
        SettledStop(s, events, id);
      }
    }
  }
}
