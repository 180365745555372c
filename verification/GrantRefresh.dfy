/**
 * OAuth token refresh under single-use refresh tokens. Several isolates read one stored envelope, ask the server for a
 * new pair and store it by compare-and-swap on the envelope they started from. Each event is one database statement,
 * one server action, or the end of an isolate. Sealing is taken as ideal: an envelope opens to what was sealed, and no
 * two sealings are equal.
 */
module GrantRefresh {
  import opened Wrappers

  /** `refresh` names the refresh token; expiry is of the access token. */
  datatype Material = Material(refresh: nat, expiresAt: Option<int>)

  datatype Envelope = Envelope(serial: nat, material: Material)

  datatype Status = Active | Broken | Revoked

  /** What an isolate is doing with the connection. */
  datatype Phase =
    | Idle
    | Resealing(env: Envelope)
    | Has(env: Envelope)
    | Asking(env: Envelope)
    | Issued(env: Envelope, pair: Material)
    | Beaten(env: Envelope)
    | Refused(env: Envelope, polls: nat)
    | Breaking(env: Envelope)

  /** `live` is the one refresh token the server still takes. */
  datatype State = State(clock: int, stored: Envelope, status: Status, live: nat, nextToken: nat, nextSerial: nat, isolates: seq<Phase>)

  datatype Event =
    | Tick(seconds: nat)
    | Open(i: nat)
    | OpenRetired(i: nat)
    | CommitReseal(i: nat)
    | Ask(i: nat)
    | Redeem(i: nat, expiresAt: Option<int>)
    | Unreachable(i: nat)
    | LoseReply(i: nat)
    | Swap(i: nat)
    | ReadWinner(i: nat)
    | Poll(i: nat)
    | Break(i: nat)
    | Crash(i: nat)

  const SKEW_SECONDS := 60
  const POLLS := 3

  predicate Expired(m: Material, now: int) {
    m.expiresAt.Some? && m.expiresAt.value - SKEW_SECONDS <= now
  }

  function At(s: State, i: nat): Phase {
    if i < |s.isolates| then s.isolates[i] else Idle
  }

  function Put(s: State, i: nat, phase: Phase): State {
    if i < |s.isolates| then s.(isolates := s.isolates[i := phase]) else s
  }

  function Store(s: State, material: Material): State {
    s.(stored := Envelope(s.nextSerial, material), nextSerial := s.nextSerial + 1)
  }

  /** The machine. None: the event cannot happen here. */
  function Step(s: State, e: Event): Option<State> {
    match e
    case Tick(seconds) => Some(s.(clock := s.clock + seconds))
    case Open(i) => if i < |s.isolates| && At(s, i).Idle? && s.status.Active? then Some(Put(s, i, Has(s.stored))) else None
    case OpenRetired(i) => if i < |s.isolates| && At(s, i).Idle? && s.status.Active? then Some(Put(s, i, Resealing(s.stored))) else None
    case CommitReseal(i) =>
      if !At(s, i).Resealing? then None
      else if s.stored != At(s, i).env then Some(Put(s, i, Has(At(s, i).env)))
      else
        var t := Store(s, At(s, i).env.material);
        Some(Put(t, i, Has(t.stored)))
    case Ask(i) => if At(s, i).Has? then Some(Put(s, i, Asking(At(s, i).env))) else None
    case Redeem(i, expiresAt) =>
      if !At(s, i).Asking? then None
      else if At(s, i).env.material.refresh == s.live then
        Some(Put(s.(live := s.nextToken, nextToken := s.nextToken + 1), i, Issued(At(s, i).env, Material(s.nextToken, expiresAt))))
      else Some(Put(s, i, Refused(At(s, i).env, 0)))
    case Unreachable(i) => if At(s, i).Asking? then Some(Put(s, i, Has(At(s, i).env))) else None
    case LoseReply(i) =>
      if At(s, i).Asking? && At(s, i).env.material.refresh == s.live then
        Some(Put(s.(live := s.nextToken, nextToken := s.nextToken + 1), i, Has(At(s, i).env)))
      else None
    case Swap(i) =>
      if !At(s, i).Issued? then None
      else if s.stored != At(s, i).env then Some(Put(s, i, Beaten(At(s, i).env)))
      else
        var t := Store(s, At(s, i).pair);
        Some(Put(t, i, Has(t.stored)))
    case ReadWinner(i) => if At(s, i).Beaten? then Some(Put(s, i, Has(s.stored))) else None
    case Poll(i) =>
      if !At(s, i).Refused? then None
      else if s.status.Active? && s.stored != At(s, i).env && !Expired(s.stored.material, s.clock) then Some(Put(s, i, Has(s.stored)))
      else if At(s, i).polls + 1 >= POLLS then Some(Put(s, i, Breaking(At(s, i).env)))
      else Some(Put(s, i, Refused(At(s, i).env, At(s, i).polls + 1)))
    case Break(i) => if At(s, i).Breaking? then Some(Put(s.(status := if s.status.Active? then Broken else s.status), i, Idle)) else None
    case Crash(i) => if i < |s.isolates| then Some(Put(s, i, Idle)) else None
  }

  function After(s: State, events: seq<Event>): Option<State>
    decreases |events|
  {
    if events == [] then Some(s)
    else match Step(s, events[0]) case None => None case Some(t) => After(t, events[1..])
  }

  // ----- where the live token is -----

  predicate Known(s: State, env: Envelope) {
    env.serial < s.nextSerial && env.material.refresh < s.nextToken
  }

  predicate PhaseOk(s: State, phase: Phase) {
    (phase.Idle? || Known(s, phase.env))
    && (phase.Issued? ==> phase.pair.refresh < s.nextToken)
    && (phase.Refused? || phase.Breaking? ==> phase.env.material.refresh != s.live)
  }

  ghost predicate Wf(s: State) {
    Known(s, s.stored) && s.live < s.nextToken && forall i :: 0 <= i < |s.isolates| ==> PhaseOk(s, s.isolates[i])
  }

  ghost predicate NobodyIssued(s: State) {
    forall i :: 0 <= i < |s.isolates| ==> !s.isolates[i].Issued?
  }

  /** Isolate `w` alone holds the new pair, and its swap would still match. */
  ghost predicate Winner(s: State, w: nat) {
    w < |s.isolates| && s.isolates[w].Issued? && s.isolates[w].pair.refresh == s.live && s.isolates[w].env == s.stored
    && s.stored.material.refresh != s.live
    && (forall i :: 0 <= i < |s.isolates| && i != w ==> !s.isolates[i].Issued?)
    && (forall i :: 0 <= i < |s.isolates| && !s.isolates[i].Idle? ==> s.isolates[i].env.material.refresh != s.live)
  }

  /** The grant can still be refreshed: its live token is stored, or on its way there. */
  ghost predicate Safe(s: State) {
    Wf(s) && ((NobodyIssued(s) && s.stored.material.refresh == s.live) || exists w :: Winner(s, w))
  }

  /** Nothing stored or held leads back to the live token. */
  ghost predicate Lost(s: State) {
    Wf(s) && s.stored.material.refresh != s.live
    && forall i :: 0 <= i < |s.isolates| && !s.isolates[i].Idle? ==>
      s.isolates[i].env.material.refresh != s.live
      && (s.isolates[i].Issued? && s.isolates[i].pair.refresh == s.live ==> s.isolates[i].env != s.stored)
  }

  /**
   * The four ways to lose a grant: the isolate that was given the new pair ends before storing it; the server's reply
   * is lost; a re-seal under a newer key changes the envelope the winner started from; or a refresh starts from an
   * envelope that such a re-seal has replaced.
   */
  ghost predicate Harm(s: State, e: Event) {
    match e
    case Crash(i) => At(s, i).Issued?
    case LoseReply(_) => true
    case CommitReseal(i) => At(s, i).Resealing? && s.stored == At(s, i).env && !NobodyIssued(s)
    case Redeem(i, _) => At(s, i).Asking? && At(s, i).env.material.refresh == s.live && At(s, i).env != s.stored
    case _ => false
  }

  /** Storing or naming something new, and moving one isolate, keeps the state well-formed. */
  lemma WfPut(s: State, t: State, i: nat, phase: Phase)
    requires Wf(s) && i < |s.isolates| && t.isolates == s.isolates[i := phase]
    requires t.nextToken >= s.nextToken && t.nextSerial >= s.nextSerial && t.live < t.nextToken && (t.live == s.live || t.live == s.nextToken)
    requires Known(t, t.stored) && PhaseOk(t, phase)
    ensures Wf(t)
  {
    forall j | 0 <= j < |t.isolates| ensures PhaseOk(t, t.isolates[j]) {
      assert PhaseOk(s, s.isolates[j]);
    }
  }

  lemma WfStep(s: State, e: Event)
    requires Wf(s) && Step(s, e).Some?
    ensures Wf(Step(s, e).value)
  {
    hide Wf;
    if !e.Tick? {
      assert e.i < |s.isolates|;
      InWf(s, e.i);
      WfPut(s, Step(s, e).value, e.i, At(Step(s, e).value, e.i));
    } else {
      WfTick(s, e.seconds);
    }
  }

  lemma InWf(s: State, i: nat)
    requires Wf(s)
    ensures PhaseOk(s, At(s, i)) && Known(s, s.stored) && s.live < s.nextToken
  {
  }

  lemma WfTick(s: State, seconds: nat)
    requires Wf(s)
    ensures Wf(s.(clock := s.clock + seconds))
  {
    forall j | 0 <= j < |s.isolates| ensures PhaseOk(s.(clock := s.clock + seconds), s.isolates[j]) {
      assert PhaseOk(s, s.isolates[j]);
    }
  }

  /** With the live token stored, every event but the harmful ones leaves it stored or hands it to one winner. */
  lemma StoredStep(s: State, e: Event)
    requires Wf(s) && NobodyIssued(s) && s.stored.material.refresh == s.live && Step(s, e).Some? && !Harm(s, e)
    ensures Safe(Step(s, e).value)
  {
    hide Wf;
    WfStep(s, e);
    InWf(s, if e.Tick? then 0 else e.i);
    var t := Step(s, e).value;
    if e.Redeem? && At(s, e.i).env.material.refresh == s.live {
      assert forall j :: 0 <= j < |s.isolates| ==> PhaseOk(s, s.isolates[j]) by { AllInWf(s); }
      assert Winner(t, e.i);
    } else {
      assert NobodyIssued(t);
    }
  }

  lemma AllInWf(s: State)
    requires Wf(s)
    ensures forall j :: 0 <= j < |s.isolates| ==> PhaseOk(s, s.isolates[j])
  {
  }

  /** With the new pair in one isolate's hands, it stays there or reaches the row. */
  lemma WinnerStep(s: State, e: Event, w: nat)
    requires Wf(s) && Winner(s, w) && Step(s, e).Some? && !Harm(s, e)
    ensures Safe(Step(s, e).value)
  {
    hide Wf;
    WfStep(s, e);
    var t := Step(s, e).value;
    assert !NobodyIssued(s);
    if e == Swap(w) {
      assert NobodyIssued(t);
    } else {
      assert Winner(t, w);
    }
  }

  lemma SafeStep(s: State, e: Event)
    requires Safe(s) && Step(s, e).Some? && !Harm(s, e)
    ensures Safe(Step(s, e).value)
  {
    hide Wf, Winner, Harm, Step, NobodyIssued;
    if NobodyIssued(s) && s.stored.material.refresh == s.live {
      StoredStep(s, e);
    } else {
      var w :| Winner(s, w);
      WinnerStep(s, e, w);
    }
  }

  lemma HarmStep(s: State, e: Event)
    requires Safe(s) && Step(s, e).Some? && Harm(s, e)
    ensures Lost(Step(s, e).value)
  {
    hide Wf;
    WfStep(s, e);
    AllInWf(s);
    InWf(s, e.i);
    var t := Step(s, e).value;
    forall j | 0 <= j < |t.isolates| && !t.isolates[j].Idle?
      ensures t.isolates[j].env.material.refresh != t.live
        && (t.isolates[j].Issued? && t.isolates[j].pair.refresh == t.live ==> t.isolates[j].env != t.stored)
    {
      assert PhaseOk(s, s.isolates[j]);
    }
  }

  lemma LostStep(s: State, e: Event)
    requires Lost(s) && Step(s, e).Some?
    ensures Lost(Step(s, e).value) && Step(s, e).value.live == s.live
  {
    hide Wf;
    WfStep(s, e);
    AllInWf(s);
    InWf(s, 0);
    var t := Step(s, e).value;
    forall j | 0 <= j < |t.isolates| && !t.isolates[j].Idle?
      ensures t.isolates[j].env.material.refresh != t.live
        && (t.isolates[j].Issued? && t.isolates[j].pair.refresh == t.live ==> t.isolates[j].env != t.stored)
    {
      assert PhaseOk(s, s.isolates[j]);
    }
  }

  lemma NotBoth(s: State)
    requires Lost(s)
    ensures !Safe(s)
  {
  }

  ghost predicate AnyHarm(s: State, events: seq<Event>)
    decreases |events|
  {
    events != [] && (Harm(s, events[0]) || (Step(s, events[0]).Some? && AnyHarm(Step(s, events[0]).value, events[1..])))
  }

  /** A connection just made, seen by nobody yet. */
  function Start(clock: int, expiresAt: Option<int>, isolates: nat): State {
    State(clock, Envelope(0, Material(0, expiresAt)), Active, 0, 1, 1, seq(isolates, i => Idle))
  }

  lemma StartIsSafe(clock: int, expiresAt: Option<int>, isolates: nat)
    ensures Safe(Start(clock, expiresAt, isolates))
  {
    assert NobodyIssued(Start(clock, expiresAt, isolates));
  }

  // ----- over whole runs -----

  lemma {:induction false} LostForever(s: State, events: seq<Event>)
    requires Lost(s) && After(s, events).Some?
    ensures Lost(After(s, events).value) && After(s, events).value.live == s.live
    decreases |events|
  {
    hide Lost, Step;
    if events != [] {
      LostStep(s, events[0]);
      LostForever(Step(s, events[0]).value, events[1..]);
    }
  }

  /**
   * Over any interleaving of any number of isolates, the stored envelope holds the live refresh token or exactly one
   * isolate holds the new pair and may still store it, if and only if none of the four harmful events took place. Once
   * one has, no refresh succeeds again.
   */
  lemma {:induction false} GrantSurvivesExactly(s: State, events: seq<Event>)
    requires Safe(s) && After(s, events).Some?
    ensures Safe(After(s, events).value) <==> !AnyHarm(s, events)
    ensures AnyHarm(s, events) ==> Lost(After(s, events).value)
    decreases |events|
  {
    hide Safe, Lost, Step, Harm;
    if events != [] {
      var t := Step(s, events[0]).value;
      if Harm(s, events[0]) {
        HarmStep(s, events[0]);
        LostForever(t, events[1..]);
        NotBoth(After(s, events).value);
      } else {
        SafeStep(s, events[0]);
        GrantSurvivesExactly(t, events[1..]);
      }
    }
  }

  /** The isolate that was given the new pair always stores it, and the row then holds the live token. */
  lemma WinnerSwaps(s: State, w: nat)
    requires Safe(s) && At(s, w).Issued?
    ensures Step(s, Swap(w)).Some?
    ensures var t := Step(s, Swap(w)).value;
      At(t, w) == Has(t.stored) && t.stored.material == At(s, w).pair && t.stored.material.refresh == t.live && NobodyIssued(t)
  {
    hide Wf;
    var v :| Winner(s, v);
    assert v == w;
  }

  /**
   * What a refused isolate finds when it looks again. With no winner still to store, it takes over the live pair exactly
   * when the row is active and its token unexpired. While the winner has yet to store and nobody else has stored since
   * this isolate read, it never does.
   */
  lemma RefusedPolls(s: State, i: nat)
    requires Safe(s) && At(s, i).Refused?
    ensures Step(s, Poll(i)).Some?
    ensures var t := Step(s, Poll(i)).value;
      && (NobodyIssued(s) ==> (At(t, i) == Has(s.stored) <==>
                           s.status.Active? && (s.stored.material.expiresAt.None? || s.stored.material.expiresAt.value > s.clock + 60)))
      && (NobodyIssued(s) ==> s.stored.material.refresh == s.live)
      && (At(s, i).env == s.stored ==> At(t, i) != Has(s.stored) && !NobodyIssued(s))
  {
    assert PhaseOk(s, s.isolates[i]);
    if w: nat :| Winner(s, w) {
      assert s.isolates[w].Issued?;
    }
  }

  // ----- what can happen -----

  /** No isolate is ever stuck: whatever it is doing, its next statement can be made, and this is where it leads. */
  lemma NoneIsStuck(s: State, i: nat, expiresAt: Option<int>)
    requires i < |s.isolates|
    ensures match s.isolates[i]
      case Idle => s.status.Active? ==> Step(s, Open(i)) == Some(Put(s, i, Has(s.stored))) && Step(s, OpenRetired(i)) == Some(Put(s, i, Resealing(s.stored)))
      case Resealing(env) => Step(s, CommitReseal(i)).Some? && At(Step(s, CommitReseal(i)).value, i).Has?
      case Has(env) => Step(s, Ask(i)) == Some(Put(s, i, Asking(env)))
      case Asking(env) => Step(s, Redeem(i, expiresAt)).Some? && Step(s, Unreachable(i)) == Some(Put(s, i, Has(env)))
      case Issued(_, _) => Step(s, Swap(i)).Some?
      case Beaten(_) => Step(s, ReadWinner(i)) == Some(Put(s, i, Has(s.stored)))
      case Refused(_, _) => Step(s, Poll(i)).Some?
      case Breaking(_) => Step(s, Break(i)).Some?
  {
  }

  /** A re-seal stores the same material under a new envelope, if the row still holds the one it read. */
  lemma ResealStores(s: State, i: nat)
    requires At(s, i).Resealing?
    ensures var t := Step(s, CommitReseal(i)).value;
      if s.stored == At(s, i).env
      then t.stored.material == s.stored.material && t.stored.serial == s.nextSerial && At(t, i) == Has(t.stored)
      else t.stored == s.stored && At(t, i) == Has(At(s, i).env)
  {
  }

  /**
   * The race itself happens: of two isolates that start from one row, the first to be heard gets the new pair, and the
   * other is refused.
   */
  lemma TheRace(s: State, i: nat, j: nat, expiresAt: Option<int>)
    requires Safe(s) && NobodyIssued(s) && s.status.Active? && i != j && i < |s.isolates| && j < |s.isolates|
    requires s.isolates[i] == Has(s.stored) && s.isolates[j] == Has(s.stored)
    ensures var t := After(s, [Ask(i), Ask(j), Redeem(i, expiresAt), Redeem(j, expiresAt)]);
      && t.Some? && Winner(t.value, i) && t.value.isolates[i].pair.expiresAt == expiresAt
      && At(t.value, j) == Refused(t.value.stored, 0) && t.value.stored == s.stored && t.value.status.Active?
  {
    var events := [Ask(i), Ask(j), Redeem(i, expiresAt), Redeem(j, expiresAt)];
    StoredIsLive(s);
    var s1 := Put(s, i, Asking(s.stored));
    var s2 := Put(s1, j, Asking(s.stored));
    var s3 := Put(s2.(live := s.nextToken, nextToken := s.nextToken + 1), i, Issued(s.stored, Material(s.nextToken, expiresAt)));
    var s4 := Put(s3, j, Refused(s.stored, 0));
    assert Step(s, events[0]) == Some(s1) && Step(s1, events[1]) == Some(s2) && Step(s2, events[2]) == Some(s3);
    assert Step(s3, events[3]) == Some(s4);
    assert s4.isolates == s.isolates[i := Issued(s.stored, Material(s.nextToken, expiresAt))][j := Refused(s.stored, 0)];
    AfterFour(s, s1, s2, s3, s4, events[0], events[1], events[2], events[3]);
    WinsTheRace(s, s4, i, j, expiresAt);
  }

  lemma StoredIsLive(s: State)
    requires Safe(s) && NobodyIssued(s)
    ensures s.stored.material.refresh == s.live
  {
  }

  lemma WinsTheRace(s: State, t: State, i: nat, j: nat, expiresAt: Option<int>)
    requires Wf(s) && NobodyIssued(s) && s.stored.material.refresh == s.live && i != j && i < |s.isolates| && j < |s.isolates|
    requires t.stored == s.stored && t.live == s.nextToken
    requires t.isolates == s.isolates[i := Issued(s.stored, Material(s.nextToken, expiresAt))][j := Refused(s.stored, 0)]
    ensures Winner(t, i)
  {
    forall k | 0 <= k < |t.isolates| && !t.isolates[k].Idle? ensures t.isolates[k].env.material.refresh != t.live {
      assert PhaseOk(s, s.isolates[k]);
    }
  }

  lemma AfterFour(s: State, s1: State, s2: State, s3: State, s4: State, a: Event, b: Event, c: Event, d: Event)
    requires Step(s, a) == Some(s1) && Step(s1, b) == Some(s2) && Step(s2, c) == Some(s3) && Step(s3, d) == Some(s4)
    ensures After(s, [a, b, c, d]) == Some(s4)
  {
    hide Step;
    assert [a, b, c, d][1..] == [b, c, d] && [b, c, d][1..] == [c, d] && [c, d][1..] == [d] && [d][1..] == [];
    assert After(s4, []) == Some(s4);
    assert After(s3, [d]) == Some(s4);
    assert After(s2, [c, d]) == After(s3, [d]);
    assert After(s1, [b, c, d]) == After(s2, [c, d]);
  }

  // ----- when a refused isolate declares the connection broken -----

  /** Isolate `i`, refused, ends this refusal by giving up. */
  ghost predicate GivesUp(s: State, events: seq<Event>, i: nat)
    decreases |events|
  {
    At(s, i).Breaking?
    || (At(s, i).Refused? && events != [] && Step(s, events[0]).Some? && GivesUp(Step(s, events[0]).value, events[1..], i))
  }

  /** The token never expires, or not for a minute yet. */
  predicate Lasts(m: Material, now: int) {
    m.expiresAt.None? || m.expiresAt.value > now + 60
  }

  /**
   * The polls of `i` that come before the swap of `w` (`swapped`: it has taken place), or find the row not active or its
   * token expired; up to the first one that does not, or the end of `i`.
   */
  ghost function VainPolls(s: State, events: seq<Event>, i: nat, w: nat, swapped: bool): nat
    decreases |events|
  {
    if events == [] || Step(s, events[0]).None? || events[0] == Crash(i) then 0
    else
      var t, rest := Step(s, events[0]).value, events[1..];
      if events[0] != Poll(i) then VainPolls(t, rest, i, w, swapped || events[0] == Swap(w))
      else if swapped && s.status.Active? && Lasts(s.stored.material, s.clock) then 0
      else 1 + VainPolls(t, rest, i, w, swapped)
  }

  /** A refusal under way: while the winner has not swapped, the row still holds the envelope the isolate started from. */
  ghost predicate Waiting(s: State, i: nat, w: nat, swapped: bool) {
    Safe(s) && At(s, i).Refused? && (if swapped then s.stored != At(s, i).env else Winner(s, w) && s.stored == At(s, i).env)
  }

  lemma WaitingStep(s: State, e: Event, i: nat, w: nat, swapped: bool)
    requires Waiting(s, i, w, swapped) && Step(s, e).Some? && !Harm(s, e) && e != Poll(i) && e != Crash(i)
    ensures At(Step(s, e).value, i) == At(s, i)
    ensures Waiting(Step(s, e).value, i, w, swapped || e == Swap(w))
  {
    hide Wf, Safe;
    SafeStep(s, e);
    WfOfSafe(s);
    InWf(s, i);
    assert !swapped ==> !NobodyIssued(s) by {
      if !swapped {
        assert s.isolates[w].Issued?;
      }
    }
  }

  lemma WfOfSafe(s: State)
    requires Safe(s)
    ensures Wf(s)
  {
  }

  lemma PollStep(s: State, i: nat, w: nat, swapped: bool)
    requires Waiting(s, i, w, swapped)
    ensures Step(s, Poll(i)).Some? && !Harm(s, Poll(i))
    ensures var t := Step(s, Poll(i)).value;
      if swapped && s.status.Active? && Lasts(s.stored.material, s.clock) then At(t, i).Has?
      else if At(s, i).polls + 1 >= POLLS then At(t, i).Breaking?
      else At(t, i) == Refused(At(s, i).env, At(s, i).polls + 1) && Waiting(t, i, w, swapped)
  {
    hide Wf, Safe;
    SafeStep(s, Poll(i));
  }

  /**
   * Over every harm-free run: a refused isolate declares the connection broken exactly when it polls in vain as often as
   * it may, that is, before the winner has stored the new pair, or in a row that is not active or holds an expired token.
   */
  lemma {:induction false} GivesUpExactly(s: State, events: seq<Event>, i: nat, w: nat, swapped: bool)
    requires Waiting(s, i, w, swapped) && At(s, i).polls < POLLS && After(s, events).Some? && !AnyHarm(s, events)
    ensures GivesUp(s, events, i) <==> At(s, i).polls + VainPolls(s, events, i, w, swapped) >= POLLS
    decreases |events|
  {
    assert At(s, i).Refused?;
    hide Waiting, Harm, Expired, Lasts;
    if events != [] {
      var e, rest := events[0], events[1..];
      var t := Step(s, e).value;
      if e == Crash(i) {
        assert At(t, i).Idle?;
      } else if e == Poll(i) {
        PollStep(s, i, w, swapped);
        if At(t, i).Refused? {
          GivesUpExactly(t, rest, i, w, swapped);
        }
      } else {
        WaitingStep(s, e, i, w, swapped);
        GivesUpExactly(t, rest, i, w, swapped || e == Swap(w));
      }
    }
  }

  /** The polls of `i` before the first swap of `w` and before its own end. */
  function PollsBefore(events: seq<Event>, i: nat, w: nat): nat
    decreases |events|
  {
    if events == [] || events[0] == Swap(w) || events[0] == Crash(i) then 0
    else (if events[0] == Poll(i) then 1 else 0) + PollsBefore(events[1..], i, w)
  }

  /** Whenever `i` polls and finds another envelope, the row is active and its token unexpired. */
  ghost predicate Healthy(s: State, events: seq<Event>, i: nat)
    decreases |events|
  {
    events == [] || Step(s, events[0]).None?
    || ((events[0] == Poll(i) && At(s, i).Refused? && s.stored != At(s, i).env ==>
           s.status.Active? && Lasts(s.stored.material, s.clock))
        && Healthy(Step(s, events[0]).value, events[1..], i))
  }

  lemma {:induction false} VainPollsIfHealthy(s: State, events: seq<Event>, i: nat, w: nat, swapped: bool)
    requires Waiting(s, i, w, swapped) && At(s, i).polls < POLLS
    requires After(s, events).Some? && !AnyHarm(s, events) && Healthy(s, events, i)
    ensures var before := if swapped then 0 else PollsBefore(events, i, w);
      VainPolls(s, events, i, w, swapped) == before
      || (At(s, i).polls + VainPolls(s, events, i, w, swapped) >= POLLS && At(s, i).polls + before >= POLLS)
    decreases |events|
  {
    assert At(s, i).Refused? && (swapped <==> s.stored != At(s, i).env);
    hide Waiting, Harm, Expired, Lasts;
    if events != [] && events[0] != Crash(i) {
      var e, rest := events[0], events[1..];
      var t := Step(s, e).value;
      if e == Poll(i) {
        PollStep(s, i, w, swapped);
        if At(t, i).Refused? {
          VainPollsIfHealthy(t, rest, i, w, swapped);
        }
      } else {
        WaitingStep(s, e, i, w, swapped);
        VainPollsIfHealthy(t, rest, i, w, swapped || e == Swap(w));
      }
    }
  }

  /**
   * In a harm-free run whose row is active and whose new token is unexpired, a refused isolate declares the connection
   * broken if and only if all three of its polls come before the winner's swap.
   */
  lemma RefusedBreaksExactly(s: State, events: seq<Event>, i: nat, w: nat)
    requires Safe(s) && Winner(s, w) && At(s, i) == Refused(s.stored, 0)
    requires After(s, events).Some? && !AnyHarm(s, events) && Healthy(s, events, i)
    ensures GivesUp(s, events, i) <==> PollsBefore(events, i, w) >= POLLS
  {
    hide GivesUp, VainPolls, PollsBefore, AnyHarm, Healthy, Safe, Winner, After;
    GivesUpExactly(s, events, i, w, false);
    VainPollsIfHealthy(s, events, i, w, false);
  }

  // ----- when the row ends up broken -----

  predicate Breaks(events: seq<Event>) {
    exists n :: 0 <= n < |events| && events[n].Break?
  }

  lemma {:induction false} StatusAfter(s: State, events: seq<Event>)
    requires After(s, events).Some?
    ensures After(s, events).value.status == if s.status.Active? && Breaks(events) then Broken else s.status
    decreases |events|
  {
    assert events == [] ==> !Breaks(events);
    hide Breaks;
    if events != [] {
      var t := Step(s, events[0]).value;
      StatusAfter(t, events[1..]);
      BreaksCons(events);
    }
  }

  lemma BreaksCons(events: seq<Event>)
    requires events != []
    ensures Breaks(events) <==> events[0].Break? || Breaks(events[1..])
  {
    if Breaks(events[1..]) {
      var n :| 0 <= n < |events[1..]| && events[1..][n].Break?;
      assert events[n + 1].Break?;
    }
    if Breaks(events) && !events[0].Break? {
      var n :| 0 <= n < |events| && events[n].Break?;
      assert events[1..][n - 1].Break?;
    }
  }

  /**
   * A harm-free run leaves the live token in a broken row exactly when some isolate broke the connection and whoever was
   * given the new pair has stored it.
   */
  lemma BrokenWithLiveTokenExactly(s: State, events: seq<Event>)
    requires Safe(s) && s.status.Active? && After(s, events).Some? && !AnyHarm(s, events)
    ensures var t := After(s, events).value;
      t.status.Broken? && t.stored.material.refresh == t.live <==> Breaks(events) && NobodyIssued(t)
  {
    hide Breaks, AnyHarm, Wf, After;
    GrantSurvivesExactly(s, events);
    StatusAfter(s, events);
    var t := After(s, events).value;
    if w: nat :| Winner(t, w) {
      assert t.isolates[w].Issued?;
    }
  }

  /** Whoever is about to break the connection was refused in this run, and gave up. */
  ghost predicate RefusedAndGaveUp(s: State, events: seq<Event>, i: nat, n: nat) {
    n < |events| && events[n].Redeem? && events[n].i == i && After(s, events[..n + 1]).Some?
    && (var t := After(s, events[..n + 1]).value; At(t, i).Refused? && At(t, i).polls == 0 && GivesUp(t, events[n + 1..], i))
  }

  lemma {:induction false} BreakWasGivenUp(s: State, events: seq<Event>, i: nat)
    requires After(s, events).Some? && At(After(s, events).value, i).Breaking?
    ensures GivesUp(s, events, i) || exists n :: RefusedAndGaveUp(s, events, i, n)
    decreases |events|
  {
    hide RefusedAndGaveUp, Expired;
    if events != [] && !At(s, i).Breaking? {
      var t, rest := Step(s, events[0]).value, events[1..];
      BreakWasGivenUp(t, rest, i);
      if n :| RefusedAndGaveUp(t, rest, i, n) {
        GaveUpLater(s, events, i, n);
      } else if !At(s, i).Refused? {
        GaveUpNow(s, events, i);
      }
    }
  }

  lemma GaveUpLater(s: State, events: seq<Event>, i: nat, n: nat)
    requires events != [] && Step(s, events[0]).Some? && RefusedAndGaveUp(Step(s, events[0]).value, events[1..], i, n)
    ensures RefusedAndGaveUp(s, events, i, n + 1)
  {
    hide Step, GivesUp;
    assert events[..n + 2][1..] == events[1..][..n + 1] && events[..n + 2][0] == events[0];
    assert events[1..][n + 1..] == events[n + 2..];
  }

  lemma GaveUpNow(s: State, events: seq<Event>, i: nat)
    requires events != [] && Step(s, events[0]).Some? && !At(s, i).Refused? && !At(s, i).Breaking?
    requires GivesUp(Step(s, events[0]).value, events[1..], i)
    ensures RefusedAndGaveUp(s, events, i, 0)
  {
    hide Expired;
    var t := Step(s, events[0]).value;
    assert At(t, i).Refused? || At(t, i).Breaking?;
    assert events[..1] == [events[0]] && [events[0]][1..] == [];
    assert After(t, []) == Some(t);
    assert After(s, events[..1]) == Some(t);
  }

  /**
   * A winner slower than the loser's three polls: the loser declares the connection broken, and the winner's swap, which
   * leaves the status alone, then stores a live, unexpired token in a broken row.
   */
  lemma SlowWinnerLeavesBrokenRow(s: State, w: nat, i: nat)
    requires Safe(s) && Winner(s, w) && i < |s.isolates| && s.isolates[i] == Refused(s.stored, 0) && s.status.Active?
    requires Lasts(s.isolates[w].pair, s.clock)
    ensures var t := After(s, [Poll(i), Poll(i), Poll(i), Break(i), Swap(w)]);
      t.Some? && t.value.status.Broken? && t.value.stored.material.refresh == t.value.live
      && Lasts(t.value.stored.material, t.value.clock) && NobodyIssued(t.value)
  {
    var s1, s2 := Put(s, i, Refused(s.stored, 1)), Put(s, i, Refused(s.stored, 2));
    var s3, s4 := Put(s, i, Breaking(s.stored)), Put(s.(status := Broken), i, Idle);
    hide Step, Safe, Winner;
    PollsInVain(s, i, 0);
    assert s == Put(s, i, Refused(s.stored, 0));
    PollsInVain(s, i, 1);
    PollsInVain(s, i, 2);
    BreaksTheRow(s, i);
    OtherIsolate(s, w, i);
    AfterFive(s, s1, s2, s3, s4, Poll(i), Poll(i), Poll(i), Break(i), Swap(w));
    StoresUnderBroken(s, s4, w, i);
  }

  lemma OtherIsolate(s: State, w: nat, i: nat)
    requires Winner(s, w) && i < |s.isolates| && s.isolates[i].Refused?
    ensures i != w
  {
  }

  /** A poll while the stored envelope is the one the isolate started from. */
  lemma PollsInVain(s: State, i: nat, polls: nat)
    requires i < |s.isolates|
    ensures Step(Put(s, i, Refused(s.stored, polls)), Poll(i))
      == Some(Put(s, i, if polls + 1 >= POLLS then Breaking(s.stored) else Refused(s.stored, polls + 1)))
  {
    PutAgain(s, i, Refused(s.stored, polls), if polls + 1 >= POLLS then Breaking(s.stored) else Refused(s.stored, polls + 1));
  }

  lemma BreaksTheRow(s: State, i: nat)
    requires i < |s.isolates| && s.status.Active?
    ensures Step(Put(s, i, Breaking(s.stored)), Break(i)) == Some(Put(s.(status := Broken), i, Idle))
  {
    PutAgain(s, i, Breaking(s.stored), Idle);
  }

  lemma StoresUnderBroken(s: State, s4: State, w: nat, i: nat)
    requires Safe(s) && Winner(s, w) && i < |s.isolates| && i != w && s4 == Put(s.(status := Broken), i, Idle)
    ensures Step(s4, Swap(w)).Some?
    ensures var t := Step(s4, Swap(w)).value;
      && t.status.Broken? && t.stored.material == s.isolates[w].pair && s.isolates[w].pair.refresh == s.live
      && t.live == s.live && t.clock == s.clock && NobodyIssued(t)
  {
  }

  lemma PutAgain(s: State, i: nat, a: Phase, b: Phase)
    ensures Put(Put(s, i, a), i, b) == Put(s, i, b)
  {
    if i < |s.isolates| {
      assert s.isolates[i := a][i := b] == s.isolates[i := b];
    }
  }

  lemma AfterFive(s: State, s1: State, s2: State, s3: State, s4: State, a: Event, b: Event, c: Event, d: Event, e: Event)
    requires Step(s, a) == Some(s1) && Step(s1, b) == Some(s2) && Step(s2, c) == Some(s3) && Step(s3, d) == Some(s4) && Step(s4, e).Some?
    ensures After(s, [a, b, c, d, e]) == Step(s4, e)
  {
    hide Step;
    assert [a, b, c, d, e][1..] == [b, c, d, e] && [b, c, d, e][1..] == [c, d, e] && [c, d, e][1..] == [d, e] && [d, e][1..] == [e];
    assert [e][1..] == [];
    assert After(Step(s4, e).value, []) == Step(s4, e);
    assert After(s4, [e]) == Step(s4, e);
    assert After(s3, [d, e]) == After(s4, [e]);
    assert After(s2, [c, d, e]) == After(s3, [d, e]);
  }
}
