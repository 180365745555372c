/**
 * What happens to OAuth grants when workspaces are erased: revoke, or keep a tombstone, before the connection row goes,
 * and retry tombstones from the cron. Any number of erasures and cron runs interleave; each event is one statement or
 * one call, and every process can end between any two.
 */
module Erasure {
  import opened Wrappers

  const DAY := 86400
  const MAX_TOMBSTONE_AGE_DAYS := 30

  datatype Row = Row(ws: nat, oauth: bool, grant: nat)

  datatype Tombstone = Tombstone(grant: nat, createdAt: int)

  datatype Abandoned = Abandoned(grant: nat, keptAt: int, at: int)

  /** Where an erasure stands with connection `todo[i]`. */
  datatype Erasing =
    | Listing
    | Next(i: nat)
    | Unconfirmed(i: nat, row: Row)
    | Droppable(i: nat, row: Row)
    | Ended

  datatype Eraser = Eraser(ws: nat, todo: seq<nat>, phase: Erasing)

  /** Where a cron run stands with tombstone `todo[i]`, as it read it. */
  datatype Retrying = Ready(i: nat) | Settled(i: nat) | Aged(i: nat) | Stopped

  datatype Cron = Cron(now: int, todo: seq<(nat, Tombstone)>, phase: Retrying)

  /** `accepted` are the grants of which Cloudflare accepted a revocation, `refreshGone` those of which it was the refresh token's. */
  datatype State = State(clock: int, rows: map<nat, Row>, nextRow: nat, tombs: map<nat, Tombstone>, nextTomb: nat,
                         accepted: set<nat>, refreshGone: set<nat>, abandoned: set<Abandoned>, erasers: seq<Eraser>, crons: seq<Cron>)

  /** A revocation call: confirmed, refused or unreachable, or accepted with the answer lost. */
  datatype Reply = Confirmed | NotAccepted | Unheard

  /** The calls for the refresh token, if there is one, and for the access token. */
  datatype Replies = Replies(refresh: Option<Reply>, access: Reply)

  predicate TakesRefresh(r: Replies) {
    r.refresh.Some? && !r.refresh.value.NotAccepted?
  }

  predicate TakesAny(r: Replies) {
    TakesRefresh(r) || !r.access.NotAccepted?
  }

  /** One of the two is enough. */
  predicate Confirms(r: Replies) {
    r.refresh == Some(Confirmed) || r.access.Confirmed?
  }

  datatype Event =
    | Tick(seconds: nat)
    | Connect(ws: nat, oauth: bool, grant: nat)
    | Erase(ws: nat)
    | List(e: nat, todo: seq<nat>)
    | Skip(e: nat)
    | Revoke(e: nat, replies: Replies)
    | Keep(e: nat, heard: bool)
    | Drop(e: nat, heard: bool)
    | Purge(e: nat)
    | FailErase(e: nat)
    | StartCron(now: int, batch: seq<(nat, Tombstone)>)
    | Retry(c: nat, replies: Replies)
    | Forget(c: nat)
    | Abandon(c: nat)
    | FailCron(c: nat)

  function SetEraser(s: State, e: nat, phase: Erasing): State
    requires e < |s.erasers|
  {
    s.(erasers := s.erasers[e := s.erasers[e].(phase := phase)])
  }

  function SetCron(s: State, c: nat, phase: Retrying): State
    requires c < |s.crons|
  {
    s.(crons := s.crons[c := s.crons[c].(phase := phase)])
  }

  predicate At(s: State, e: nat) {
    e < |s.erasers| && s.erasers[e].phase.Next? && s.erasers[e].phase.i < |s.erasers[e].todo|
  }

  predicate CronAt(s: State, c: nat) {
    c < |s.crons| && (s.crons[c].phase.Ready? || s.crons[c].phase.Settled? || s.crons[c].phase.Aged?) && s.crons[c].phase.i < |s.crons[c].todo|
  }

  function Without<V>(m: map<nat, V>, id: nat): map<nat, V> {
    map k | k in m && k != id :: m[k]
  }

  function NotOf(rows: map<nat, Row>, ws: nat): map<nat, Row> {
    map k | k in rows && rows[k].ws != ws :: rows[k]
  }

  ghost predicate IsListOf(rows: map<nat, Row>, ws: nat, todo: seq<nat>) {
    forall id :: (id in rows && rows[id].ws == ws) <==> id in todo
  }

  predicate Old(now: int, t: Tombstone) {
    t.createdAt < now - MAX_TOMBSTONE_AGE_DAYS * DAY
  }

  function Accept(s: State, grant: nat, r: Replies): State {
    s.(accepted := if TakesAny(r) then s.accepted + {grant} else s.accepted,
       refreshGone := if TakesRefresh(r) then s.refreshGone + {grant} else s.refreshGone)
  }

  /** The machine. None: the event cannot happen here. */
  ghost function Step(s: State, e: Event): Option<State> {
    match e
    case Tick(seconds) => Some(s.(clock := s.clock + seconds))
    case Connect(ws, oauth, grant) => Some(s.(rows := s.rows[s.nextRow := Row(ws, oauth, grant)], nextRow := s.nextRow + 1))
    case Erase(ws) => Some(s.(erasers := s.erasers + [Eraser(ws, [], Listing)]))
    case List(e, todo) =>
      if e < |s.erasers| && s.erasers[e].phase.Listing? && IsListOf(s.rows, s.erasers[e].ws, todo) then
        Some(s.(erasers := s.erasers[e := s.erasers[e].(todo := todo, phase := Next(0))]))
      else None
    // The row is gone by the time it is read.
    case Skip(e) =>
      if At(s, e) && s.erasers[e].todo[s.erasers[e].phase.i] !in s.rows then Some(SetEraser(s, e, Next(s.erasers[e].phase.i + 1))) else None
    case Revoke(e, replies) =>
      if !At(s, e) || s.erasers[e].todo[s.erasers[e].phase.i] !in s.rows then None
      else
        var i := s.erasers[e].phase.i;
        var row := s.rows[s.erasers[e].todo[i]];
        if !row.oauth then Some(SetEraser(s, e, Droppable(i, row)))
        else Some(SetEraser(Accept(s, row.grant, replies), e, if Confirms(replies) then Droppable(i, row) else Unconfirmed(i, row)))
    case Keep(e, heard) =>
      if e < |s.erasers| && s.erasers[e].phase.Unconfirmed? then
        var t := s.(tombs := s.tombs[s.nextTomb := Tombstone(s.erasers[e].phase.row.grant, s.clock)], nextTomb := s.nextTomb + 1);
        Some(SetEraser(t, e, if heard then Droppable(s.erasers[e].phase.i, s.erasers[e].phase.row) else Ended))
      else None
    case Drop(e, heard) =>
      if e < |s.erasers| && s.erasers[e].phase.Droppable? && s.erasers[e].phase.i < |s.erasers[e].todo| then
        var i := s.erasers[e].phase.i;
        Some(SetEraser(s.(rows := Without(s.rows, s.erasers[e].todo[i])), e, if heard then Next(i + 1) else Ended))
      else None
    case Purge(e) =>
      if e < |s.erasers| && s.erasers[e].phase.Next? && s.erasers[e].phase.i >= |s.erasers[e].todo| then
        Some(SetEraser(s.(rows := NotOf(s.rows, s.erasers[e].ws)), e, Ended))
      else None
    case FailErase(e) => if e < |s.erasers| then Some(SetEraser(s, e, Ended)) else None
    case StartCron(now, batch) =>
      if now <= s.clock && forall i :: 0 <= i < |batch| ==> batch[i].0 in s.tombs && s.tombs[batch[i].0] == batch[i].1 then
        Some(s.(crons := s.crons + [Cron(now, batch, Ready(0))]))
      else None
    case Retry(c, replies) =>
      if !CronAt(s, c) || !s.crons[c].phase.Ready? then None
      else
        var i := s.crons[c].phase.i;
        var t := s.crons[c].todo[i].1;
        if Old(s.crons[c].now, t) then Some(SetCron(s, c, Aged(i)))
        else Some(SetCron(Accept(s, t.grant, replies), c, if Confirms(replies) then Settled(i) else Ready(i + 1)))
    case Forget(c) =>
      if CronAt(s, c) && s.crons[c].phase.Settled? then
        Some(SetCron(s.(tombs := Without(s.tombs, s.crons[c].todo[s.crons[c].phase.i].0)), c, Ready(s.crons[c].phase.i + 1)))
      else None
    case Abandon(c) =>
      if CronAt(s, c) && s.crons[c].phase.Aged? then
        var (id, t) := s.crons[c].todo[s.crons[c].phase.i];
        Some(SetCron(s.(tombs := Without(s.tombs, id), abandoned := s.abandoned + {Abandoned(t.grant, t.createdAt, s.clock)}), c, Ready(s.crons[c].phase.i + 1)))
      else None
    case FailCron(c) => if c < |s.crons| then Some(SetCron(s, c, Stopped)) else None
  }

  ghost function After(s: State, events: seq<Event>): Option<State>
    decreases |events|
  {
    if events == [] then Some(s)
    else match Step(s, events[0]) case None => None case Some(t) => After(t, events[1..])
  }

  // ----- no grant goes missing -----

  /** Cloudflare accepted a revocation, a tombstone remains, or it was given up after 30 days. */
  ghost predicate CoveredBy(accepted: set<nat>, tombs: map<nat, Tombstone>, abandoned: set<Abandoned>, grant: nat) {
    grant in accepted || (exists t :: t in tombs && tombs[t].grant == grant)
    || exists a :: a in abandoned && a.grant == grant
  }

  ghost predicate Covered(s: State, grant: nat) {
    CoveredBy(s.accepted, s.tombs, s.abandoned, grant)
  }

  ghost predicate Connected(s: State, grant: nat) {
    exists id :: id in s.rows && s.rows[id].oauth && s.rows[id].grant == grant
  }

  ghost predicate Accounted(s: State, grant: nat) {
    Covered(s, grant) || Connected(s, grant)
  }

  ghost predicate EraserOk(s: State, x: Eraser) {
    (x.phase.Unconfirmed? || x.phase.Droppable? ==>
      x.phase.i < |x.todo| && (x.todo[x.phase.i] in s.rows ==> s.rows[x.todo[x.phase.i]] == x.phase.row))
    && (x.phase.Droppable? && x.phase.row.oauth ==> Covered(s, x.phase.row.grant))
    && (x.phase.Listing? ==> x.todo == [])
    && (!x.phase.Listing? ==> forall j :: 0 <= j < |x.todo| ==> x.todo[j] < s.nextRow)
  }

  ghost predicate CronOk(s: State, x: Cron) {
    x.now <= s.clock
    && (forall i :: 0 <= i < |x.todo| ==> x.todo[i].0 < s.nextTomb && (x.todo[i].0 in s.tombs ==> s.tombs[x.todo[i].0] == x.todo[i].1))
    && (x.phase.Settled? && x.phase.i < |x.todo| ==> x.todo[x.phase.i].1.grant in s.accepted)
    && (x.phase.Aged? && x.phase.i < |x.todo| ==> Old(x.now, x.todo[x.phase.i].1))
  }

  ghost predicate Inv(s: State) {
    (forall id :: id in s.rows ==> id < s.nextRow)
    && (forall id :: id in s.tombs ==> id < s.nextTomb)
    && (forall e :: 0 <= e < |s.erasers| ==> EraserOk(s, s.erasers[e]))
    && (forall c :: 0 <= c < |s.crons| ==> CronOk(s, s.crons[c]))
    && forall a :: a in s.abandoned ==> a.at - a.keptAt > MAX_TOMBSTONE_AGE_DAYS * DAY
  }

  /** The one thing that can lose a grant: the purge takes a connection row with it. */
  ghost predicate PurgesRow(s: State, e: Event) {
    e.Purge? && e.e < |s.erasers| && exists id :: id in s.rows && s.rows[id].ws == s.erasers[e.e].ws
  }

  // ----- one event -----

  lemma CoveredStep(s: State, e: Event, grant: nat)
    requires Inv(s) && Step(s, e).Some? && Covered(s, grant)
    ensures Covered(Step(s, e).value, grant)
  {
    var t := Step(s, e).value;
    if e.Forget? || e.Abandon? {
      var cron := s.crons[e.c];
      assert CronOk(s, cron);
      var (id, tomb) := cron.todo[cron.phase.i];
      if x :| x in s.tombs && s.tombs[x].grant == grant {
        if x != id {
          assert x in t.tombs;
        } else if e.Abandon? {
          assert Abandoned(grant, tomb.createdAt, s.clock) in t.abandoned;
        }
      }
    } else if e.Keep? {
      if x :| x in s.tombs && s.tombs[x].grant == grant {
        assert x in t.tombs;
      }
    }
  }

  lemma AccountedStep(s: State, e: Event, grant: nat)
    requires Inv(s) && Step(s, e).Some? && !PurgesRow(s, e) && Accounted(s, grant)
    ensures Accounted(Step(s, e).value, grant)
  {
    hide Covered, Inv;
    var t := Step(s, e).value;
    if Covered(s, grant) {
      CoveredStep(s, e, grant);
    } else {
      var id :| id in s.rows && s.rows[id].oauth && s.rows[id].grant == grant;
      if id !in t.rows {
        DroppedIsCovered(s, e, id);
        CoveredStep(s, e, grant);
      } else {
        KeptRow(s, e, id);
        assert Connected(t, grant);
      }
    }
  }

  /** An erasure drops only rows whose grant is covered. */
  lemma DroppedIsCovered(s: State, e: Event, id: nat)
    requires Inv(s) && Step(s, e).Some? && !PurgesRow(s, e) && id in s.rows && id !in Step(s, e).value.rows && s.rows[id].oauth
    ensures Covered(s, s.rows[id].grant)
  {
    hide Covered;
    if e.Drop? {
      assert EraserOk(s, s.erasers[e.e]);
    }
  }

  lemma KeptRow(s: State, e: Event, id: nat)
    requires Inv(s) && Step(s, e).Some? && id in s.rows && id in Step(s, e).value.rows
    ensures Step(s, e).value.rows[id] == s.rows[id]
  {
    hide Covered;
  }

  /** How tables may change under the processes that do not act. */
  ghost predicate Moved(s: State, t: State) {
    t.clock >= s.clock && t.nextRow >= s.nextRow && t.nextTomb >= s.nextTomb && s.accepted <= t.accepted
    && (forall id :: id in t.rows ==> (id in s.rows && t.rows[id] == s.rows[id]) || (s.nextRow <= id < t.nextRow))
    && (forall id :: id in t.tombs ==> (id in s.tombs && t.tombs[id] == s.tombs[id]) || (s.nextTomb <= id < t.nextTomb))
    && (forall g :: Covered(s, g) ==> Covered(t, g))
  }

  lemma MovesTables(s: State, e: Event)
    requires Inv(s) && Step(s, e).Some?
    ensures Moved(s, Step(s, e).value)
  {
    hide Covered;
    forall g | Covered(s, g) ensures Covered(Step(s, e).value, g) {
      CoveredStep(s, e, g);
    }
  }

  lemma EraserFrame(s: State, t: State, x: Eraser)
    requires Moved(s, t) && EraserOk(s, x)
    ensures EraserOk(t, x)
  {
    hide Covered;
  }

  lemma CronFrame(s: State, t: State, x: Cron)
    requires Moved(s, t) && CronOk(s, x)
    ensures CronOk(t, x)
  {
    hide Covered;
  }

  predicate MovesEraser(e: Event) {
    e.List? || e.Skip? || e.Revoke? || e.Keep? || e.Drop? || e.Purge? || e.FailErase?
  }

  lemma RevokeOk(s: State, e: Event)
    requires Inv(s) && Step(s, e).Some? && e.Revoke?
    ensures EraserOk(Step(s, e).value, Step(s, e).value.erasers[e.e])
  {
    hide Covered;
    assert EraserOk(s, s.erasers[e.e]);
    var row := s.rows[s.erasers[e.e].todo[s.erasers[e.e].phase.i]];
    if row.oauth && Confirms(e.replies) {
      AcceptedCovers(Step(s, e).value, row.grant);
    }
  }

  lemma KeepOk(s: State, e: Event)
    requires Inv(s) && Step(s, e).Some? && e.Keep?
    ensures EraserOk(Step(s, e).value, Step(s, e).value.erasers[e.e])
  {
    hide Covered;
    assert EraserOk(s, s.erasers[e.e]);
    TombCovers(Step(s, e).value, s.nextTomb);
  }

  /** The eraser that acts, as it is afterwards, against the tables as they are afterwards. */
  lemma ActingEraserOk(s: State, e: Event)
    requires Inv(s) && Step(s, e).Some? && MovesEraser(e)
    ensures EraserOk(Step(s, e).value, Step(s, e).value.erasers[e.e])
  {
    hide Covered, IsListOf;
    if e.Revoke? {
      hide Step, EraserOk;
      RevokeOk(s, e);
    } else if e.Keep? {
      hide Step, EraserOk;
      KeepOk(s, e);
    } else {
      assert EraserOk(s, s.erasers[e.e]);
      if e.List? {
        ListedIds(s, s.erasers[e.e].ws, e.todo);
      }
    }
  }

  lemma ListedIds(s: State, ws: nat, todo: seq<nat>)
    requires Inv(s) && IsListOf(s.rows, ws, todo)
    ensures forall j :: 0 <= j < |todo| ==> todo[j] < s.nextRow
  {
    assert forall j :: 0 <= j < |todo| ==> todo[j] in todo && todo[j] in s.rows;
  }

  lemma ActingEraser(s: State, e: Event)
    requires Inv(s) && Step(s, e).Some? && MovesEraser(e)
    ensures var t := Step(s, e).value;
      e.e < |s.erasers| && t.erasers == s.erasers[e.e := t.erasers[e.e]] && t.crons == s.crons && EraserOk(t, t.erasers[e.e])
  {
    hide Covered, EraserOk, IsListOf, Inv;
    MovesTables(s, e);
    ActingEraserOk(s, e);
  }

  lemma AcceptedCovers(s: State, grant: nat)
    requires grant in s.accepted
    ensures Covered(s, grant)
  {
  }

  lemma TombCovers(s: State, id: nat)
    requires id in s.tombs
    ensures Covered(s, s.tombs[id].grant)
  {
  }

  predicate MovesCron(e: Event) {
    e.Retry? || e.Forget? || e.Abandon? || e.FailCron?
  }

  lemma ActingCron(s: State, e: Event)
    requires Inv(s) && Step(s, e).Some? && MovesCron(e)
    ensures var t := Step(s, e).value;
      e.c < |s.crons| && t.crons == s.crons[e.c := t.crons[e.c]] && t.erasers == s.erasers && CronOk(t, t.crons[e.c])
  {
    hide Covered;
    MovesTables(s, e);
    assert CronOk(s, s.crons[e.c]);
  }

  lemma TablesStep(s: State, e: Event)
    requires Inv(s) && Step(s, e).Some?
    ensures var t := Step(s, e).value;
      && (forall id :: id in t.rows ==> id < t.nextRow) && (forall id :: id in t.tombs ==> id < t.nextTomb)
      && forall a :: a in t.abandoned ==> a.at - a.keptAt > MAX_TOMBSTONE_AGE_DAYS * DAY
  {
    hide Covered;
    if e.Abandon? {
      assert CronOk(s, s.crons[e.c]);
    }
  }

  lemma InvStep(s: State, e: Event)
    requires Inv(s) && Step(s, e).Some?
    ensures Inv(Step(s, e).value)
  {
    hide Covered, EraserOk, CronOk, Moved;
    var t := Step(s, e).value;
    MovesTables(s, e);
    TablesStep(s, e);
    forall x | 0 <= x < |s.erasers| ensures EraserOk(t, s.erasers[x]) {
      EraserFrame(s, t, s.erasers[x]);
    }
    forall x | 0 <= x < |s.crons| ensures CronOk(t, s.crons[x]) {
      CronFrame(s, t, s.crons[x]);
    }
    if MovesEraser(e) {
      ActingEraser(s, e);
    } else if MovesCron(e) {
      ActingCron(s, e);
    } else {
      NewProcess(s, e);
    }
  }

  lemma NewProcess(s: State, e: Event)
    requires Inv(s) && Step(s, e).Some? && !MovesEraser(e) && !MovesCron(e)
    ensures var t := Step(s, e).value;
      && |s.erasers| <= |t.erasers| && t.erasers[..|s.erasers|] == s.erasers && |s.crons| <= |t.crons| && t.crons[..|s.crons|] == s.crons
      && (forall x :: |s.erasers| <= x < |t.erasers| ==> EraserOk(t, t.erasers[x]))
      && forall x :: |s.crons| <= x < |t.crons| ==> CronOk(t, t.crons[x])
  {
    hide Covered;
  }

  // ----- over whole runs -----

  /** Before any erasure or cron run: every OAuth grant is accounted for by its row. */
  lemma StartIsAccounted(s: State, id: nat)
    requires s.erasers == [] && s.crons == [] && s.tombs == map[] && s.abandoned == {} && (forall k :: k in s.rows ==> k < s.nextRow)
    ensures Inv(s) && Ahead(s) && (id in s.rows && s.rows[id].oauth ==> Accounted(s, s.rows[id].grant))
  {
    hide Covered;
    assert id in s.rows && s.rows[id].oauth ==> Connected(s, s.rows[id].grant);
  }

  ghost predicate PurgesAnyRow(s: State, events: seq<Event>)
    decreases |events|
  {
    events != [] && (PurgesRow(s, events[0]) || (Step(s, events[0]).Some? && PurgesAnyRow(Step(s, events[0]).value, events[1..])))
  }

  /**
   * Every OAuth grant that was connected, or accounted for, stays so through any interleaving of erasures and cron runs
   * with failures anywhere: its revocation was accepted, or its connection row, or a tombstone, is still there, or it
   * was abandoned more than 30 days after it was tombstoned. The one exception is a purge that meets a connection row.
   */
  lemma {:induction false} NoGrantGoesMissing(s: State, events: seq<Event>, grant: nat)
    requires Inv(s) && Accounted(s, grant) && After(s, events).Some? && !PurgesAnyRow(s, events)
    ensures Accounted(After(s, events).value, grant)
    ensures forall a :: a in After(s, events).value.abandoned ==> a.at - a.keptAt > MAX_TOMBSTONE_AGE_DAYS * DAY
    decreases |events|
  {
    hide Step, Accounted, PurgesRow;
    if events != [] {
      InvStep(s, events[0]);
      AccountedStep(s, events[0], grant);
      NoGrantGoesMissing(Step(s, events[0]).value, events[1..], grant);
    }
  }

  /** A row of another workspace holds the grant. */
  ghost predicate HeldElsewhere(s: State, ws: nat, grant: nat) {
    exists id :: id in s.rows && s.rows[id].ws != ws && s.rows[id].oauth && s.rows[id].grant == grant
  }

  /** A purge keeps exactly the grants that are covered already or held by a row of another workspace. */
  lemma PurgeKeepsExactly(s: State, e: Event, grant: nat)
    requires Step(s, e).Some? && e.Purge?
    ensures Accounted(Step(s, e).value, grant) <==> Covered(s, grant) || HeldElsewhere(s, s.erasers[e.e].ws, grant)
  {
    var t := Step(s, e).value;
    assert Covered(t, grant) == Covered(s, grant);
    if id :| id in s.rows && s.rows[id].ws != s.erasers[e.e].ws && s.rows[id].oauth && s.rows[id].grant == grant {
      assert id in t.rows;
    }
  }

  // ----- what a confirmed revocation leaves -----

  /** No row, no tombstone and no process knows the grant any more. */
  ghost predicate Forgotten(s: State, grant: nat) {
    (forall id :: id in s.rows && s.rows[id].oauth ==> s.rows[id].grant != grant)
    && (forall id :: id in s.tombs ==> s.tombs[id].grant != grant)
    && (forall e :: 0 <= e < |s.erasers| && s.erasers[e].phase.Unconfirmed? ==> s.erasers[e].phase.row.grant != grant)
    && forall c, i :: 0 <= c < |s.crons| && 0 <= i < |s.crons[c].todo| ==> s.crons[c].todo[i].1.grant != grant
  }

  /** Whether `Revoke` counts as done although the refresh token was not revoked: exactly if only the access token was. */
  lemma ConfirmedWithoutRefresh(s: State, e: Event)
    requires Step(s, e).Some? && e.Revoke? && s.rows[s.erasers[e.e].todo[s.erasers[e.e].phase.i]].oauth
    ensures var grant := s.rows[s.erasers[e.e].todo[s.erasers[e.e].phase.i]].grant; var t := Step(s, e).value;
      t.erasers[e.e].phase.Droppable? && grant !in t.refreshGone
      <==> e.replies.access.Confirmed? && !TakesRefresh(e.replies) && grant !in s.refreshGone
  {
  }

  predicate Reconnects(e: Event, grant: nat) {
    e.Connect? && e.oauth && e.grant == grant
  }

  lemma ForgottenTables(s: State, e: Event, grant: nat)
    requires Forgotten(s, grant) && Step(s, e).Some? && !Reconnects(e, grant)
    ensures var t := Step(s, e).value;
      && (forall id :: id in t.rows && t.rows[id].oauth ==> t.rows[id].grant != grant)
      && (forall id :: id in t.tombs ==> t.tombs[id].grant != grant)
      && (grant in t.refreshGone <==> grant in s.refreshGone)
  {
    hide IsListOf, Old, TakesAny, Confirms;
  }

  lemma ForgottenProcesses(s: State, e: Event, grant: nat)
    requires Forgotten(s, grant) && Step(s, e).Some?
    ensures var t := Step(s, e).value;
      && (forall x :: 0 <= x < |t.erasers| && t.erasers[x].phase.Unconfirmed? ==> t.erasers[x].phase.row.grant != grant)
      && forall c, i :: 0 <= c < |t.crons| && 0 <= i < |t.crons[c].todo| ==> t.crons[c].todo[i].1.grant != grant
  {
    hide IsListOf, Old, TakesAny, TakesRefresh, Confirms;
  }

  lemma ForgottenStep(s: State, e: Event, grant: nat)
    requires Forgotten(s, grant) && Step(s, e).Some? && !Reconnects(e, grant)
    ensures Forgotten(Step(s, e).value, grant)
    ensures grant in Step(s, e).value.refreshGone <==> grant in s.refreshGone
  {
    hide Step;
    ForgottenTables(s, e, grant);
    ForgottenProcesses(s, e, grant);
  }

  /** A grant once forgotten keeps its refresh token, if that was not revoked, through every later run. */
  lemma {:induction false} ForgottenForGood(s: State, events: seq<Event>, grant: nat)
    requires Forgotten(s, grant) && After(s, events).Some?
    requires forall n :: 0 <= n < |events| ==> !Reconnects(events[n], grant)
    ensures Forgotten(After(s, events).value, grant)
    ensures grant in After(s, events).value.refreshGone <==> grant in s.refreshGone
    decreases |events|
  {
    hide Forgotten, Step;
    if events != [] {
      ForgottenStep(s, events[0], grant);
      ForgottenForGood(Step(s, events[0]).value, events[1..], grant);
    }
  }

  /** Nothing knows the grant but one row, which the erasure is about to read. */
  ghost predicate OnlyRow(s: State, e: nat, id: nat) {
    At(s, e) && s.erasers[e].todo[s.erasers[e].phase.i] == id && id in s.rows && s.rows[id].oauth
    && s.rows[id].grant !in s.refreshGone && Forgotten(s.(rows := Without(s.rows, id)), s.rows[id].grant)
  }

  /**
   * An erasure whose revocation is confirmed forgets the grant, and its refresh token is then left alive exactly when only
   * the access token's revocation was accepted.
   */
  lemma ForgetsWithoutRefresh(s: State, e: nat, id: nat, replies: Replies)
    requires OnlyRow(s, e, id) && Confirms(replies)
    ensures var t := After(s, [Revoke(e, replies), Drop(e, true)]);
      t.Some? && Forgotten(t.value, s.rows[id].grant) && (s.rows[id].grant !in t.value.refreshGone <==> !TakesRefresh(replies))
  {
    var events := [Revoke(e, replies), Drop(e, true)];
    var i, row := s.erasers[e].phase.i, s.rows[id];
    var s1 := SetEraser(Accept(s, row.grant, replies), e, Droppable(i, row));
    var s2 := SetEraser(s1.(rows := Without(s.rows, id)), e, Next(i + 1));
    assert Step(s, events[0]) == Some(s1) && Step(s1, events[1]) == Some(s2);
    hide Step;
    assert events[1..] == [events[1]] && events[1..][1..] == [];
    assert After(s2, []) == Some(s2);
    assert After(s1, events[1..]) == Some(s2);
  }

  // ----- that the processes get to their end -----

  lemma {:induction false} AfterJoin(s: State, a: seq<Event>, b: seq<Event>)
    requires After(s, a).Some?
    ensures After(s, a + b) == After(After(s, a).value, b)
    decreases |a|
  {
    hide Step;
    if a == [] {
      assert a + b == b;
    } else {
      assert (a + b)[1..] == a[1..] + b;
      AfterJoin(Step(s, a[0]).value, a[1..], b);
    }
  }

  lemma AfterTwo(s: State, a: Event, b: Event)
    requires Step(s, a).Some?
    ensures After(s, [a]) == Step(s, a) && After(s, [a, b]) == Step(Step(s, a).value, b)
  {
    hide Step;
    var two := [a, b];
    assert [a][1..] == [] && two[1..] == [b] && [b][1..] == [];
    assert After(Step(s, a).value, []) == Step(s, a);
    var t := Step(s, a).value;
    assert Step(t, b).Some? ==> After(Step(t, b).value, []) == Step(t, b);
    assert After(t, [b]) == Step(t, b);
  }

  /** Whether a cron run drops this tombstone: it is too old, or a revocation is confirmed. */
  predicate Goes(x: Cron, i: nat, replies: nat -> Replies)
    requires i < |x.todo|
  {
    Old(x.now, x.todo[i].1) || Confirms(replies(i))
  }

  /** One turn of a cron run: the tombstone is gone exactly if it is to go, and the run goes on to the next. */
  lemma CronTurn(s: State, c: nat, replies: nat -> Replies) returns (events: seq<Event>)
    requires CronAt(s, c) && s.crons[c].phase.Ready?
    ensures var x := s.crons[c]; var t := After(s, events);
      && t.Some? && t.value.tombs == (if Goes(x, x.phase.i, replies) then Without(s.tombs, x.todo[x.phase.i].0) else s.tombs)
      && |t.value.crons| == |s.crons| && t.value.crons[c] == x.(phase := Ready(x.phase.i + 1))
  {
    var x := s.crons[c];
    var r := replies(x.phase.i);
    var last := if Old(x.now, x.todo[x.phase.i].1) then Abandon(c) else Forget(c);
    AfterTwo(s, Retry(c, r), last);
    events := [Retry(c, r)] + if Goes(x, x.phase.i, replies) then [last] else [];
    assert events == if Goes(x, x.phase.i, replies) then [Retry(c, r), last] else [Retry(c, r)];
  }

  /** A cron run that nothing disturbs drops exactly the tombstones that are too old or whose revocation is confirmed. */
  lemma {:induction false} CronRunsThrough(s: State, c: nat, replies: nat -> Replies) returns (events: seq<Event>)
    requires c < |s.crons| && s.crons[c].phase.Ready? && s.crons[c].phase.i <= |s.crons[c].todo|
    ensures var x := s.crons[c]; var t := After(s, events);
      && t.Some? && |t.value.crons| == |s.crons| && t.value.crons[c] == x.(phase := Ready(|x.todo|))
      && forall id :: id in t.value.tombs <==>
           id in s.tombs && forall j :: x.phase.i <= j < |x.todo| && x.todo[j].0 == id ==> !Goes(x, j, replies)
    decreases |s.crons[c].todo| - s.crons[c].phase.i
  {
    hide Step, Old, Confirms;
    if s.crons[c].phase.i == |s.crons[c].todo| {
      events := [];
    } else {
      events := CronTurn(s, c, replies);
      var t := After(s, events).value;
      assert forall j :: 0 <= j < |t.crons[c].todo| ==> (Goes(t.crons[c], j, replies) <==> Goes(s.crons[c], j, replies));
      var more := CronRunsThrough(t, c, replies);
      AfterJoin(s, events, more);
      events := events + more;
    }
  }

  /** A cron run starts with its first tombstone. */
  lemma CronStarts(s: State, now: int, batch: seq<(nat, Tombstone)>)
    requires now <= s.clock && forall i :: 0 <= i < |batch| ==> batch[i].0 in s.tombs && s.tombs[batch[i].0] == batch[i].1
    ensures var t := Step(s, StartCron(now, batch));
      t.Some? && |t.value.crons| == |s.crons| + 1 && t.value.crons[|s.crons|] == Cron(now, batch, Ready(0)) && t.value.tombs == s.tombs
  {
  }

  /** An erasure begins with its list, whatever the database answers in what order. */
  lemma EraseStarts(s: State, ws: nat, todo: seq<nat>)
    requires IsListOf(s.rows, ws, todo)
    ensures var t := After(s, [Erase(ws), List(|s.erasers|, todo)]);
      t.Some? && t.value.rows == s.rows && |t.value.erasers| == |s.erasers| + 1 && t.value.erasers[|s.erasers|] == Eraser(ws, todo, Next(0))
  {
    AfterTwo(s, Erase(ws), List(|s.erasers|, todo));
  }

  /** One turn of an erasure whose statements work, whatever Cloudflare answers: the row is gone and its grant covered. */
  lemma EraseTurn(s: State, e: nat, replies: Replies) returns (events: seq<Event>)
    requires At(s, e)
    ensures var i := s.erasers[e].phase.i; var id := s.erasers[e].todo[i]; var t := After(s, events);
      && t.Some? && |t.value.erasers| == |s.erasers| && t.value.erasers[e] == s.erasers[e].(phase := Next(i + 1))
      && (forall k :: k in t.value.rows <==> k in s.rows && k != id) && (forall k :: k in t.value.rows ==> t.value.rows[k] == s.rows[k])
      && (id in s.rows && s.rows[id].oauth ==> Covered(t.value, s.rows[id].grant))
  {
    hide IsListOf, CoveredBy;
    var i := s.erasers[e].phase.i;
    var id := s.erasers[e].todo[i];
    if id !in s.rows {
      events := [Skip(e)];
      AfterTwo(s, Skip(e), Skip(e));
    } else {
      var row := s.rows[id];
      AfterTwo(s, Revoke(e, replies), Drop(e, true));
      var s1 := Step(s, Revoke(e, replies)).value;
      if !row.oauth || Confirms(replies) {
        events := [Revoke(e, replies), Drop(e, true)];
        var t := Step(s1, Drop(e, true)).value;
        if row.oauth {
          AcceptedCovers(t, row.grant);
        }
      } else {
        var s2 := Step(s1, Keep(e, true)).value;
        AfterTwo(s, Revoke(e, replies), Keep(e, true));
        AfterTwo(s2, Drop(e, true), Drop(e, true));
        events := [Revoke(e, replies), Keep(e, true)] + [Drop(e, true)];
        AfterJoin(s, [Revoke(e, replies), Keep(e, true)], [Drop(e, true)]);
        TombCovers(Step(s2, Drop(e, true)).value, s.nextTomb);
      }
    }
  }

  lemma {:induction false} CoveredAfter(s: State, events: seq<Event>, grant: nat)
    requires Inv(s) && After(s, events).Some?
    ensures Inv(After(s, events).value) && (Covered(s, grant) ==> Covered(After(s, events).value, grant))
    decreases |events|
  {
    hide Inv, Step, Covered;
    if events != [] {
      InvStep(s, events[0]);
      if Covered(s, grant) {
        CoveredStep(s, events[0], grant);
      }
      CoveredAfter(Step(s, events[0]).value, events[1..], grant);
    }
  }

  /**
   * An erasure that nothing disturbs runs through to its purge, whatever Cloudflare answers: the connections it listed and
   * everything of the workspace are gone, and every OAuth grant among them is revoked or kept.
   */
  lemma {:induction false} EraseRunsThrough(s: State, e: nat, replies: nat -> Replies) returns (events: seq<Event>)
    requires Inv(s) && e < |s.erasers| && s.erasers[e].phase.Next? && s.erasers[e].phase.i <= |s.erasers[e].todo|
    ensures var x := s.erasers[e]; var t := After(s, events);
      && t.Some? && |t.value.erasers| == |s.erasers| && t.value.erasers[e] == x.(phase := Ended)
      && (forall k :: k in t.value.rows <==> k in s.rows && k !in x.todo[x.phase.i..] && s.rows[k].ws != x.ws)
      && forall k :: k in x.todo[x.phase.i..] && k in s.rows && s.rows[k].oauth ==> Covered(t.value, s.rows[k].grant)
    decreases |s.erasers[e].todo| - s.erasers[e].phase.i
  {
    hide Inv, Covered, Step;
    var x := s.erasers[e];
    var i := x.phase.i;
    if i == |x.todo| {
      events := [Purge(e)];
      PurgeTurn(s, e);
    } else {
      events := EraseTurn(s, e, replies(x.todo[i]));
      var t := After(s, events).value;
      CoveredAfter(s, events, 0);
      var more := EraseRunsThrough(t, e, replies);
      AfterJoin(s, events, more);
      assert x.todo[i..] == [x.todo[i]] + x.todo[i + 1..];
      if x.todo[i] in s.rows && s.rows[x.todo[i]].oauth {
        CoveredAfter(t, more, s.rows[x.todo[i]].grant);
      }
      events := events + more;
    }
  }

  lemma PurgeTurn(s: State, e: nat)
    requires e < |s.erasers| && s.erasers[e].phase == Next(|s.erasers[e].todo|)
    ensures var t := After(s, [Purge(e)]);
      && t.Some? && |t.value.erasers| == |s.erasers| && t.value.erasers[e] == s.erasers[e].(phase := Ended)
      && forall k :: k in t.value.rows <==> k in s.rows && s.rows[k].ws != s.erasers[e].ws
  {
    AfterTwo(s, Purge(e), Purge(e));
  }

  // ----- when a purge meets a row -----

  /** What an erasure still has to deal with. */
  function Remaining(x: Eraser): seq<nat> {
    match x.phase
    case Next(i) => if i <= |x.todo| then x.todo[i..] else []
    case Unconfirmed(i, _) => if i <= |x.todo| then x.todo[i..] else []
    case Droppable(i, _) => if i <= |x.todo| then x.todo[i..] else []
    case _ => []
  }

  predicate Listed(x: Eraser) {
    !x.phase.Listing? && !x.phase.Ended?
  }

  /** Every connection left of the workspace is still ahead of the erasure. */
  ghost predicate AllAhead(s: State, x: Eraser) {
    Listed(x) ==> forall id :: id in s.rows && s.rows[id].ws == x.ws ==> id in Remaining(x)
  }

  ghost predicate Ahead(s: State) {
    forall e :: 0 <= e < |s.erasers| ==> AllAhead(s, s.erasers[e])
  }

  /** A connection added to a workspace between the listing and the purge of its erasure. */
  ghost predicate AddsLate(s: State, e: Event) {
    e.Connect? && exists x :: 0 <= x < |s.erasers| && Listed(s.erasers[x]) && s.erasers[x].ws == e.ws
  }

  lemma RowsOnlyLeave(s: State, e: Event, id: nat)
    requires Step(s, e).Some? && !e.Connect? && id in Step(s, e).value.rows
    ensures id in s.rows && Step(s, e).value.rows[id] == s.rows[id]
  {
  }

  lemma RemainingStays(s: State, e: Event)
    requires Step(s, e).Some? && (e.Revoke? || e.Keep?) && Listed(Step(s, e).value.erasers[e.e])
    ensures Remaining(Step(s, e).value.erasers[e.e]) == Remaining(s.erasers[e.e])
  {
    hide Covered, IsListOf;
  }

  lemma RemainingShrinks(s: State, e: Event)
    requires Step(s, e).Some? && (e.Skip? || e.Drop?) && Listed(Step(s, e).value.erasers[e.e])
    ensures var x := s.erasers[e.e];
      && x.phase.i < |x.todo| && x.todo[x.phase.i] !in Step(s, e).value.rows
      && Remaining(x) == [x.todo[x.phase.i]] + Remaining(Step(s, e).value.erasers[e.e])
  {
    hide Covered, IsListOf;
  }

  /** What is still ahead shrinks only by a connection whose row is gone. */
  lemma RemainingActing(s: State, e: Event)
    requires Step(s, e).Some? && MovesEraser(e) && Listed(s.erasers[e.e]) && Listed(Step(s, e).value.erasers[e.e])
    ensures var t := Step(s, e).value; forall id :: id in Remaining(s.erasers[e.e]) && id in t.rows ==> id in Remaining(t.erasers[e.e])
  {
    hide Covered, IsListOf, Remaining;
    if e.Revoke? || e.Keep? {
      hide Step;
      RemainingStays(s, e);
    } else if e.Skip? || e.Drop? {
      hide Step;
      RemainingShrinks(s, e);
    }
  }

  lemma AheadActing(s: State, e: Event)
    requires Inv(s) && Step(s, e).Some? && MovesEraser(e) && AllAhead(s, s.erasers[e.e])
    ensures AllAhead(Step(s, e).value, Step(s, e).value.erasers[e.e])
  {
    hide Covered, Remaining, EraserOk;
    var t := Step(s, e).value;
    var x, y := s.erasers[e.e], t.erasers[e.e];
    if Listed(x) && Listed(y) {
      hide Step;
      RemainingActing(s, e);
      forall id | id in t.rows && t.rows[id].ws == y.ws ensures id in Remaining(y) {
        RowsOnlyLeave(s, e, id);
        SameWorkspace(s, e);
      }
    } else if Listed(y) {
      assert e.List?;
      RemainingNext(y);
    }
  }

  lemma SameWorkspace(s: State, e: Event)
    requires Step(s, e).Some? && MovesEraser(e)
    ensures Step(s, e).value.erasers[e.e].ws == s.erasers[e.e].ws
  {
  }

  lemma RemainingNext(x: Eraser)
    requires x.phase.Next?
    ensures (x.phase.i == 0 ==> Remaining(x) == x.todo) && (x.phase.i >= |x.todo| ==> Remaining(x) == [])
  {
  }

  lemma AheadStep(s: State, e: Event)
    requires Inv(s) && Ahead(s) && Step(s, e).Some? && !AddsLate(s, e)
    ensures Ahead(Step(s, e).value) && !PurgesRow(s, e)
  {
    hide Inv, Remaining;
    var t := Step(s, e).value;
    if e.Purge? {
      assert AllAhead(s, s.erasers[e.e]);
      RemainingNext(s.erasers[e.e]);
    }
    forall x | 0 <= x < |t.erasers| ensures AllAhead(t, t.erasers[x]) {
      if MovesEraser(e) && x == e.e {
        AheadActing(s, e);
      } else {
        AheadFrame(s, e, x);
      }
    }
  }

  lemma AheadFrame(s: State, e: Event, x: nat)
    requires Ahead(s) && Step(s, e).Some? && !AddsLate(s, e) && x < |Step(s, e).value.erasers| && !(MovesEraser(e) && x == e.e)
    ensures AllAhead(Step(s, e).value, Step(s, e).value.erasers[x])
  {
    hide Covered, Remaining;
    if x < |s.erasers| {
      assert AllAhead(s, s.erasers[x]);
    }
  }

  ghost predicate AddsAnyLate(s: State, events: seq<Event>)
    decreases |events|
  {
    events != [] && (AddsLate(s, events[0]) || (Step(s, events[0]).Some? && AddsAnyLate(Step(s, events[0]).value, events[1..])))
  }

  /** A purge is reached only once no connection row of the workspace is left, if none is added while it is erased. */
  lemma {:induction false} PurgeMeetsNoRow(s: State, events: seq<Event>)
    requires Inv(s) && Ahead(s) && After(s, events).Some? && !AddsAnyLate(s, events)
    ensures !PurgesAnyRow(s, events)
    decreases |events|
  {
    hide Step, Inv, Ahead, AddsLate, PurgesRow;
    if events != [] {
      InvStep(s, events[0]);
      AheadStep(s, events[0]);
      PurgeMeetsNoRow(Step(s, events[0]).value, events[1..]);
    }
  }
}
