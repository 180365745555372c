/** The leads table of the onboarding sequence: its row, its queries (each one atomic), and when a step is due. */
module Leads {
  import opened Wrappers

  datatype Status = Active | Completed | Unsubscribed | Bounced | Replied | Booked | Converted

  /** `step` counts the emails already sent. */
  datatype Lead = Lead(id: nat, email: string, createdAt: int, step: nat, nextSendAt: Option<int>, status: Status, lastSentAt: Option<int>)

  type Rows = map<nat, Lead>

  const DAY := 86400
  const CATCH_UP_SECONDS := DAY - 3600
  const SEQUENCE_DAYS: seq<int> := [1, 3, 6, 10, 14]
  const STEPS := 5

  /** The earliest moment step `index` may go out to a lead created at `createdAt`. */
  function Earliest(createdAt: int, index: nat): int
    requires index < STEPS
  {
    createdAt + SEQUENCE_DAYS[index] * DAY
  }

  function NextDue(createdAt: int, index: nat, now: int): Option<int> {
    if index >= |SEQUENCE_DAYS| then None
    else
      var due := createdAt + SEQUENCE_DAYS[index] * DAY;
      Some(if due > now + CATCH_UP_SECONDS then due else now + CATCH_UP_SECONDS)
  }

  lemma NextDueMeaning(createdAt: int, index: nat, now: int)
    ensures match NextDue(createdAt, index, now)
      case None => index >= STEPS
      case Some(t) => (index < STEPS && t >= Earliest(createdAt, index) && t >= now + CATCH_UP_SECONDS
        && (t == Earliest(createdAt, index) || t == now + CATCH_UP_SECONDS))
  {
  }

  /** The five emails are due 1, 3, 6, 10 and 14 days after enrolment, in seconds. */
  lemma Schedule(createdAt: int)
    ensures Earliest(createdAt, 0) == createdAt + 86400 && Earliest(createdAt, 1) == createdAt + 259200
    ensures Earliest(createdAt, 2) == createdAt + 518400 && Earliest(createdAt, 3) == createdAt + 864000
    ensures Earliest(createdAt, 4) == createdAt + 1209600
  {
  }

  /** Only the last email needs a booking link. */
  predicate NeedsBooking(step: nat) {
    step >= STEPS - 1
  }

  // ----- queries -----

  predicate IsDue(lead: Lead, now: int) {
    lead.status == Active && lead.nextSendAt.Some? && lead.nextSendAt.value <= now
  }

  /** A possible answer of `due`: at most `limit` due rows, each once, the longest waiting ones, oldest first. */
  ghost predicate IsBatch(rows: Rows, now: int, limit: nat, batch: seq<Lead>) {
    |batch| <= limit
    && (forall i :: 0 <= i < |batch| ==> batch[i].id in rows && rows[batch[i].id] == batch[i] && IsDue(batch[i], now))
    && (forall i, j :: 0 <= i < j < |batch| ==> batch[i].id != batch[j].id && batch[i].nextSendAt.value <= batch[j].nextSendAt.value)
    && (forall id :: id in rows && IsDue(rows[id], now) && rows[id] !in batch ==>
      |batch| == limit && forall i :: 0 <= i < |batch| ==> batch[i].nextSendAt.value <= rows[id].nextSendAt.value)
  }

  /** Since when a due lead has been waiting. */
  function Since(lead: Lead): int {
    Or(lead.nextSendAt, 0)
  }

  /** The due rows, the longest waiting first, at most `limit`. */
  method Due(rows: Rows, now: int, limit: nat) returns (batch: seq<Lead>)
    requires forall id :: id in rows ==> rows[id].id == id
    ensures IsBatch(rows, now, limit, batch)
  {
    hide IsDue, Since;
    batch := [];
    var left := set id | id in rows && IsDue(rows[id], now);
    while left != {} && |batch| < limit
      invariant |batch| <= limit && left <= rows.Keys
      invariant forall id :: id in rows && id !in left && IsDue(rows[id], now) ==> rows[id] in batch
      invariant forall id :: id in left ==> IsDue(rows[id], now)
      invariant forall i :: 0 <= i < |batch| ==> batch[i].id in rows && batch[i].id !in left && rows[batch[i].id] == batch[i] && IsDue(batch[i], now)
      invariant forall i, j :: 0 <= i < j < |batch| ==> batch[i].id != batch[j].id && Since(batch[i]) <= Since(batch[j])
      invariant forall i, id :: 0 <= i < |batch| && id in left ==> Since(batch[i]) <= Since(rows[id])
      decreases |left|
    {
      var id := LongestWaiting(rows, left);
      batch := batch + [rows[id]];
      left := left - {id};
    }
    IsBatchSince(rows, now, limit, batch, left);
  }

  lemma IsBatchSince(rows: Rows, now: int, limit: nat, batch: seq<Lead>, left: set<nat>)
    requires |batch| <= limit && left <= rows.Keys && (left == {} || |batch| == limit)
    requires forall id :: id in rows && id !in left && IsDue(rows[id], now) ==> rows[id] in batch
    requires forall i :: 0 <= i < |batch| ==> batch[i].id in rows && rows[batch[i].id] == batch[i] && IsDue(batch[i], now)
    requires forall i, j :: 0 <= i < j < |batch| ==> batch[i].id != batch[j].id && Since(batch[i]) <= Since(batch[j])
    requires forall i, id :: 0 <= i < |batch| && id in left ==> Since(batch[i]) <= Since(rows[id])
    ensures IsBatch(rows, now, limit, batch)
  {
  }

  /** The longest waiting of some rows. */
  method LongestWaiting(rows: Rows, ids: set<nat>) returns (id: nat)
    requires ids != {} && ids <= rows.Keys
    ensures id in ids && forall i :: i in ids ==> Since(rows[id]) <= Since(rows[i])
  {
    id :| id in ids;
    var left := ids - {id};
    while left != {}
      invariant left < ids && id in ids && forall i :: i in ids && i !in left ==> Since(rows[id]) <= Since(rows[i])
      decreases |left|
    {
      var i :| i in left;
      left := left - {i};
      if Since(rows[i]) < Since(rows[id]) {
        id := i;
      }
    }
  }

  /** Whether `advance` finds the row as the caller saw it. */
  predicate Wins(rows: Rows, id: nat, step: nat, now: int) {
    id in rows && IsDue(rows[id], now) && rows[id].step == step
  }

  function Advanced(rows: Rows, id: nat, step: nat, next: Option<int>, now: int): Rows {
    if Wins(rows, id, step, now) then
      rows[id := rows[id].(step := step + 1, nextSendAt := next, lastSentAt := Some(now), status := if next.None? then Completed else Active)]
    else rows
  }

  /** Undo of an advance; the row is matched on its id and step alone. */
  function Restored(rows: Rows, id: nat, advancedTo: nat, step: nat, next: int, last: Option<int>): Rows {
    if id in rows && rows[id].step == advancedTo then
      rows[id := rows[id].(step := step, nextSendAt := Some(next), lastSentAt := last, status := Active)]
    else rows
  }

  function Released(rows: Rows, id: nat, next: int): Rows {
    if id in rows then rows[id := rows[id].(nextSendAt := Some(next))] else rows
  }

  function WithStatus(rows: Rows, id: nat, status: Status): Rows {
    if id in rows then rows[id := rows[id].(status := status, nextSendAt := None)] else rows
  }

  function WithoutEmail(rows: Rows, email: string): Rows {
    map id | id in rows && rows[id].email != email :: rows[id]
  }
}
