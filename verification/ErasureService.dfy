/**
 * Erasing one workspace, and retrying the revocations it left behind, as they are written: loops that count. Any call
 * may fail, and a write may be done although its answer was lost; how each will turn out is handed to the method.
 */
module ErasureService {
  import opened Wrappers
  import opened Erasure

  datatype RevokeSummary = RevokeSummary(connections: nat, revoked: nat, failed: nat, pastedTokens: nat)

  datatype RetrySummary = RetrySummary(retried: nat, revoked: nat, dropped: nat)

  datatype Fault = Unavailable

  datatype Retried = Dropped | Revoked | Left

  /** What an erasure meets at one connection. */
  datatype Meeting = Meeting(read: bool, opens: bool, replies: Replies, keep: Statement, drop: Statement)

  /** What the cron meets at one tombstone. */
  datatype Retrial = Retrial(opens: bool, replies: Replies, delete: Statement, noted: bool)

  predicate IsSure(m: Meeting) {
    m.opens && (m.replies.refresh == Some(Confirmed) || m.replies.access == Confirmed)
  }

  predicate Revokes(m: Retrial) {
    m.opens && (m.replies.refresh == Some(Confirmed) || m.replies.access == Confirmed)
  }

  /** Every statement that is needed is done and heard: the tombstone of an unconfirmed grant, and the drop. */
  predicate Drops(row: Row, m: Meeting) {
    (row.oauth && !IsSure(m) ==> m.keep.Answered?) && m.drop.Answered?
  }

  predicate Settles(t: Tombstone, now: int, m: Retrial) {
    if PastMonth(now, t) || Revokes(m) then m.delete.Answered? else m.noted
  }

  /** Kept for more than thirty days. */
  predicate PastMonth(now: int, t: Tombstone) {
    now - t.createdAt > 30 * 86400
  }

  function Of(rows: map<nat, Row>, ws: nat): set<nat> {
    set id | id in rows && rows[id].ws == ws
  }

  function Sure(rows: map<nat, Row>, ws: nat, meets: nat -> Meeting): set<nat> {
    set id | id in rows && rows[id].ws == ws && rows[id].oauth && IsSure(meets(id))
  }

  function Unsure(rows: map<nat, Row>, ws: nat, meets: nat -> Meeting): set<nat> {
    set id | id in rows && rows[id].ws == ws && rows[id].oauth && !IsSure(meets(id))
  }

  function Pasted(rows: map<nat, Row>, ws: nat): set<nat> {
    set id | id in rows && rows[id].ws == ws && !rows[id].oauth
  }

  ghost predicate AllDrop(rows: map<nat, Row>, ws: nat, meets: nat -> Meeting) {
    forall id :: id in rows && rows[id].ws == ws ==> meets(id).read && Drops(rows[id], meets(id))
  }

  ghost predicate AllDeleted(domains: seq<nat>, deletes: nat -> bool) {
    forall i :: 0 <= i < |domains| ==> deletes(domains[i])
  }

  /** The summary of the connections of a list. */
  function Summed(rows: map<nat, Row>, ids: seq<nat>, meets: nat -> Meeting): RevokeSummary
    requires forall id :: id in ids ==> id in rows
  {
    if ids == [] then RevokeSummary(0, 0, 0, 0)
    else
      var n := |ids| - 1;
      assert ids[n] in ids && forall id :: id in ids[..n] ==> id in ids;
      Counted(Summed(rows, ids[..n], meets), rows[ids[n]], meets(ids[n]))
  }

  function Counted(sum: RevokeSummary, row: Row, m: Meeting): RevokeSummary {
    RevokeSummary(sum.connections + 1, sum.revoked + if row.oauth && IsSure(m) then 1 else 0,
                  sum.failed + if row.oauth && !IsSure(m) then 1 else 0, sum.pastedTokens + if row.oauth then 0 else 1)
  }

  function Picked(ids: seq<nat>, p: nat -> bool): set<nat> {
    set id | id in ids && p(id)
  }

  lemma PickedMore(ids: seq<nat>, p: nat -> bool)
    requires ids != [] && forall i, j :: 0 <= i < j < |ids| ==> ids[i] != ids[j]
    ensures var n := |ids| - 1; |Picked(ids, p)| == |Picked(ids[..n], p)| + if p(ids[n]) then 1 else 0
  {
    var n := |ids| - 1;
    assert ids == ids[..n] + [ids[n]] && ids[n] !in ids[..n];
    assert Picked(ids, p) == Picked(ids[..n], p) + if p(ids[n]) then {ids[n]} else {};
  }

  lemma {:induction false} SummedCounts(rows: map<nat, Row>, ids: seq<nat>, meets: nat -> Meeting)
    requires (forall id :: id in ids ==> id in rows) && forall i, j :: 0 <= i < j < |ids| ==> ids[i] != ids[j]
    ensures Summed(rows, ids, meets) == RevokeSummary(|ids|,
              |Picked(ids, id => id in rows && rows[id].oauth && IsSure(meets(id)))|,
              |Picked(ids, id => id in rows && rows[id].oauth && !IsSure(meets(id)))|,
              |Picked(ids, id => id in rows && !rows[id].oauth)|)
  {
    hide IsSure, Picked;
    if ids == [] {
      NonePicked(ids, id => id in rows && rows[id].oauth && IsSure(meets(id)));
      NonePicked(ids, id => id in rows && rows[id].oauth && !IsSure(meets(id)));
      NonePicked(ids, id => id in rows && !rows[id].oauth);
    } else {
      SummedMore(rows, ids, meets);
      SummedCounts(rows, ids[..|ids| - 1], meets);
      PickedMore(ids, id => id in rows && rows[id].oauth && IsSure(meets(id)));
      PickedMore(ids, id => id in rows && rows[id].oauth && !IsSure(meets(id)));
      PickedMore(ids, id => id in rows && !rows[id].oauth);
    }
  }

  lemma NonePicked(ids: seq<nat>, p: nat -> bool)
    requires ids == []
    ensures |Picked(ids, p)| == 0
  {
    assert Picked(ids, p) == {};
  }

  lemma {:induction false} SizeOf(ids: seq<nat>)
    requires forall i, j :: 0 <= i < j < |ids| ==> ids[i] != ids[j]
    ensures |Picked(ids, id => true)| == |ids|
  {
    hide Picked;
    if ids == [] {
      NonePicked(ids, id => true);
    } else {
      PickedMore(ids, id => true);
      SizeOf(ids[..|ids| - 1]);
    }
  }

  lemma ListCounts(rows: map<nat, Row>, ws: nat, ids: seq<nat>, meets: nat -> Meeting)
    requires (forall id :: id in ids <==> id in rows && rows[id].ws == ws) && forall i, j :: 0 <= i < j < |ids| ==> ids[i] != ids[j]
    ensures Summed(rows, ids, meets) == RevokeSummary(|Of(rows, ws)|, |Sure(rows, ws, meets)|, |Unsure(rows, ws, meets)|, |Pasted(rows, ws)|)
  {
    hide IsSure, Summed;
    SummedCounts(rows, ids, meets);
    SizeOf(ids);
    assert Picked(ids, id => true) == Of(rows, ws);
    assert Picked(ids, id => id in rows && rows[id].oauth && IsSure(meets(id))) == Sure(rows, ws, meets);
    assert Picked(ids, id => id in rows && rows[id].oauth && !IsSure(meets(id))) == Unsure(rows, ws, meets);
    assert Picked(ids, id => id in rows && !rows[id].oauth) == Pasted(rows, ws);
  }

  /** The same of a batch of tombstones. */
  function Tried(tombs: map<nat, Tombstone>, batch: seq<nat>, now: int, meets: nat -> Retrial): RetrySummary
    requires forall id :: id in batch ==> id in tombs
  {
    if batch == [] then RetrySummary(0, 0, 0)
    else
      var n := |batch| - 1;
      assert batch[n] in batch && forall id :: id in batch[..n] ==> id in batch;
      TriedMore(Tried(tombs, batch[..n], now, meets), Fate(tombs[batch[n]], now, meets(batch[n])))
  }

  function TriedMore(sum: RetrySummary, f: Retried): RetrySummary {
    match f
    case Dropped => sum.(dropped := sum.dropped + 1)
    case Revoked => sum.(retried := sum.retried + 1, revoked := sum.revoked + 1)
    case Left => sum.(retried := sum.retried + 1)
  }

  /** What becomes of a tombstone when the statements work. */
  function Fate(t: Tombstone, now: int, m: Retrial): Retried {
    if PastMonth(now, t) then Dropped else if Revokes(m) then Revoked else Left
  }

  /** The tombstones of a batch that were kept for more than thirty days, the others, and those of the others that are revoked. */
  function TooOld(tombs: map<nat, Tombstone>, batch: seq<nat>, now: int): set<nat> {
    Picked(batch, t => t in tombs && PastMonth(now, tombs[t]))
  }

  function Young(tombs: map<nat, Tombstone>, batch: seq<nat>, now: int): set<nat> {
    Picked(batch, t => t in tombs && !PastMonth(now, tombs[t]))
  }

  function YoungSure(tombs: map<nat, Tombstone>, batch: seq<nat>, now: int, meets: nat -> Retrial): set<nat> {
    Picked(batch, t => t in tombs && !PastMonth(now, tombs[t]) && Revokes(meets(t)))
  }

  lemma {:induction false} TriedCounts(tombs: map<nat, Tombstone>, batch: seq<nat>, now: int, meets: nat -> Retrial)
    requires (forall id :: id in batch ==> id in tombs) && forall i, j :: 0 <= i < j < |batch| ==> batch[i] != batch[j]
    ensures Tried(tombs, batch, now, meets)
      == RetrySummary(|Young(tombs, batch, now)|, |YoungSure(tombs, batch, now, meets)|, |TooOld(tombs, batch, now)|)
  {
    hide PastMonth, Revokes, Picked;
    if batch == [] {
      NonePicked(batch, t => t in tombs && PastMonth(now, tombs[t]));
      NonePicked(batch, t => t in tombs && !PastMonth(now, tombs[t]));
      NonePicked(batch, t => t in tombs && !PastMonth(now, tombs[t]) && Revokes(meets(t)));
    } else {
      TriedAgain(tombs, batch, now, meets);
      TriedCounts(tombs, batch[..|batch| - 1], now, meets);
      PickedMore(batch, t => t in tombs && PastMonth(now, tombs[t]));
      PickedMore(batch, t => t in tombs && !PastMonth(now, tombs[t]));
      PickedMore(batch, t => t in tombs && !PastMonth(now, tombs[t]) && Revokes(meets(t)));
    }
  }

  /** A grant whose revocation was confirmed is accepted, any other has a tombstone. */
  ghost predicate Dealt(accepted: set<nat>, tombs: map<nat, Tombstone>, row: Row, m: Meeting) {
    row.oauth ==> if IsSure(m) then row.grant in accepted else exists t :: t in tombs && tombs[t].grant == row.grant
  }

  lemma DealtGrows(accepted: set<nat>, tombs: map<nat, Tombstone>, accepted': set<nat>, tombs': map<nat, Tombstone>, row: Row, m: Meeting)
    requires Dealt(accepted, tombs, row, m)
    requires accepted <= accepted' && forall t :: t in tombs ==> t in tombs' && tombs'[t] == tombs[t]
    ensures Dealt(accepted', tombs', row, m)
  {
    if row.oauth && !IsSure(m) {
      var t :| t in tombs && tombs[t].grant == row.grant;
      assert t in tombs';
    }
  }

  /** The grant was accepted, or it was kept for more than thirty days and is recorded as given up now. */
  ghost predicate SettledBy(accepted: set<nat>, abandoned: set<Abandoned>, clock: int, now: int, t: Tombstone) {
    t.grant in accepted || (PastMonth(now, t) && Abandoned(t.grant, t.createdAt, clock) in abandoned)
  }

  lemma SettledGrows(accepted: set<nat>, abandoned: set<Abandoned>, accepted': set<nat>, abandoned': set<Abandoned>, clock: int, now: int)
    requires accepted <= accepted' && abandoned <= abandoned'
    ensures forall t :: SettledBy(accepted, abandoned, clock, now, t) ==> SettledBy(accepted', abandoned', clock, now, t)
  {
  }

  lemma SettledDeletes(t: Tombstone, now: int, m: Retrial)
    requires Settles(t, now, m)
    ensures Fate(t, now, m).Left? || !m.delete.Fails?
  {
  }

  lemma FateMeans(t: Tombstone, now: int, m: Retrial)
    ensures Fate(t, now, m).Left? <==> !(PastMonth(now, t) || Revokes(m))
    ensures Fate(t, now, m).Revoked? <==> !PastMonth(now, t) && Revokes(m)
  {
  }

  lemma CoveredGrows(accepted: set<nat>, tombs: map<nat, Tombstone>, abandoned: set<Abandoned>, accepted': set<nat>, tombs': map<nat, Tombstone>)
    requires accepted <= accepted' && forall t :: t in tombs ==> t in tombs' && tombs'[t] == tombs[t]
    ensures forall g :: CoveredBy(accepted, tombs, abandoned, g) ==> CoveredBy(accepted', tombs', abandoned, g)
  {
    forall g | CoveredBy(accepted, tombs, abandoned, g) ensures CoveredBy(accepted', tombs', abandoned, g) {
      if t :| t in tombs && tombs[t].grant == g {
        assert t in tombs';
      }
    }
  }

  lemma CoveredWithout(accepted: set<nat>, tombs: map<nat, Tombstone>, abandoned: set<Abandoned>, id: nat)
    requires id in tombs && tombs[id].grant in accepted
    ensures forall g :: CoveredBy(accepted, tombs, abandoned, g) ==> CoveredBy(accepted, Without(tombs, id), abandoned, g)
  {
    forall g | CoveredBy(accepted, tombs, abandoned, g) ensures CoveredBy(accepted, Without(tombs, id), abandoned, g) {
      if t :| t in tombs && tombs[t].grant == g && t != id {
        assert t in Without(tombs, id);
      }
    }
  }

  lemma CoveredElsewhere(accepted: set<nat>, tombs: map<nat, Tombstone>, abandoned: set<Abandoned>, abandoned': set<Abandoned>, id: nat)
    requires id in tombs && abandoned <= abandoned' && exists a :: a in abandoned' && a.grant == tombs[id].grant
    ensures forall g :: CoveredBy(accepted, tombs, abandoned, g) ==> CoveredBy(accepted, Without(tombs, id), abandoned', g)
  {
    forall g | CoveredBy(accepted, tombs, abandoned, g) ensures CoveredBy(accepted, Without(tombs, id), abandoned', g) {
      if t :| t in tombs && tombs[t].grant == g && t != id {
        assert t in Without(tombs, id);
      } else if a :| a in abandoned && a.grant == g {
        assert a in abandoned';
      }
    }
  }

  class Platform {
    var clock: int
    var rows: map<nat, Row>
    var tombs: map<nat, Tombstone>
    var nextTomb: nat
    var accepted: set<nat>
    /** Of those, the ones whose refresh token was revoked. */
    var refreshGone: set<nat>
    var abandoned: set<Abandoned>
    var purged: set<nat>

    ghost predicate Valid()
      reads this
    {
      forall id :: id in tombs ==> id < nextTomb
    }

    ghost predicate IsCovered(grant: nat)
      reads this
    {
      CoveredBy(accepted, tombs, abandoned, grant)
    }

    /** What no method undoes: a grant once covered stays covered, a row that leaves had its grant covered, no row changes. */
    twostate predicate Careful()
      reads this
    {
      Valid()
      && (forall g :: old(IsCovered(g)) ==> IsCovered(g))
      && (forall id :: id in rows ==> id in old(rows) && rows[id] == old(rows)[id])
      && forall id :: id in old(rows) && id !in rows && old(rows)[id].oauth ==> IsCovered(old(rows)[id].grant)
    }

    ghost predicate IsDealt(row: Row, m: Meeting)
      reads this
    {
      Dealt(accepted, tombs, row, m)
    }

    /** Nothing accepted is taken back and no tombstone goes or changes. */
    twostate predicate Grows()
      reads this
    {
      old(accepted) <= accepted && forall t :: t in old(tombs) ==> t in tombs && tombs[t] == old(tombs)[t]
    }

    /** One revocation call, and what Cloudflare makes of it. */
    method RevokeToken(grant: nat, refresh: bool, reply: Reply) returns (ok: bool)
      modifies this`accepted, this`refreshGone
      ensures ok <==> reply.Confirmed?
      ensures accepted == if reply.NotAccepted? then old(accepted) else old(accepted) + {grant}
      ensures refreshGone == if reply.NotAccepted? || !refresh then old(refreshGone) else old(refreshGone) + {grant}
    {
      if reply != NotAccepted {
        accepted := accepted + {grant};
        if refresh {
          refreshGone := refreshGone + {grant};
        }
      }
      ok := reply == Confirmed;
    }

    /**
     * Both tokens of a sealed grant, if it opens. One confirmed revocation is enough: a grant counts as revoked although
     * its refresh token was refused exactly when the access token's revocation was confirmed.
     */
    method RevokeSealedGrant(grant: nat, opens: bool, replies: Replies) returns (ok: bool)
      requires Valid()
      modifies this`accepted, this`refreshGone
      ensures Careful() && (ok ==> grant in accepted)
      ensures ok <==> opens && (replies.refresh == Some(Confirmed) || replies.access == Confirmed)
      ensures accepted == if opens && TakesAny(replies) then old(accepted) + {grant} else old(accepted)
      ensures refreshGone == if opens && TakesRefresh(replies) then old(refreshGone) + {grant} else old(refreshGone)
    {
      if !opens {
        return false;
      }
      var first, second := false, false;
      if replies.refresh.Some? {
        first := RevokeToken(grant, true, replies.refresh.value);
      }
      second := RevokeToken(grant, false, replies.access);
      ok := first || second;
    }

    /** A tombstone for the cron to retry. */
    method Keep(grant: nat, write: Statement) returns (heard: bool)
      requires Valid()
      modifies this`tombs, this`nextTomb
      ensures Careful() && heard == write.Answered?
      ensures tombs == if write.Fails? then old(tombs) else old(tombs)[old(nextTomb) := Tombstone(grant, clock)]
      ensures !write.Fails? ==> IsCovered(grant) && old(nextTomb) !in old(tombs)
    {
      if write != Fails {
        var id := nextTomb;
        tombs := tombs[id := Tombstone(grant, clock)];
        nextTomb := id + 1;
        assert id in tombs && id !in old(tombs) && tombs[id].grant == grant;
      }
      heard := write == Answered;
      CoveredGrows(accepted, old(tombs), abandoned, accepted, tombs);
    }

    /**
     * Removes a connection; a grant whose revocation is not confirmed is tombstoned first. Some(None): nothing to revoke.
     * It ends well exactly when every statement it needs does, and then says what became of the grant.
     */
    method DisconnectKeepingFailedGrant(id: nat, meets: Meeting) returns (r: Result<Option<Option<bool>>, Fault>)
      requires Valid()
      modifies this`rows, this`tombs, this`nextTomb, this`accepted, this`refreshGone
      ensures Careful() && Grows() && forall other :: other in old(rows) && other != id ==> other in rows
      ensures r.Ok? <==> meets.read && (id in old(rows) ==> Drops(old(rows)[id], meets))
      ensures r.Ok? ==> id !in rows && (r.value.None? <==> id !in old(rows))
      ensures r.Ok? && id in old(rows) ==> r.value == Some(if old(rows)[id].oauth then Some(IsSure(meets)) else None)
      ensures r.Ok? && id in old(rows) && old(rows)[id].oauth && IsSure(meets) ==> old(rows)[id].grant in accepted
      ensures r.Ok? && id in old(rows) ==>
        if old(rows)[id].oauth && !IsSure(meets)
        then old(nextTomb) !in old(tombs) && tombs == old(tombs)[old(nextTomb) := Tombstone(old(rows)[id].grant, clock)]
        else tombs == old(tombs)
      ensures r.Ok? && id in old(rows) ==> IsDealt(old(rows)[id], meets)
      ensures rows == old(rows) || rows == Without(old(rows), id)
    {
      hide CoveredBy;
      if !meets.read {
        return Err(Unavailable);
      }
      if id !in rows {
        return Ok(None);
      }
      var row := rows[id];
      var revokedRemote: Option<bool> := None;
      if row.oauth {
        var ok := RevokeSealedGrant(row.grant, meets.opens, meets.replies);
        revokedRemote := Some(ok);
        if ok {
          AcceptedIsCovered(row.grant);
        } else {
          ghost var next := nextTomb;
          var heard := Keep(row.grant, meets.keep);
          if !heard {
            return Err(Unavailable);
          }
          assert next in tombs && tombs[next].grant == row.grant;
        }
      }
      if meets.drop != Fails {
        rows := Without(rows, id);
      }
      if meets.drop != Answered {
        return Err(Unavailable);
      }
      r := Ok(Some(revokedRemote));
    }

    lemma AcceptedIsCovered(grant: nat)
      requires grant in accepted
      ensures IsCovered(grant)
    {
    }

    /** The rows of a workspace, each once, in the order of the list. */
    method ListConnections(ws: nat) returns (ids: seq<nat>)
      ensures forall id :: id in ids <==> id in rows && rows[id].ws == ws
      ensures forall i, j :: 0 <= i < j < |ids| ==> ids[i] != ids[j]
    {
      ids := [];
      var left := rows.Keys;
      while left != {}
        invariant left <= rows.Keys
        invariant forall id :: id in ids <==> id in rows && id !in left && rows[id].ws == ws
        invariant forall i, j :: 0 <= i < j < |ids| ==> ids[i] != ids[j]
        decreases left
      {
        var id :| id in left;
        left := left - {id};
        if rows[id].ws == ws {
          ids := ids + [id];
        }
      }
    }

    /**
     * Disconnects every connection of the workspace. It ends well exactly when the list is read and every connection can
     * be dropped; then none is left, and each was counted once: confirmed revoked, failed (with a tombstone), or a pasted
     * token.
     */
    method RevokeWorkspaceConnections(ws: nat, listed: bool, meets: nat -> Meeting) returns (r: Result<RevokeSummary, Fault>)
      requires Valid()
      modifies this`rows, this`tombs, this`nextTomb, this`accepted, this`refreshGone
      ensures Careful()
      ensures forall id :: id in old(rows) && old(rows)[id].ws != ws ==> id in rows
      ensures r.Ok? <==> listed && AllDrop(old(rows), ws, meets)
      ensures r.Ok? ==> forall id :: id in rows ==> rows[id].ws != ws
      ensures r.Ok? ==> r.value == RevokeSummary(|Of(old(rows), ws)|, |Sure(old(rows), ws, meets)|, |Unsure(old(rows), ws, meets)|, |Pasted(old(rows), ws)|)
      ensures r.Ok? ==> forall id :: id in old(rows) && old(rows)[id].ws == ws ==> IsDealt(old(rows)[id], meets(id))
    {
      hide CoveredBy, IsSure, Drops, Dealt, Summed;
      if !listed {
        return Err(Unavailable);
      }
      var ids := ListConnections(ws);
      var summary := RevokeSummary(0, 0, 0, 0);
      assert summary == Summed(rows, ids[..0], meets) by { NothingSummed(rows, ids[..0], meets); }
      for i := 0 to |ids|
        invariant Careful()
        invariant summary == Summed(old(rows), ids[..i], meets)
        invariant forall id :: id in old(rows) && id !in ids[..i] ==> id in rows
        invariant forall j :: 0 <= j < i ==> ids[j] !in rows && meets(ids[j]).read && Drops(old(rows)[ids[j]], meets(ids[j]))
        invariant forall j :: 0 <= j < i ==> IsDealt(old(rows)[ids[j]], meets(ids[j]))
      {
        var id := ids[i];
        assert ids[i] in ids && id !in ids[..i] && id in rows;
        assert ids[..i + 1] == ids[..i] + [id] && ids[..i + 1][..i] == ids[..i];
        assert Summed(old(rows), ids[..i + 1], meets) == Counted(summary, rows[id], meets(id)) by { SummedMore(old(rows), ids[..i + 1], meets); }
        var oauth := rows[id].oauth;
        summary := summary.(connections := summary.connections + 1, pastedTokens := summary.pastedTokens + if oauth then 0 else 1);
        ghost var taken, kept := accepted, tombs;
        var result := DisconnectKeepingFailedGrant(id, meets(id));
        if result.Err? {
          return Err(Unavailable);
        }
        if oauth {
          if result.value == Some(Some(true)) {
            summary := summary.(revoked := summary.revoked + 1);
          } else {
            summary := summary.(failed := summary.failed + 1);
          }
        }
        forall j | 0 <= j < i ensures IsDealt(old(rows)[ids[j]], meets(ids[j])) {
          DealtGrows(taken, kept, accepted, tombs, old(rows)[ids[j]], meets(ids[j]));
        }
      }
      assert ids[..|ids|] == ids;
      ListCounts(old(rows), ws, ids, meets);
      r := Ok(summary);
    }

    /**
     * The order of an erasure: domains first, then grants, and the purge only after every connection is gone. It ends well
     * exactly when every domain, the connections and the purge do.
     */
    method EraseWorkspace(ws: nat, domains: seq<nat>, deletes: nat -> bool, listed: bool, meets: nat -> Meeting, purge: Statement)
      returns (r: Result<RevokeSummary, Fault>, deleted: nat)
      requires Valid() && ws !in purged
      modifies this`rows, this`tombs, this`nextTomb, this`accepted, this`refreshGone, this`purged
      ensures Careful() && deleted <= |domains|
      ensures forall id :: id in old(rows) && old(rows)[id].ws != ws ==> id in rows
      ensures r.Ok? <==> AllDeleted(domains, deletes) && listed && AllDrop(old(rows), ws, meets) && purge.Answered?
      ensures deleted == |domains| <==> AllDeleted(domains, deletes)
      ensures deleted < |domains| ==> !deletes(domains[deleted]) && rows == old(rows) && tombs == old(tombs) && accepted == old(accepted)
      ensures ws in purged <==> AllDeleted(domains, deletes) && listed && AllDrop(old(rows), ws, meets) && !purge.Fails?
      ensures purged - {ws} == old(purged)
      ensures ws in purged ==> forall id :: id in old(rows) && old(rows)[id].ws == ws ==> id !in rows
      ensures r.Ok? ==> r.value == RevokeSummary(|Of(old(rows), ws)|, |Sure(old(rows), ws, meets)|, |Unsure(old(rows), ws, meets)|, |Pasted(old(rows), ws)|)
    {
      hide CoveredBy, Drops;
      deleted := 0;
      while deleted < |domains|
        invariant deleted <= |domains| && forall i :: 0 <= i < deleted ==> deletes(domains[i])
      {
        if !deletes(domains[deleted]) {
          return Err(Unavailable), deleted;
        }
        deleted := deleted + 1;
      }
      var cloudflare := RevokeWorkspaceConnections(ws, listed, meets);
      if cloudflare.Err? {
        return Err(Unavailable), deleted;
      }
      if purge != Fails {
        rows := NotOf(rows, ws);
        purged := purged + {ws};
      }
      if purge != Answered {
        return Err(Unavailable), deleted;
      }
      r := cloudflare;
    }

    // ----- the cron -----

    /** A tombstone that leaves had its revocation accepted, or was old and is recorded as abandoned. */
    ghost predicate SettledFor(now: int, t: Tombstone)
      reads this
    {
      SettledBy(accepted, abandoned, clock, now, t)
    }

    /** The delete of a tombstone whose revocation was accepted. */
    method DropSettled(id: nat, delete: Statement) returns (heard: bool)
      requires Valid() && id in tombs && tombs[id].grant in accepted
      modifies this`tombs
      ensures Careful() && heard == delete.Answered? && tombs == if delete.Fails? then old(tombs) else Without(old(tombs), id)
    {
      heard := delete == Answered;
      if delete != Fails {
        tombs := Without(tombs, id);
      }
      CoveredWithout(accepted, old(tombs), abandoned, id);
    }

    /** The same of one that is given up, which is recorded. */
    method DropAged(id: nat, now: int, delete: Statement) returns (heard: bool)
      requires Valid() && id in tombs && PastMonth(now, tombs[id]) && now <= clock
      modifies this`tombs, this`abandoned
      ensures Careful() && heard == delete.Answered? && tombs == if delete.Fails? then old(tombs) else Without(old(tombs), id)
      ensures abandoned == if delete.Fails? then old(abandoned) else old(abandoned) + {Abandoned(old(tombs)[id].grant, old(tombs)[id].createdAt, clock)}
    {
      var t := tombs[id];
      var a := Abandoned(t.grant, t.createdAt, clock);
      heard := delete == Answered;
      if delete != Fails {
        tombs := Without(tombs, id);
        abandoned := abandoned + {a};
        assert a in abandoned;
        CoveredElsewhere(accepted, old(tombs), old(abandoned), abandoned, id);
      }
    }

    /** One tombstone: dropped by age, revoked, or left for the next run. None: a statement failed and the run ends. */
    method RetryOne(id: nat, now: int, meets: Retrial) returns (o: Option<Retried>)
      requires Valid() && id in tombs && now <= clock
      modifies this`tombs, this`accepted, this`refreshGone, this`abandoned
      ensures Careful() && old(accepted) <= accepted && old(abandoned) <= abandoned
      ensures o == if Settles(old(tombs)[id], now, meets) then Some(Fate(old(tombs)[id], now, meets)) else None
      ensures tombs == if Fate(old(tombs)[id], now, meets).Left? || meets.delete.Fails? then old(tombs) else Without(old(tombs), id)
      ensures Fate(old(tombs)[id], now, meets).Revoked? ==> old(tombs)[id].grant in accepted
      ensures id !in tombs ==> SettledFor(now, old(tombs)[id])
    {
      hide CoveredBy;
      var t := tombs[id];
      if Old(now, t) {
        var heard := DropAged(id, now, meets.delete);
        return if heard then Some(Dropped) else None;
      }
      var ok := RevokeSealedGrant(t.grant, meets.opens, meets.replies);
      if ok {
        var heard := DropSettled(id, meets.delete);
        return if heard then Some(Revoked) else None;
      }
      o := if meets.noted then Some(Left) else None;
    }

    /**
     * A cron run. It ends well exactly when every statement it needs does. Then the tombstones that were old are dropped,
     * those of the others whose revocation was confirmed are revoked and gone, the rest is left, and each was counted.
     */
    method RetryRevocations(now: int, batch: seq<nat>, meets: nat -> Retrial) returns (r: Result<RetrySummary, Fault>)
      requires Valid() && now <= clock
      requires (forall i :: 0 <= i < |batch| ==> batch[i] in tombs) && forall i, j :: 0 <= i < j < |batch| ==> batch[i] != batch[j]
      modifies this`tombs, this`accepted, this`refreshGone, this`abandoned
      ensures Careful()
      ensures forall t :: t in tombs ==> t in old(tombs) && tombs[t] == old(tombs)[t]
      ensures forall t :: t in old(tombs) && t !in tombs ==> t in batch && SettledFor(now, old(tombs)[t])
      ensures r.Ok? <==> forall i :: 0 <= i < |batch| ==> Settles(old(tombs)[batch[i]], now, meets(batch[i]))
      ensures r.Ok? ==> forall t :: t in old(tombs) ==> (t !in tombs <==> t in batch && (PastMonth(now, old(tombs)[t]) || Revokes(meets(t))))
      ensures r.Ok? ==> forall t :: t in batch && !PastMonth(now, old(tombs)[t]) && Revokes(meets(t)) ==> old(tombs)[t].grant in accepted
      ensures r.Ok? ==> r.value == RetrySummary(|Young(old(tombs), batch, now)|, |YoungSure(old(tombs), batch, now, meets)|,
                                                |TooOld(old(tombs), batch, now)|)
    {
      hide CoveredBy, PastMonth, Revokes, Tried, Old, Fate, Settles, SettledBy;
      var out := RetrySummary(0, 0, 0);
      assert out == Tried(tombs, batch[..0], now, meets) by { NothingTried(tombs, batch[..0], now, meets); }
      for i := 0 to |batch|
        invariant Careful() && old(accepted) <= accepted && old(abandoned) <= abandoned
        invariant forall t :: t in tombs ==> t in old(tombs) && tombs[t] == old(tombs)[t]
        invariant forall t :: t in old(tombs) && t !in tombs ==> t in batch[..i] && SettledFor(now, old(tombs)[t])
        invariant out == Tried(old(tombs), batch[..i], now, meets)
        invariant forall j :: 0 <= j < i ==> (batch[j] in tombs <==> Fate(old(tombs)[batch[j]], now, meets(batch[j])).Left?)
        invariant forall j :: 0 <= j < i && Fate(old(tombs)[batch[j]], now, meets(batch[j])).Revoked? ==> old(tombs)[batch[j]].grant in accepted
        invariant forall j :: 0 <= j < i ==> Settles(old(tombs)[batch[j]], now, meets(batch[j]))
      {
        var id := batch[i];
        assert id !in batch[..i] && batch[..i + 1] == batch[..i] + [id] && batch[..i + 1][..i] == batch[..i];
        TriedAgain(old(tombs), batch[..i + 1], now, meets);
        ghost var taken, given := accepted, abandoned;
        var o := RetryOne(id, now, meets(id));
        SettledGrows(taken, given, accepted, abandoned, clock, now);
        if o.None? {
          return Err(Unavailable);
        }
        SettledDeletes(old(tombs)[id], now, meets(id));
        match o.value
        case Dropped => out := out.(dropped := out.dropped + 1);
        case Revoked => out := out.(retried := out.retried + 1, revoked := out.revoked + 1);
        case Left => out := out.(retried := out.retried + 1);
      }
      assert batch[..|batch|] == batch;
      TriedCounts(old(tombs), batch, now, meets);
      forall j | 0 <= j < |batch|
        ensures batch[j] in tombs <==> !(PastMonth(now, old(tombs)[batch[j]]) || Revokes(meets(batch[j])))
        ensures !PastMonth(now, old(tombs)[batch[j]]) && Revokes(meets(batch[j])) ==> old(tombs)[batch[j]].grant in accepted
      {
        FateMeans(old(tombs)[batch[j]], now, meets(batch[j]));
      }
      r := Ok(out);
    }
  }

  lemma NothingSummed(rows: map<nat, Row>, ids: seq<nat>, meets: nat -> Meeting)
    requires ids == []
    ensures Summed(rows, ids, meets) == RevokeSummary(0, 0, 0, 0)
  {
  }

  lemma SummedMore(rows: map<nat, Row>, ids: seq<nat>, meets: nat -> Meeting)
    requires ids != [] && forall id :: id in ids ==> id in rows
    ensures var n := |ids| - 1;
      (forall id :: id in ids[..n] ==> id in rows) && Summed(rows, ids, meets) == Counted(Summed(rows, ids[..n], meets), rows[ids[n]], meets(ids[n]))
  {
  }

  lemma NothingTried(tombs: map<nat, Tombstone>, batch: seq<nat>, now: int, meets: nat -> Retrial)
    requires batch == []
    ensures Tried(tombs, batch, now, meets) == RetrySummary(0, 0, 0)
  {
  }

  lemma TriedAgain(tombs: map<nat, Tombstone>, batch: seq<nat>, now: int, meets: nat -> Retrial)
    requires batch != [] && forall id :: id in batch ==> id in tombs
    ensures var n := |batch| - 1;
      (forall id :: id in batch[..n] ==> id in tombs)
      && Tried(tombs, batch, now, meets) == TriedMore(Tried(tombs, batch[..n], now, meets), Fate(tombs[batch[n]], now, meets(batch[n])))
  {
  }
}
