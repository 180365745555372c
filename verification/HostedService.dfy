/**
 * Hosted records of a domain: enabling writes three or five records and takes them all back when one fails, disabling
 * deletes them and can be repeated, and the zone's record count follows along.
 */
module HostedService {
  import opened Wrappers
  import opened HostedZone

  const PRO_RECORD_LIMIT := 3500

  datatype HostedRow = HostedRow(hostedId: string, dmarc: Option<nat>, spf: Option<nat>, tlsRpt: Option<nat>,
                                 mtaTxt: Option<nat>, mtaHost: Option<nat>)

  datatype MtaRow = MtaRow(mode: string, policyId: string, txt: Option<nat>, tlsRpt: Option<nat>, host: Option<nat>)

  datatype Intake = Intake(hash: string, previous: Option<string>)

  /** The zone, the most domains a workspace may host records for, and the workspace's three tables, by domain. */
  datatype Hosting = Hosting(apex: string, cap: nat, zone: Zone, hosted: map<nat, HostedRow>, intake: map<nat, Intake>, mta: map<nat, MtaRow>)

  /** What enabling will publish, worked out before anything is written. */
  datatype Plan = Plan(hostedId: string, tokenHash: string, dmarc: string, spf: string, tlsRpt: string, mtaPolicyId: Option<string>)

  datatype Refusal = AlreadyEnabled | TooMany | ZoneFull | Unavailable | Rejected | NotEnabled | NotRemoved

  function DmarcName(hostedId: string, apex: string): string {
    hostedId + "._dmarc." + apex
  }

  function SpfName(hostedId: string, apex: string): string {
    hostedId + "._spf." + apex
  }

  function TlsRptName(hostedId: string, apex: string): string {
    hostedId + "._tlsrpt." + apex
  }

  function MtaStsName(hostedId: string, apex: string): string {
    "mta-sts." + hostedId + "." + apex
  }

  function Todo(plan: Plan, apex: string): seq<Rec> {
    [Rec(DmarcName(plan.hostedId, apex), plan.dmarc), Rec(SpfName(plan.hostedId, apex), plan.spf),
     Rec(TlsRptName(plan.hostedId, apex), plan.tlsRpt)]
    + if plan.mtaPolicyId.None? then [] else
      [Rec(MtaStsName(plan.hostedId, apex), "v=STSv1; id=" + plan.mtaPolicyId.value), Rec(MtaStsName(plan.hostedId, apex), "100::")]
  }

  function At(id: Option<nat>, name: string): seq<Target> {
    if id.None? then [] else [Target(id.value, name)]
  }

  function MtaTargets(row: HostedRow, apex: string): seq<Target> {
    At(row.mtaTxt, MtaStsName(row.hostedId, apex)) + At(row.mtaHost, MtaStsName(row.hostedId, apex))
  }

  function Targets(row: HostedRow, apex: string): seq<Target> {
    At(row.dmarc, DmarcName(row.hostedId, apex)) + At(row.spf, SpfName(row.hostedId, apex)) + At(row.tlsRpt, TlsRptName(row.hostedId, apex))
    + MtaTargets(row, apex)
  }

  /** What was created, latest first. */
  function Created(todo: seq<Rec>, ids: seq<nat>): seq<Target>
    requires |ids| <= |todo|
  {
    seq(|ids|, i requires 0 <= i < |ids| => Target(ids[|ids| - 1 - i], todo[|ids| - 1 - i].name))
  }

  function Rotated(intake: map<nat, Intake>, domain: nat, hash: string): map<nat, Intake> {
    intake[domain := Intake(hash, if domain in intake then Some(intake[domain].hash) else None)]
  }

  function RowFor(plan: Plan, ids: seq<nat>): HostedRow
    requires |ids| == |Todo(plan, "")|
  {
    HostedRow(plan.hostedId, Some(ids[0]), Some(ids[1]), Some(ids[2]),
              if plan.mtaPolicyId.Some? then Some(ids[3]) else None, if plan.mtaPolicyId.Some? then Some(ids[4]) else None)
  }

  /** Everything is forgotten again: also a token and an MTA-STS row the domain may have had before. */
  function Forgotten(s: Hosting, domain: nat): Hosting {
    s.(hosted := s.hosted - {domain}, intake := s.intake - {domain}, mta := s.mta - {domain})
  }

  /** Why enabling does not even begin, if it does not: hosted already, the workspace's cap, the zone's limit. */
  function Barred(s: Hosting, domain: nat, needed: nat): (r: Option<Refusal>)
    ensures r.None? ==> domain !in s.hosted
    ensures r.Some? ==> r.value.AlreadyEnabled? || r.value.TooMany? || r.value.ZoneFull?
  {
    if domain in s.hosted then Some(AlreadyEnabled)
    else if |s.hosted| >= s.cap then Some(TooMany)
    else if s.zone.count + needed > PRO_RECORD_LIMIT then Some(ZoneFull)
    else None
  }

  function Enable(s: Hosting, domain: nat, plan: Plan): (Hosting, Result<HostedRow, Refusal>) {
    var todo := Todo(plan, s.apex);
    var barred := Barred(s, domain, |todo|);
    if barred.Some? then (s, Err(barred.value))
    else if !Sky(s.zone).Works? then (s.(zone := Passed(s.zone)), Err(Unavailable))
    else
      var (z, ids) := WriteAll(Passed(s.zone), todo);
      // The MTA-STS row is inserted only after all records, and the table takes one per domain.
      if |ids| == |todo| && !(plan.mtaPolicyId.Some? && domain in s.mta) then
        var row := RowFor(plan, ids);
        (Hosting(s.apex, s.cap, z, s.hosted[domain := row], Rotated(s.intake, domain, plan.tokenHash),
                 if plan.mtaPolicyId.Some? then s.mta[domain := MtaRow("testing", plan.mtaPolicyId.value, row.mtaTxt, row.tlsRpt, row.mtaHost)] else s.mta),
         Ok(row))
      else
        WroteSome(Passed(s.zone), todo);
        (Forgotten(s, domain).(zone := TakeBack(z, Created(todo, ids))), Err(Rejected))
  }

  lemma {:induction false} WroteSome(z: Zone, todo: seq<Rec>)
    ensures |WriteAll(z, todo).1| <= |todo|
    decreases |todo|
  {
    if todo != [] && Create(z, todo[0]).1.Some? {
      WroteSome(AddCount(Create(z, todo[0]).0, 1), todo[1..]);
    }
  }

  function Disable(s: Hosting, domain: nat): (Hosting, Result<(), Refusal>) {
    if domain !in s.hosted then (s, Err(NotEnabled))
    else if !Sky(s.zone).Works? then (s.(zone := Passed(s.zone)), Err(Unavailable))
    else
      var (z, ok) := DeleteAll(Passed(s.zone), Targets(s.hosted[domain], s.apex));
      if ok then (Forgotten(s, domain).(zone := z), Ok(())) else (s.(zone := z), Err(NotRemoved))
  }

  function RemoveMtaSts(s: Hosting, domain: nat): (Hosting, Result<(), Refusal>) {
    if domain !in s.hosted then (s, Err(NotEnabled))
    else if !Sky(s.zone).Works? then (s.(zone := Passed(s.zone)), Err(Unavailable))
    else
      var row := s.hosted[domain];
      var (z, ok) := DeleteAll(Passed(s.zone), MtaTargets(row, s.apex));
      if ok then (s.(zone := z, hosted := s.hosted[domain := row.(mtaTxt := None, mtaHost := None)], mta := s.mta - {domain}), Ok(()))
      else (s.(zone := z), Err(NotRemoved))
  }

  // ----- the books -----

  lemma PassedKeeps(z: Zone)
    requires Sound(z)
    ensures Kept(z, Passed(z)) && NoClamp(z, Passed(z)) && Passed(z).records == z.records && Passed(z).count == z.count && Passed(z).clamped == z.clamped
    ensures Passed(z).nextId == z.nextId && (Honest(z.weather) ==> Honest(Passed(z).weather))
  {
  }

  lemma KeptThrough(x: Zone, y: Zone, z: Zone)
    requires Kept(x, y) && Kept(y, z)
    ensures Kept(x, z)
    ensures NoClamp(x, y) && NoClamp(y, z) ==> NoClamp(x, z)
  {
  }

  lemma CreatedPresent(z: Zone, x: Zone, todo: seq<Rec>, ids: seq<nat>)
    requires Made(z, x, todo, ids)
    ensures Present(x, Created(todo, ids)) && |Created(todo, ids)| == |ids|
    ensures forall id :: id in Ids(Created(todo, ids)) ==> id >= z.nextId && id in ids
  {
    var c := Created(todo, ids);
    forall i, j | 0 <= i < j < |c| ensures c[i].id != c[j].id {
      assert ids[|ids| - 1 - j] < ids[|ids| - 1 - i];
    }
  }

  lemma OldStay(z: Zone, x: Zone, y: Zone, gone: set<nat>)
    requires Others(z, x, {}) && Others(x, y, gone) && forall id :: id in gone ==> id !in z.records
    ensures Others(z, y, {})
  {
  }

  /** Enabling keeps the books, touches no record that was there, and a refusal leaves no clamp behind. */
  lemma EnableKeeps(s: Hosting, domain: nat, plan: Plan)
    requires Sound(s.zone)
    ensures var (t, r) := Enable(s, domain, plan);
      && Kept(s.zone, t.zone) && NoClamp(s.zone, t.zone) && Others(s.zone, t.zone, {}) && t.zone.clamped == s.zone.clamped
      && t.apex == s.apex
  {
    hide Kept, NoClamp, Others, Present, Made, TakeBack, Created, Passed, Barred;
    PassedKeeps(s.zone);
    var p, todo := Passed(s.zone), Todo(plan, s.apex);
    assert Others(s.zone, s.zone, {}) && Others(s.zone, p, {}) by { SamePlace(s.zone, p); SamePlace(s.zone, s.zone); }
    assert Kept(s.zone, s.zone) && NoClamp(s.zone, s.zone) by { KeptSelf(s.zone); }
    assert Sound(p) by { SoundKept(s.zone, p); }
    WriteAllKeeps(p, todo);
    var (z, ids) := WriteAll(p, todo);
    KeptThrough(s.zone, p, z);
    assert Sound(z) by { SoundKept(p, z); }
    OldStay(s.zone, p, z, {});
    assert z.clamped == p.clamped by { WriteNeverClamps(p, todo); }
    assert |ids| <= |todo| by { WroteSome(p, todo); }
    CreatedPresent(p, z, todo, ids);
    TakeBackKeeps(z, Created(todo, ids));
    var y := TakeBack(z, Created(todo, ids));
    KeptThrough(s.zone, z, y);
    FreshIds(s.zone, p);
    OldStay(s.zone, z, y, Ids(Created(todo, ids)));
  }

  lemma FreshIds(z: Zone, p: Zone)
    requires Sound(z) && p.nextId == z.nextId
    ensures forall id :: id >= p.nextId ==> id !in z.records
  {
  }

  lemma SamePlace(z: Zone, x: Zone)
    requires x.records == z.records
    ensures Others(z, x, {})
  {
  }

  lemma KeptSelf(z: Zone)
    requires Sound(z)
    ensures Kept(z, z) && NoClamp(z, z)
  {
  }

  lemma SoundKept(z: Zone, x: Zone)
    requires Kept(z, x)
    ensures Sound(x)
  {
  }

  lemma {:induction false} WriteNeverClamps(z: Zone, todo: seq<Rec>)
    ensures WriteAll(z, todo).0.clamped == z.clamped
    decreases |todo|
  {
    if todo != [] && Create(z, todo[0]).1.Some? {
      WriteNeverClamps(AddCount(Create(z, todo[0]).0, 1), todo[1..]);
    }
  }

  /** Deleting touches only the targets; when it succeeds none of them is left. */
  lemma DeletingKeeps(s: Hosting, targets: seq<Target>)
    requires Sound(s.zone)
    ensures var (z, ok) := DeleteAll(Passed(s.zone), targets);
      && Kept(s.zone, z) && NoClamp(s.zone, z) && Others(s.zone, z, Ids(targets)) && NothingNew(s.zone, z, {})
      && (ok ==> forall t :: t in targets ==> t.id !in z.records)
    ensures Kept(s.zone, Passed(s.zone)) && NoClamp(s.zone, Passed(s.zone)) && Passed(s.zone).records == s.zone.records
  {
    hide Kept, NoClamp, DeleteAll, Passed;
    PassedKeeps(s.zone);
    SoundKept(s.zone, Passed(s.zone));
    DeleteAllKeeps(Passed(s.zone), targets);
    KeptThrough(s.zone, Passed(s.zone), DeleteAll(Passed(s.zone), targets).0);
    assert Others(Passed(s.zone), DeleteAll(Passed(s.zone), targets).0, Ids(targets));
  }

  lemma DisableKeeps(s: Hosting, domain: nat)
    requires Sound(s.zone)
    ensures var (t, r) := Disable(s, domain);
      && Kept(s.zone, t.zone) && NoClamp(s.zone, t.zone) && NothingNew(s.zone, t.zone, {}) && t.apex == s.apex
      && Others(s.zone, t.zone, if domain in s.hosted then Ids(Targets(s.hosted[domain], s.apex)) else {})
      && (r.Ok? <==> domain in s.hosted && domain !in t.hosted)
      && (r.Ok? ==> t.hosted == s.hosted - {domain} && domain !in t.intake && domain !in t.mta)
      && (r.Ok? ==> forall u :: u in Targets(s.hosted[domain], s.apex) ==> u.id !in t.zone.records)
      && (r.Err? ==> t == s.(zone := t.zone))
  {
    hide Kept, NoClamp, DeleteAll, Targets, Passed, Ids;
    KeptSelf(s.zone);
    if domain in s.hosted {
      DeletingKeeps(s, Targets(s.hosted[domain], s.apex));
    }
  }

  lemma RemoveMtaStsKeeps(s: Hosting, domain: nat)
    requires Sound(s.zone)
    ensures var (t, r) := RemoveMtaSts(s, domain);
      && Kept(s.zone, t.zone) && NoClamp(s.zone, t.zone) && NothingNew(s.zone, t.zone, {}) && t.apex == s.apex
      && Others(s.zone, t.zone, if domain in s.hosted then Ids(MtaTargets(s.hosted[domain], s.apex)) else {})
      && t.intake == s.intake
      && (r.Ok? ==> domain in s.hosted && t.mta == s.mta - {domain})
      && (r.Ok? ==> t.hosted == s.hosted[domain := s.hosted[domain].(mtaTxt := None, mtaHost := None)])
      && (r.Ok? ==> forall u :: u in MtaTargets(s.hosted[domain], s.apex) ==> u.id !in t.zone.records)
      && (r.Err? ==> t == s.(zone := t.zone))
  {
    hide Kept, NoClamp, DeleteAll, MtaTargets, Passed, Ids;
    KeptSelf(s.zone);
    if domain in s.hosted {
      DeletingKeeps(s, MtaTargets(s.hosted[domain], s.apex));
    }
  }

  // ----- all or nothing -----

  /** The same zone, tables and count; only the next id and the weather have moved on. */
  predicate SameAs(s: Hosting, t: Hosting) {
    t.zone.records == s.zone.records && t.zone.count == s.zone.count
    && t.hosted == s.hosted && t.intake == s.intake && t.mta == s.mta
  }

  /**
   * A refused enable whose answers all arrived and whose take-back left no record behind restores zone, count and the
   * hosted table exactly. It restores everything exactly when the domain had neither a token nor an MTA-STS row before:
   * the take-back deletes both, and an MTA-STS row is itself a reason for the refusal.
   */
  lemma FailedEnableRestores(s: Hosting, domain: nat, plan: Plan)
    requires Sound(s.zone) && Honest(s.zone.weather)
    requires Enable(s, domain, plan).1 == Err(Rejected) && NothingNew(s.zone, Enable(s, domain, plan).0.zone, {})
    ensures var t := Enable(s, domain, plan).0;
      && t.zone.records == s.zone.records && t.zone.count == s.zone.count && t.hosted == s.hosted
      && (SameAs(s, t) <==> domain !in s.intake && domain !in s.mta)
  {
    hide Enable, Do;
    var t := Enable(s, domain, plan).0;
    EnableKeeps(s, domain, plan);
    assert t.zone.records == s.zone.records;
    RejectedTables(s, domain, plan);
  }

  lemma RejectedTables(s: Hosting, domain: nat, plan: Plan)
    requires Enable(s, domain, plan).1 == Err(Rejected)
    ensures var t := Enable(s, domain, plan).0;
      && t.hosted == s.hosted
      && (t.intake == s.intake <==> domain !in s.intake) && (t.mta == s.mta <==> domain !in s.mta)
  {
    hide WriteAll, TakeBack, Todo, Created, Passed, Sky, Barred;
    assert s.hosted - {domain} == s.hosted;
    assert domain !in s.intake ==> s.intake - {domain} == s.intake;
    assert domain !in s.mta ==> s.mta - {domain} == s.mta;
  }

  /** Asking for MTA-STS on a domain that has an MTA-STS row never succeeds, and if the zone is reached deletes that row. */
  lemma EnableOverMtaSts(s: Hosting, domain: nat, plan: Plan)
    requires domain in s.mta && plan.mtaPolicyId.Some?
    ensures var (t, r) := Enable(s, domain, plan); r.Err? && (r == Err(Rejected) ==> domain !in t.mta)
  {
    hide WriteAll, TakeBack, Created;
  }

  // ----- when enabling succeeds -----

  /** Three records, or five with MTA-STS. */
  function Needed(plan: Plan): nat {
    if plan.mtaPolicyId.Some? then 5 else 3
  }

  /** Nothing is in the way of an enable before the first call. */
  predicate Admitted(s: Hosting, domain: nat, plan: Plan) {
    domain !in s.hosted && |s.hosted| < s.cap && s.zone.count + Needed(plan) <= 3500
  }

  /**
   * Enabling succeeds exactly for a domain that is not hosted yet, in a workspace and a zone with room, when the call that
   * opens the zone and those that write the records work, and MTA-STS is not asked for over an MTA-STS row. Every other
   * case has its own refusal.
   */
  lemma EnableAnswersExactly(s: Hosting, domain: nat, plan: Plan)
    ensures var r := Enable(s, domain, plan).1; var weather := s.zone.weather;
      var clash := plan.mtaPolicyId.Some? && domain in s.mta;
      && (r.Ok? <==> Admitted(s, domain, plan) && CallsWork(weather, 1 + Needed(plan)) && !clash)
      && (r == Err(AlreadyEnabled) <==> domain in s.hosted)
      && (r == Err(TooMany) <==> domain !in s.hosted && |s.hosted| >= s.cap)
      && (r == Err(ZoneFull) <==> domain !in s.hosted && |s.hosted| < s.cap && s.zone.count + Needed(plan) > 3500)
      && (r == Err(Unavailable) <==> Admitted(s, domain, plan) && !CallsWork(weather, 1))
      && (r == Err(Rejected) <==>
            Admitted(s, domain, plan) && CallsWork(weather, 1) && (clash || !CallsWork(weather, 1 + Needed(plan))))
  {
    hide WriteAll, TakeBack, Created, Todo, RowFor, Barred, CallsWork, Passed, Sky, Forgotten, Rotated;
    var todo := Todo(plan, s.apex);
    TodoLength(plan, s.apex);
    BarredExactly(s, domain, |todo|);
    SkyWorks(s.zone);
    WriteAllRuns(Passed(s.zone), todo);
    CallsWorkNext(s.zone, |todo|);
  }

  lemma TodoLength(plan: Plan, apex: string)
    ensures |Todo(plan, apex)| == Needed(plan)
  {
  }

  lemma BarredExactly(s: Hosting, domain: nat, needed: nat)
    ensures var r := Barred(s, domain, needed);
      && (r == Some(AlreadyEnabled) <==> domain in s.hosted)
      && (r == Some(TooMany) <==> domain !in s.hosted && |s.hosted| >= s.cap)
      && (r == Some(ZoneFull) <==> domain !in s.hosted && |s.hosted| < s.cap && s.zone.count + needed > 3500)
      && (r == None <==> domain !in s.hosted && |s.hosted| < s.cap && s.zone.count + needed <= 3500)
  {
  }

  lemma SkyWorks(z: Zone)
    ensures Sky(z).Works? <==> CallsWork(z.weather, 1)
  {
  }

  lemma CallsWorkNext(z: Zone, n: nat)
    ensures CallsWork(z.weather, 1 + n) <==> CallsWork(z.weather, 1) && CallsWork(Passed(z).weather, n)
  {
    assert forall i :: 0 < i < |z.weather| ==> z.weather[i] == Passed(z).weather[i - 1];
  }

  /**
   * With no answer lost and at most one call refused, and that one of the writes if any, a rejected enable leaves no record
   * behind: the zone and its count are what they were.
   */
  lemma RejectedLeavesNothing(s: Hosting, domain: nat, plan: Plan)
    requires Sound(s.zone) && Enable(s, domain, plan).1 == Err(Rejected)
    requires Honest(s.zone.weather)
    requires forall i, j :: 0 <= i < j < |s.zone.weather| ==> s.zone.weather[i].Works? || s.zone.weather[j].Works?
    requires CallsWork(s.zone.weather, 1 + Needed(plan)) ==> CallsWork(s.zone.weather, |s.zone.weather|)
    ensures var t := Enable(s, domain, plan).0;
      t.zone.records == s.zone.records && t.zone.count == s.zone.count
  {
    hide TakeBack, Created, WriteAll, Kept, NoClamp, Present, Made, DmarcName, SpfName, TlsRptName, MtaStsName, NothingNew;
    var p, todo := Passed(s.zone), Todo(plan, s.apex);
    var t := Enable(s, domain, plan).0;
    EnableKeeps(s, domain, plan);
    PassedKeeps(s.zone);
    WriteAllKeeps(p, todo);
    WriteAllRuns(p, todo);
    var (z, ids) := WriteAll(p, todo);
    CreatedPresent(p, z, todo, ids);
    AllWorkAfter(s.zone, p, z, ids, todo);
    assert Sound(z) by { SoundKept(p, z); }
    TakeBackWorks(z, Created(todo, ids));
    TakeBackKeeps(z, Created(todo, ids));
    assert t.zone == TakeBack(z, Created(todo, ids));
    CreatedIds(todo, ids);
    NothingLeft(s.zone, p, z, t.zone, ids, Created(todo, ids));
    assert s.zone.records == t.zone.records;
  }

  lemma AllWorkAfter(z: Zone, p: Zone, x: Zone, ids: seq<nat>, todo: seq<Rec>)
    requires p == Passed(z) && Sky(z).Works? && |ids| <= |todo|
    requires forall i, j :: 0 <= i < j < |z.weather| ==> z.weather[i].Works? || z.weather[j].Works?
    requires CallsWork(z.weather, 1 + |todo|) ==> CallsWork(z.weather, |z.weather|)
    requires CallsWork(p.weather, |todo|) <==> |ids| == |todo|
    requires if |ids| < |todo| then |ids| < |p.weather| && !p.weather[|ids|].Works? && x.weather == p.weather[|ids| + 1..]
             else x.weather == if |todo| < |p.weather| then p.weather[|todo|..] else []
    ensures CallsWork(x.weather, |x.weather|)
  {
    assert forall i :: 0 < i < |z.weather| ==> z.weather[i] == p.weather[i - 1];
    if |ids| < |todo| {
      forall i | 0 <= i < |x.weather| ensures x.weather[i].Works? {
        assert x.weather[i] == p.weather[|ids| + 1 + i] == z.weather[|ids| + 2 + i] && p.weather[|ids|] == z.weather[|ids| + 1];
      }
    } else {
      CallsWorkNext(z, |todo|);
      assert forall i :: 0 <= i < |x.weather| ==> x.weather[i] == z.weather[1 + |todo| + i];
    }
  }

  lemma CreatedIds(todo: seq<Rec>, ids: seq<nat>)
    requires |ids| <= |todo|
    ensures forall id :: id in ids ==> exists t :: t in Created(todo, ids) && t.id == id
  {
    var c := Created(todo, ids);
    forall id | id in ids ensures exists t :: t in c && t.id == id {
      var i :| 0 <= i < |ids| && ids[i] == id;
      assert c[|ids| - 1 - i] in c && c[|ids| - 1 - i].id == id;
    }
  }

  /** What a successful enable leaves: the planned records at their names, and rows that name them. */
  lemma EnabledPublishes(s: Hosting, domain: nat, plan: Plan)
    requires Sound(s.zone) && Enable(s, domain, plan).1.Ok?
    ensures var (t, r) := Enable(s, domain, plan);
      && domain !in s.hosted && t.hosted == s.hosted[domain := r.value] && r.value.hostedId == plan.hostedId
      && Published(t.zone, r.value.dmarc, plan.hostedId + "._dmarc." + s.apex, plan.dmarc)
      && Published(t.zone, r.value.spf, plan.hostedId + "._spf." + s.apex, plan.spf)
      && Published(t.zone, r.value.tlsRpt, plan.hostedId + "._tlsrpt." + s.apex, plan.tlsRpt)
      && (plan.mtaPolicyId.Some? ==>
        && Published(t.zone, r.value.mtaTxt, "mta-sts." + plan.hostedId + "." + s.apex, "v=STSv1; id=" + plan.mtaPolicyId.value)
        && Published(t.zone, r.value.mtaHost, "mta-sts." + plan.hostedId + "." + s.apex, "100::")
        && t.mta == s.mta[domain := MtaRow("testing", plan.mtaPolicyId.value, r.value.mtaTxt, r.value.tlsRpt, r.value.mtaHost)])
      && (plan.mtaPolicyId.None? ==> r.value.mtaTxt.None? && r.value.mtaHost.None? && t.mta == s.mta)
      && t.zone.count == s.zone.count + Needed(plan)
      && domain in t.intake && t.intake[domain].hash == plan.tokenHash
      && t.intake[domain].previous == if domain in s.intake then Some(s.intake[domain].hash) else None
  {
    hide WriteAll, TakeBack, Created;
    PassedKeeps(s.zone);
    WriteAllKeeps(Passed(s.zone), Todo(plan, s.apex));
  }

  predicate Published(z: Zone, id: Option<nat>, name: string, content: string) {
    id.Some? && id.value in z.records && z.records[id.value] == Rec(name, content)
  }

  // ----- whole runs -----

  datatype Op = Enables(domain: nat, plan: Plan) | Disables(domain: nat) | RemovesMtaSts(domain: nat) | Forecast(weather: seq<Call>)

  function Do(s: Hosting, op: Op): Hosting {
    match op
    case Enables(domain, plan) => Enable(s, domain, plan).0
    case Disables(domain) => Disable(s, domain).0
    case RemovesMtaSts(domain) => RemoveMtaSts(s, domain).0
    case Forecast(weather) => s.(zone := s.zone.(weather := weather))
  }

  function DoAll(s: Hosting, ops: seq<Op>): Hosting
    decreases |ops|
  {
    if ops == [] then s else DoAll(Do(s, ops[0]), ops[1..])
  }

  predicate HonestOp(op: Op) {
    op.Forecast? ==> Honest(op.weather)
  }

  lemma DoKeepsBooks(s: Hosting, op: Op)
    requires Sound(s.zone)
    ensures Sound(Do(s, op).zone) && Balance(Do(s, op).zone) == Balance(s.zone)
    ensures Covered(s.zone) && HonestOp(op) ==>
      Covered(Do(s, op).zone) && Do(s, op).zone.count - |Do(s, op).zone.records| == s.zone.count - |s.zone.records|
  {
    hide Enable, Disable, RemoveMtaSts;
    match op
    case Enables(domain, plan) => EnableKeeps(s, domain, plan);
    case Disables(domain) => DisableKeeps(s, domain);
    case RemovesMtaSts(domain) => RemoveMtaStsKeeps(s, domain);
    case Forecast(_) =>
  }

  /**
   * The counter against the zone, over any run of enables, disables and MTA-STS removals failing anywhere: their
   * difference is what it was, less creations nobody heard of, plus deletions nobody heard of and decrements of a 0.
   * When every answer arrives and the count did not start below the zone, it never moves.
   */
  lemma {:induction false} CounterFollowsZone(s: Hosting, ops: seq<Op>)
    requires Sound(s.zone)
    ensures Sound(DoAll(s, ops).zone) && Balance(DoAll(s, ops).zone) == Balance(s.zone)
    ensures Covered(s.zone) && (forall i :: 0 <= i < |ops| ==> HonestOp(ops[i])) ==>
      DoAll(s, ops).zone.count - |DoAll(s, ops).zone.records| == s.zone.count - |s.zone.records|
    decreases |ops|
  {
    hide Sound, Balance, Covered, Do;
    if ops != [] {
      DoKeepsBooks(s, ops[0]);
      CounterFollowsZone(Do(s, ops[0]), ops[1..]);
      assert forall i :: 0 <= i < |ops| - 1 ==> ops[1..][i] == ops[i + 1];
    }
  }

  // ----- rows and records -----

  predicate Own(s: Hosting, domain: nat, id: nat)
    requires domain in s.hosted
  {
    id in Ids(Targets(s.hosted[domain], s.apex))
  }

  /** A row's records, where they still exist, sit at its names; it names none twice. */
  ghost predicate RowOk(s: Hosting, domain: nat)
    requires domain in s.hosted
  {
    var targets := Targets(s.hosted[domain], s.apex);
    (forall t :: t in targets ==> t.id < s.zone.nextId && (t.id in s.zone.records ==> s.zone.records[t.id].name == t.name))
    && forall i, j :: 0 <= i < j < |targets| ==> targets[i].id != targets[j].id
  }

  ghost predicate RowsOk(s: Hosting) {
    Sound(s.zone)
    && (forall d :: d in s.hosted ==> RowOk(s, d))
    && forall d, e, id :: d in s.hosted && e in s.hosted && d != e && Own(s, d, id) ==> !Own(s, e, id)
  }

  /** Old records are changed by nobody; new ones have new ids. */
  ghost predicate NoneRenamed(z: Zone, x: Zone) {
    forall id :: id < z.nextId && id in x.records ==> id in z.records && x.records[id] == z.records[id]
  }

  lemma RenamesSelf(z: Zone, x: Zone)
    requires x.records == z.records
    ensures NoneRenamed(z, x)
  {
  }

  lemma RenamesThrough(x: Zone, y: Zone, z: Zone)
    requires NoneRenamed(x, y) && NoneRenamed(y, z) && y.nextId >= x.nextId
    ensures NoneRenamed(x, z)
  {
  }

  lemma RemoveRenamesNone(z: Zone, id: nat, name: string)
    ensures NoneRenamed(z, Remove(z, id, name).0) && Remove(z, id, name).0.nextId == z.nextId
  {
  }

  lemma {:induction false} TakeBackRenamesNone(z: Zone, created: seq<Target>)
    ensures NoneRenamed(z, TakeBack(z, created)) && TakeBack(z, created).nextId == z.nextId
    decreases |created|
  {
    hide Remove;
    if created != [] {
      RemoveRenamesNone(z, created[0].id, created[0].name);
      TakeBackRenamesNone(Taken(z, created[0]), created[1..]);
    }
  }

  lemma {:induction false} DeleteAllRenamesNone(z: Zone, targets: seq<Target>)
    ensures NoneRenamed(z, DeleteAll(z, targets).0) && DeleteAll(z, targets).0.nextId == z.nextId
    decreases |targets|
  {
    hide Remove;
    if targets != [] {
      RemoveRenamesNone(z, targets[0].id, targets[0].name);
      var (y, r) := Remove(z, targets[0].id, targets[0].name);
      DeleteAllRenamesNone(if r.Deleted? then AddCount(y, -1) else y, targets[1..]);
    }
  }

  lemma {:induction false} WriteAllRenamesNone(z: Zone, todo: seq<Rec>)
    ensures NoneRenamed(z, WriteAll(z, todo).0) && WriteAll(z, todo).0.nextId >= z.nextId
    decreases |todo|
  {
    if todo != [] && Create(z, todo[0]).1.Some? {
      WriteAllRenamesNone(AddCount(Create(z, todo[0]).0, 1), todo[1..]);
    }
  }

  lemma DoRenamesNone(s: Hosting, op: Op)
    requires Sound(s.zone)
    ensures NoneRenamed(s.zone, Do(s, op).zone) && Sound(Do(s, op).zone) && Do(s, op).zone.nextId >= s.zone.nextId && Do(s, op).apex == s.apex
  {
    hide Targets, MtaTargets, Todo, Created, NoneRenamed, DeleteAll, TakeBack, WriteAll, RowFor, Balance, Barred;
    DoKeepsBooks(s, op);
    var p := Passed(s.zone);
    RenamesSelf(s.zone, s.zone);
    RenamesSelf(s.zone, p);
    match op
    case Enables(domain, plan) =>
      var todo := Todo(plan, s.apex);
      WriteAllRenamesNone(p, todo);
      WroteSome(p, todo);
      var (z, ids) := WriteAll(p, todo);
      TakeBackRenamesNone(z, Created(todo, ids));
      RenamesThrough(s.zone, p, z);
      RenamesThrough(s.zone, z, TakeBack(z, Created(todo, ids)));
    case Disables(domain) =>
      if domain in s.hosted {
        var targets := Targets(s.hosted[domain], s.apex);
        DeleteAllRenamesNone(p, targets);
        RenamesThrough(s.zone, p, DeleteAll(p, targets).0);
      }
    case RemovesMtaSts(domain) =>
      if domain in s.hosted {
        var targets := MtaTargets(s.hosted[domain], s.apex);
        DeleteAllRenamesNone(p, targets);
        RenamesThrough(s.zone, p, DeleteAll(p, targets).0);
      }
    case Forecast(w) => RenamesSelf(s.zone, s.zone.(weather := w));
  }

  /** What an operation on `op.domain` does to the hosted table. */
  lemma DoTables(s: Hosting, op: Op)
    ensures var t := Do(s, op);
      t.hosted == s.hosted
      || (op.Enables? && op.domain !in s.hosted && Enable(s, op.domain, op.plan).1.Ok?
          && t.hosted == s.hosted[op.domain := Enable(s, op.domain, op.plan).1.value])
      || (op.Disables? && op.domain in s.hosted && t.hosted == s.hosted - {op.domain})
      || (op.RemovesMtaSts? && op.domain in s.hosted && t.hosted == s.hosted[op.domain := s.hosted[op.domain].(mtaTxt := None, mtaHost := None)])
  {
    hide WriteAll, TakeBack, DeleteAll, Created, Todo, Targets, MtaTargets, Barred;
    if op.Enables? && op.domain !in s.hosted {
      assert s.hosted - {op.domain} == s.hosted;
    }
  }

  /** A new row's targets are what was written, in order. */
  lemma RowTargets(plan: Plan, ids: seq<nat>, apex: string)
    requires |ids| == |Todo(plan, "")|
    ensures var todo := Todo(plan, apex); var targets := Targets(RowFor(plan, ids), apex);
      |todo| == |ids| && |targets| == |ids| && forall i :: 0 <= i < |ids| ==> targets[i] == Target(ids[i], todo[i].name)
  {
    hide DmarcName, SpfName, TlsRptName, MtaStsName;
  }

  lemma EnabledRow(s: Hosting, domain: nat, plan: Plan)
    requires Enable(s, domain, plan).1.Ok?
    ensures var (t, r) := Enable(s, domain, plan); var (z, ids) := WriteAll(Passed(s.zone), Todo(plan, s.apex));
      |ids| == |Todo(plan, "")| && r.value == RowFor(plan, ids) && t.zone == z && t.hosted == s.hosted[domain := r.value] && t.apex == s.apex
  {
    hide WriteAll, TakeBack, Created, RowFor, DmarcName, SpfName, TlsRptName, MtaStsName, Barred;
  }

  /** A new row names records made just now, at its own names. */
  lemma NewRow(s: Hosting, domain: nat, plan: Plan)
    requires Sound(s.zone) && Enable(s, domain, plan).1.Ok?
    ensures var (t, r) := Enable(s, domain, plan);
      && t.hosted == s.hosted[domain := r.value] && t.apex == s.apex && RowOk(t, domain)
      && forall id: nat :: Own(t, domain, id) ==> id >= s.zone.nextId
  {
    hide WriteAll, TakeBack, Created, Targets, RowFor, Todo, Enable;
    EnabledRow(s, domain, plan);
    PassedKeeps(s.zone);
    var todo := Todo(plan, s.apex);
    WriteAllKeeps(Passed(s.zone), todo);
    var (z, ids) := WriteAll(Passed(s.zone), todo);
    RowTargets(plan, ids, s.apex);
    var targets := Targets(RowFor(plan, ids), s.apex);
    assert forall t :: t in targets ==> exists i :: 0 <= i < |ids| && t == Target(ids[i], todo[i].name);
  }

  lemma FewerTargets(row: HostedRow, apex: string)
    ensures var less := Targets(row.(mtaTxt := None, mtaHost := None), apex); var all := Targets(row, apex);
      |less| <= |all| && less == all[..|less|]
  {
    hide DmarcName, SpfName, TlsRptName, MtaStsName;
  }

  lemma FewerOk(s: Hosting, t: Hosting, domain: nat)
    requires domain in s.hosted && domain in t.hosted && t.apex == s.apex
    requires t.hosted[domain] == s.hosted[domain].(mtaTxt := None, mtaHost := None)
    requires RowOk(s, domain) && NoneRenamed(s.zone, t.zone) && t.zone.nextId >= s.zone.nextId
    ensures RowOk(t, domain) && forall id: nat :: Own(t, domain, id) ==> Own(s, domain, id)
  {
    hide Targets;
    FewerTargets(s.hosted[domain], s.apex);
    var less, all := Targets(t.hosted[domain], s.apex), Targets(s.hosted[domain], s.apex);
    assert forall u :: u in less ==> u in all;
  }

  lemma SameOk(s: Hosting, t: Hosting, domain: nat)
    requires domain in s.hosted && domain in t.hosted && t.apex == s.apex && t.hosted[domain] == s.hosted[domain]
    requires RowOk(s, domain) && NoneRenamed(s.zone, t.zone) && t.zone.nextId >= s.zone.nextId
    ensures RowOk(t, domain) && forall id: nat :: Own(t, domain, id) <==> Own(s, domain, id)
  {
    hide Targets;
  }

  lemma OwnBelow(s: Hosting, domain: nat)
    requires domain in s.hosted && RowOk(s, domain)
    ensures forall id: nat :: Own(s, domain, id) ==> id < s.zone.nextId
  {
    hide Targets;
  }

  /** Rows keep naming their own records, and only those, whatever the calls do. */
  lemma DoKeepsRows(s: Hosting, op: Op)
    requires RowsOk(s)
    ensures RowsOk(Do(s, op))
  {
    hide Do, Enable, Own, RowOk, NoneRenamed, Sound;
    var t := Do(s, op);
    DoRenamesNone(s, op);
    DoTables(s, op);
    forall d | d in t.hosted
      ensures RowOk(t, d) && (d in s.hosted ==> forall id: nat :: Own(t, d, id) ==> Own(s, d, id))
        && (d !in s.hosted ==> forall id: nat :: Own(t, d, id) ==> id >= s.zone.nextId)
    {
      if d !in s.hosted {
        assert Do(s, op) == Enable(s, op.domain, op.plan).0 by { DoIsEnable(s, op); }
        NewRow(s, op.domain, op.plan);
      } else if t.hosted[d] == s.hosted[d] {
        SameOk(s, t, d);
      } else {
        FewerOk(s, t, d);
      }
    }
    forall d | d in s.hosted ensures forall id: nat :: Own(s, d, id) ==> id < s.zone.nextId {
      OwnBelow(s, d);
    }
  }

  lemma DoIsEnable(s: Hosting, op: Op)
    requires op.Enables?
    ensures Do(s, op) == Enable(s, op.domain, op.plan).0
  {
  }

  lemma {:induction false} RowsStayOk(s: Hosting, ops: seq<Op>)
    requires RowsOk(s)
    ensures RowsOk(DoAll(s, ops))
    decreases |ops|
  {
    hide Do, RowsOk;
    if ops != [] {
      DoKeepsRows(s, ops[0]);
      RowsStayOk(Do(s, ops[0]), ops[1..]);
    }
  }

  /**
   * Disabling can always be finished: after any run from an empty deployment, however many disables failed half-way,
   * one disable with working calls removes the domain and every record of it.
   */
  lemma DisableCanFinish(start: Hosting, ops: seq<Op>, domain: nat)
    requires Sound(start.zone) && start.hosted == map[]
    requires var s := DoAll(start, ops); domain in s.hosted && s.zone.weather == []
    ensures var s := DoAll(start, ops); var (t, r) := Disable(s, domain);
      && r.Ok? && domain !in t.hosted
      && forall u :: u in Targets(s.hosted[domain], s.apex) ==> u.id !in t.zone.records
  {
    hide Do, DoAll, DeleteAll, Targets, Kept, Own;
    RowsStayOk(start, ops);
    var s := DoAll(start, ops);
    assert RowOk(s, domain);
    DeleteAllSucceeds(s.zone, Targets(s.hosted[domain], s.apex));
    DisableKeeps(s, domain);
  }

  lemma MtaTargetsLast(row: HostedRow, apex: string)
    ensures var some := MtaTargets(row, apex); var all := Targets(row, apex);
      |some| <= |all| && forall i :: 0 <= i < |some| ==> some[i] == all[|all| - |some| + i]
  {
    hide MtaTargets;
  }

  /** So can the removal of MTA-STS. */
  lemma RemoveMtaStsCanFinish(start: Hosting, ops: seq<Op>, domain: nat)
    requires Sound(start.zone) && start.hosted == map[]
    requires var s := DoAll(start, ops); domain in s.hosted && s.zone.weather == []
    ensures var s := DoAll(start, ops); var (t, r) := RemoveMtaSts(s, domain);
      && r.Ok? && domain in t.hosted && t.hosted[domain].mtaTxt.None? && t.hosted[domain].mtaHost.None? && domain !in t.mta
      && forall u :: u in MtaTargets(s.hosted[domain], s.apex) ==> u.id !in t.zone.records
  {
    hide Do, DoAll, DeleteAll, Targets, MtaTargets, Kept, Own;
    RowsStayOk(start, ops);
    var s := DoAll(start, ops);
    assert RowOk(s, domain);
    MtaTargetsLast(s.hosted[domain], s.apex);
    assert forall t :: t in MtaTargets(s.hosted[domain], s.apex) ==> t in Targets(s.hosted[domain], s.apex);
    DeleteAllSucceeds(s.zone, MtaTargets(s.hosted[domain], s.apex));
    RemoveMtaStsKeeps(s, domain);
  }

  predicate SameRow(s: Hosting, t: Hosting, d: nat) {
    (d in t.hosted <==> d in s.hosted) && (d in s.hosted ==> t.hosted[d] == s.hosted[d])
    && (d in t.intake <==> d in s.intake) && (d in s.intake ==> t.intake[d] == s.intake[d])
    && (d in t.mta <==> d in s.mta) && (d in s.mta ==> t.mta[d] == s.mta[d])
  }

  lemma OtherRows(s: Hosting, op: Op, d: nat)
    requires !op.Forecast? && op.domain != d
    ensures SameRow(s, Do(s, op), d)
  {
    hide WriteAll, TakeBack, DeleteAll, Created, Todo, Targets, MtaTargets, Barred;
  }

  /** An operation on one domain, failing or not, leaves every other domain's rows and records alone. */
  lemma OthersUntouched(s: Hosting, op: Op, other: nat)
    requires RowsOk(s) && other in s.hosted && !op.Forecast? && op.domain != other
    ensures var t := Do(s, op);
      && SameRow(s, t, other)
      && forall id: nat :: Own(s, other, id) && id in s.zone.records ==> id in t.zone.records && t.zone.records[id] == s.zone.records[id]
  {
    hide Enable, Disable, RemoveMtaSts, Targets, MtaTargets, Kept, NoClamp, SameRow;
    OtherRows(s, op, other);
    match op
    case Enables(domain, plan) => EnableKeeps(s, domain, plan);
    case Disables(domain) =>
      DisableKeeps(s, domain);
      assert domain in s.hosted ==> forall id: nat :: Own(s, other, id) ==> !Own(s, domain, id);
    case RemovesMtaSts(domain) =>
      RemoveMtaStsKeeps(s, domain);
      assert domain in s.hosted ==> forall id: nat :: Own(s, other, id) ==> !Own(s, domain, id);
      if domain in s.hosted {
        MtaAmongTargets(s.hosted[domain], s.apex);
      }
  }

  lemma MtaAmongTargets(row: HostedRow, apex: string)
    ensures Ids(MtaTargets(row, apex)) <= Ids(Targets(row, apex))
  {
    hide MtaTargets;
  }

  // ----- the service, step by step -----

  class Deployment {
    const apex: string
    const cap: nat
    var zone: Zone
    var hosted: map<nat, HostedRow>
    var intake: map<nat, Intake>
    var mta: map<nat, MtaRow>

    constructor (apex: string, cap: nat, zone: Zone)
      ensures State() == Hosting(apex, cap, zone, map[], map[], map[])
    {
      this.apex := apex;
      this.cap := cap;
      this.zone := zone;
      hosted, intake, mta := map[], map[], map[];
    }

    function State(): Hosting
      reads this
    {
      Hosting(apex, cap, zone, hosted, intake, mta)
    }

    /** One call to Cloudflare; its answer is the next of the weather. */
    method Call() returns (call: Call)
      modifies this`zone
      ensures call == Sky(old(zone)) && zone == Passed(old(zone))
    {
      if zone.weather == [] {
        return Works;
      }
      call := zone.weather[0];
      zone := zone.(weather := zone.weather[1..]);
    }

    /** One record created and counted. */
    method Write(rec: Rec) returns (id: Option<nat>)
      modifies this`zone
      ensures var (y, r) := Create(old(zone), rec); id == r && zone == if r.Some? then AddCount(y, 1) else y
    {
      var call := Call();
      if call == Refused {
        return None;
      }
      var newId := zone.nextId;
      zone := zone.(records := zone.records[newId := rec], nextId := newId + 1);
      if call == Lost {
        zone := zone.(unseenCreates := zone.unseenCreates + 1);
        return None;
      }
      zone := AddCount(zone, 1);
      id := Some(newId);
    }

    method RemoveRecord(id: nat, name: string) returns (r: Removal)
      modifies this`zone
      ensures (zone, r) == Remove(old(zone), id, name)
    {
      var read := Call();
      if read != Works {
        return Failed;
      }
      if id !in zone.records {
        return AlreadyGone;
      }
      if zone.records[id].name != name {
        return Failed;
      }
      var call := Call();
      if call == Refused {
        return Failed;
      }
      zone := zone.(records := Without(zone.records, id));
      if call == Lost {
        zone := zone.(unseenDeletes := zone.unseenDeletes + 1);
        return Failed;
      }
      r := Deleted;
    }

    /** Records one after another, until one fails. */
    method WriteRecords(todo: seq<Rec>) returns (ids: seq<nat>)
      modifies this`zone
      ensures (zone, ids) == WriteAll(old(zone), todo)
    {
      hide Create;
      ids := [];
      for i := 0 to |todo|
        invariant WriteAll(old(zone), todo).0 == WriteAll(zone, todo[i..]).0
        invariant WriteAll(old(zone), todo).1 == ids + WriteAll(zone, todo[i..]).1
      {
        assert todo[i..] == [todo[i]] + todo[i + 1..];
        var id := Write(todo[i]);
        if id.None? {
          assert ids + [] == ids;
          return;
        }
        ids := ids + [id.value];
      }
      assert todo[|todo|..] == [] && ids + [] == ids;
    }

    method EnableHosted(domain: nat, plan: Plan) returns (r: Result<HostedRow, Refusal>)
      modifies this
      ensures (State(), r) == Enable(old(State()), domain, plan)
    {
      hide WriteAll, TakeBack, DmarcName, SpfName, TlsRptName, MtaStsName;
      var todo := Todo(plan, apex);
      if domain in hosted {
        return Err(AlreadyEnabled);
      }
      if |hosted| >= cap {
        return Err(TooMany);
      }
      if zone.count + |todo| > PRO_RECORD_LIMIT {
        return Err(ZoneFull);
      }
      var reached := Call();
      if reached != Works {
        return Err(Unavailable);
      }
      hosted := hosted[domain := HostedRow(plan.hostedId, None, None, None, None, None)];
      intake := Rotated(intake, domain, plan.tokenHash);
      WroteSome(zone, todo);
      var ids := WriteRecords(todo);
      if |ids| == |todo| && !(plan.mtaPolicyId.Some? && domain in mta) {
        var row := RowFor(plan, ids);
        if plan.mtaPolicyId.Some? {
          mta := mta[domain := MtaRow("testing", plan.mtaPolicyId.value, row.mtaTxt, row.tlsRpt, row.mtaHost)];
        }
        hosted := hosted[domain := row];
        assert hosted == old(hosted)[domain := row];
        return Ok(row);
      }
      TakeBackAll(Created(todo, ids));
      mta := mta - {domain};
      intake := intake - {domain};
      hosted := hosted - {domain};
      assert hosted == old(hosted) - {domain} && intake == old(intake) - {domain};
      r := Err(Rejected);
    }

    method TakeBackAll(created: seq<Target>)
      modifies this`zone
      ensures zone == TakeBack(old(zone), created)
    {
      hide Remove;
      for i := 0 to |created|
        invariant TakeBack(old(zone), created) == TakeBack(zone, created[i..])
      {
        var r := RemoveRecord(created[i].id, created[i].name);
        if r != Failed {
          zone := AddCount(zone, -1);
        }
      }
    }

    method DeleteTargets(targets: seq<Target>) returns (ok: bool)
      modifies this`zone
      ensures (zone, ok) == DeleteAll(old(zone), targets)
    {
      hide Remove;
      for i := 0 to |targets|
        invariant DeleteAll(old(zone), targets) == DeleteAll(zone, targets[i..])
      {
        var r := RemoveRecord(targets[i].id, targets[i].name);
        if r == Failed {
          return false;
        }
        if r == Deleted {
          zone := AddCount(zone, -1);
        }
      }
      ok := true;
    }

    method DisableHosted(domain: nat) returns (r: Result<(), Refusal>)
      modifies this
      ensures (State(), r) == Disable(old(State()), domain)
    {
      hide DeleteAll, Targets;
      if domain !in hosted {
        return Err(NotEnabled);
      }
      var reached := Call();
      if reached != Works {
        return Err(Unavailable);
      }
      var ok := DeleteTargets(Targets(hosted[domain], apex));
      if !ok {
        return Err(NotRemoved);
      }
      mta := mta - {domain};
      intake := intake - {domain};
      hosted := hosted - {domain};
      r := Ok(());
    }

    method RemoveHostedMtaSts(domain: nat) returns (r: Result<(), Refusal>)
      modifies this
      ensures (State(), r) == RemoveMtaSts(old(State()), domain)
    {
      hide DeleteAll, MtaTargets;
      if domain !in hosted {
        return Err(NotEnabled);
      }
      var reached := Call();
      if reached != Works {
        return Err(Unavailable);
      }
      var ok := DeleteTargets(MtaTargets(hosted[domain], apex));
      if !ok {
        return Err(NotRemoved);
      }
      hosted := hosted[domain := hosted[domain].(mtaTxt := None, mtaHost := None)];
      mta := mta - {domain};
      r := Ok(());
    }
  }
}
