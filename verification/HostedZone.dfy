/**
 * The operator's records zone as the hosted-records writer sees it: DNS records at Cloudflare, reached by calls that can
 * fail, and our own count of them in the database.
 */
module HostedZone {
  import opened Wrappers

  /** How one Cloudflare call goes. `Lost`: it took effect, but the answer never came. */
  datatype Call = Works | Refused | Lost

  datatype Rec = Rec(name: string, content: string)

  /**
   * `weather` is how the next calls will go (once it runs out they work). The last three fields are the books of this
   * model: creations and deletions nobody heard of, and decrements of a count that was already 0.
   */
  datatype Zone = Zone(records: map<nat, Rec>, nextId: nat, count: nat, weather: seq<Call>,
                       unseenCreates: nat, unseenDeletes: nat, clamped: nat)

  datatype Removal = Deleted | AlreadyGone | Failed

  function Sky(z: Zone): Call {
    if z.weather == [] then Works else z.weather[0]
  }

  function Passed(z: Zone): Zone {
    z.(weather := if z.weather == [] then [] else z.weather[1..])
  }

  predicate Honest(weather: seq<Call>) {
    Lost !in weather
  }

  function Create(z: Zone, rec: Rec): (Zone, Option<nat>) {
    var y := Passed(z);
    if Sky(z).Refused? then (y, None)
    else
      var x := y.(records := y.records[y.nextId := rec], nextId := y.nextId + 1);
      if Sky(z).Lost? then (x.(unseenCreates := x.unseenCreates + 1), None) else (x, Some(y.nextId))
  }

  function Without(records: map<nat, Rec>, id: nat): map<nat, Rec> {
    map i | i in records && i != id :: records[i]
  }

  /** The record is read first and refused unless it sits at the expected name; then it is deleted. */
  function Remove(z: Zone, id: nat, name: string): (Zone, Removal) {
    var y := Passed(z);
    if !Sky(z).Works? then (y, Failed)
    else if id !in y.records then (y, AlreadyGone)
    else if y.records[id].name != name then (y, Failed)
    else
      var x := Passed(y);
      if Sky(y).Refused? then (x, Failed)
      else
        var w := x.(records := Without(x.records, id));
        if Sky(y).Lost? then (w.(unseenDeletes := w.unseenDeletes + 1), Failed) else (w, Deleted)
  }

  /** `MAX(0, count + delta)`. */
  function AddCount(z: Zone, delta: int): Zone
    requires -1 <= delta <= 1
  {
    if z.count + delta < 0 then z.(count := 0, clamped := z.clamped + 1) else z.(count := z.count + delta)
  }

  predicate Sound(z: Zone) {
    forall id :: id in z.records ==> id < z.nextId
  }

  /** The count less the real records, corrected for what nobody heard of and for decrements at 0. */
  function Balance(z: Zone): int {
    z.count - |z.records| + z.unseenCreates - z.unseenDeletes - z.clamped
  }

  lemma WithoutSize(records: map<nat, Rec>, id: nat)
    requires id in records
    ensures |Without(records, id)| == |records| - 1
  {
    assert Without(records, id).Keys == records.Keys - {id};
    assert |Without(records, id).Keys| == |Without(records, id)| && |records.Keys| == |records|;
  }

  lemma NewSize(records: map<nat, Rec>, id: nat, rec: Rec)
    requires id !in records
    ensures |records[id := rec]| == |records| + 1
  {
    assert records[id := rec].Keys == records.Keys + {id};
    assert |records[id := rec].Keys| == |records[id := rec]| && |records.Keys| == |records|;
  }

  // ----- runs of calls -----

  /** Records created one after another, each counted, until one fails: the zone and the ids created. */
  function WriteAll(z: Zone, todo: seq<Rec>): (r: (Zone, seq<nat>))
    decreases |todo|
  {
    if todo == [] then (z, [])
    else
      match Create(z, todo[0])
      case (y, None) => (y, [])
      case (y, Some(id)) =>
        var (x, ids) := WriteAll(AddCount(y, 1), todo[1..]);
        (x, [id] + ids)
  }

  datatype Target = Target(id: nat, name: string)

  /** Taking back what was created: each removal that is not refused is counted off. */
  function TakeBack(z: Zone, created: seq<Target>): Zone
    decreases |created|
  {
    if created == [] then z
    else
      var (y, r) := Remove(z, created[0].id, created[0].name);
      TakeBack(if r.Failed? then y else AddCount(y, -1), created[1..])
  }

  /** Deleting targets until one fails: the zone, and whether all are gone. */
  function DeleteAll(z: Zone, targets: seq<Target>): (Zone, bool)
    decreases |targets|
  {
    if targets == [] then (z, true)
    else
      var (y, r) := Remove(z, targets[0].id, targets[0].name);
      if r.Failed? then (y, false) else DeleteAll(if r.Deleted? then AddCount(y, -1) else y, targets[1..])
  }

  // ----- one call -----

  lemma CreateKeeps(z: Zone, rec: Rec)
    requires Sound(z)
    ensures var (y, id) := Create(z, rec);
      && Sound(y) && y.count == z.count && y.clamped == z.clamped && y.unseenDeletes == z.unseenDeletes && y.nextId >= z.nextId
      && Balance(y) == Balance(z) - (if id.Some? then 1 else 0)
      && (id.Some? ==> id.value == z.nextId && id.value !in z.records && y.records == z.records[id.value := rec] && y.unseenCreates == z.unseenCreates)
      && (Honest(z.weather) ==> Honest(y.weather) && y.unseenCreates == z.unseenCreates && (id.None? ==> y.records == z.records))
  {
    NewSize(z.records, z.nextId, rec);
  }

  lemma RemoveKeeps(z: Zone, id: nat, name: string)
    requires Sound(z)
    ensures var (y, r) := Remove(z, id, name);
      && Sound(y) && y.count == z.count && y.clamped == z.clamped && y.unseenCreates == z.unseenCreates && y.nextId == z.nextId
      && Balance(y) == Balance(z) + (if r.Deleted? then 1 else 0)
      && (r.Deleted? ==> id in z.records && z.records[id].name == name && y.records == Without(z.records, id))
      && (r.AlreadyGone? ==> id !in z.records && y.records == z.records)
      && (y.records == z.records || (id in z.records && z.records[id].name == name && y.records == Without(z.records, id)))
      && (Honest(z.weather) ==> Honest(y.weather) && y.unseenDeletes == z.unseenDeletes && (r.Failed? ==> y.records == z.records))
  {
    if id in z.records {
      WithoutSize(z.records, id);
    }
  }

  // ----- what every run of calls keeps -----

  /** The books stay balanced, ids stay fresh, and without lost answers nothing goes unseen. */
  predicate Kept(z: Zone, x: Zone) {
    Sound(x) && x.nextId >= z.nextId && Balance(x) == Balance(z)
    && (Honest(z.weather) ==> Honest(x.weather) && x.unseenCreates == z.unseenCreates && x.unseenDeletes == z.unseenDeletes)
  }

  /** The count is not below the real records, so no decrement meets a 0. */
  predicate Covered(z: Zone) {
    Honest(z.weather) && z.count >= |z.records|
  }

  predicate NoClamp(z: Zone, x: Zone) {
    Covered(z) ==> Covered(x) && x.clamped == z.clamped
  }

  /** Records of `z` keep their place in `x`, except those in `gone`. */
  ghost predicate Others(z: Zone, x: Zone, gone: set<nat>) {
    forall id :: id in z.records && id !in gone ==> id in x.records && x.records[id] == z.records[id]
  }

  ghost predicate NothingNew(z: Zone, x: Zone, made: set<nat>) {
    forall id :: id in x.records ==> id in z.records || id in made
  }

  function Ids(targets: seq<Target>): set<nat> {
    set t | t in targets :: t.id
  }

  function Elems(ids: seq<nat>): set<nat> {
    set id | id in ids
  }

  lemma Counted(z: Zone, delta: int)
    requires -1 <= delta <= 1
    ensures var x := AddCount(z, delta);
      && Balance(x) == Balance(z) + delta && x.records == z.records && x.weather == z.weather && x.nextId == z.nextId
      && x.unseenCreates == z.unseenCreates && x.unseenDeletes == z.unseenDeletes
      && (z.count + delta >= 0 ==> x.clamped == z.clamped && x.count == z.count + delta)
  {
  }

  /** The new records: fresh, in order, with the content asked for. */
  ghost predicate Made(z: Zone, x: Zone, todo: seq<Rec>, ids: seq<nat>) {
    |ids| <= |todo|
    && (forall i :: 0 <= i < |ids| ==> ids[i] >= z.nextId && ids[i] in x.records && x.records[ids[i]] == todo[i])
    && forall i, j :: 0 <= i < j < |ids| ==> ids[i] < ids[j]
  }

  /** One record created and counted. */
  lemma WriteOneKeeps(z: Zone, rec: Rec)
    requires Sound(z)
    ensures var (y, id) := Create(z, rec); var w := if id.Some? then AddCount(y, 1) else y;
      && Kept(z, w) && NoClamp(z, w) && Others(z, w, {}) && w.count == z.count + (if id.Some? then 1 else 0)
      && (id.Some? ==> id.value == z.nextId && w.nextId > id.value && w.records == z.records[id.value := rec])
      && (Honest(z.weather) && id.None? ==> w.records == z.records)
  {
    hide Create, Balance, AddCount;
    CreateKeeps(z, rec);
    var (y, id) := Create(z, rec);
    Counted(y, 1);
    NewSize(z.records, z.nextId, rec);
    CreateAdds(z, rec);
  }

  lemma CreateAdds(z: Zone, rec: Rec)
    requires Sound(z)
    ensures Others(z, Create(z, rec).0, {})
    ensures Create(z, rec).1.Some? ==> Create(z, rec).0.nextId > z.nextId
  {
  }

  lemma {:induction false} WriteAllKeeps(z: Zone, todo: seq<Rec>)
    requires Sound(z)
    ensures var (x, ids) := WriteAll(z, todo);
      && Kept(z, x) && NoClamp(z, x) && x.count == z.count + |ids|
      && Others(z, x, {}) && (Honest(z.weather) ==> NothingNew(z, x, Elems(ids))) && Made(z, x, todo, ids)
    decreases |todo|
  {
    hide Create, Balance, AddCount, Covered, Honest, Sound;
    if todo != [] {
      WriteOneKeeps(z, todo[0]);
      var (y, id) := Create(z, todo[0]);
      if id.Some? {
        var w := AddCount(y, 1);
        WriteAllKeeps(w, todo[1..]);
        var (x, rest) := WriteAll(w, todo[1..]);
        assert Others(w, x, {}) && Made(w, x, todo[1..], rest);
        FirstMade(z, w, x, todo, id.value, rest);
      }
    }
  }

  lemma FirstMade(z: Zone, w: Zone, x: Zone, todo: seq<Rec>, id: nat, rest: seq<nat>)
    requires todo != [] && id == z.nextId && w.nextId > id && w.records == z.records[id := todo[0]]
    requires Others(w, x, {}) && Made(w, x, todo[1..], rest)
    ensures Made(z, x, todo, [id] + rest)
    ensures NothingNew(w, x, Elems(rest)) ==> NothingNew(z, x, Elems([id] + rest))
  {
    var ids := [id] + rest;
    forall i | 0 <= i < |ids| ensures ids[i] >= z.nextId && ids[i] in x.records && x.records[ids[i]] == todo[i] {
      if i > 0 {
        assert ids[i] == rest[i - 1] && todo[1..][i - 1] == todo[i];
      }
    }
    assert forall k :: k in Elems(rest) ==> k in Elems(ids);
  }

  /** The targets are there, each once, at their names. */
  ghost predicate Present(z: Zone, targets: seq<Target>) {
    (forall i :: 0 <= i < |targets| ==> targets[i].id in z.records && z.records[targets[i].id].name == targets[i].name)
    && forall i, j :: 0 <= i < j < |targets| ==> targets[i].id != targets[j].id
  }

  function Taken(z: Zone, t: Target): Zone {
    var (y, r) := Remove(z, t.id, t.name);
    if r.Failed? then y else AddCount(y, -1)
  }

  lemma TakeOneKeeps(z: Zone, t: Target)
    requires Sound(z) && t.id in z.records && z.records[t.id].name == t.name
    ensures var w := Taken(z, t);
      Kept(z, w) && NoClamp(z, w) && (w.records == z.records || w.records == Without(z.records, t.id))
      && (z.count > 0 ==> w.clamped == z.clamped && w.count >= z.count - 1)
  {
    hide Remove, Balance, AddCount;
    RemoveKeeps(z, t.id, t.name);
    var y := Remove(z, t.id, t.name).0;
    WithoutSize(z.records, t.id);
    Counted(y, -1);
  }

  lemma {:induction false} TakeBackKeeps(z: Zone, created: seq<Target>)
    requires Sound(z) && Present(z, created)
    ensures var x := TakeBack(z, created);
      Kept(z, x) && NoClamp(z, x) && Others(z, x, Ids(created)) && NothingNew(z, x, {})
      && (z.count >= |created| ==> x.clamped == z.clamped)
    decreases |created|
  {
    hide Remove, Balance, AddCount, Taken, Covered, Honest, Sound;
    if created != [] {
      var t := created[0];
      TakeOneKeeps(z, t);
      var w := Taken(z, t);
      assert TakeBack(z, created) == TakeBack(w, created[1..]) by { TakeBackCons(z, created); }
      TakeBackKeeps(w, created[1..]);
      var x := TakeBack(w, created[1..]);
      assert Others(w, x, Ids(created[1..])) && NothingNew(w, x, {});
      assert Ids(created) == {t.id} + Ids(created[1..]);
    }
  }

  lemma TakeBackCons(z: Zone, created: seq<Target>)
    requires created != []
    ensures TakeBack(z, created) == TakeBack(Taken(z, created[0]), created[1..])
  {
  }

  lemma {:induction false} DeleteAllKeeps(z: Zone, targets: seq<Target>)
    requires Sound(z)
    ensures var (x, ok) := DeleteAll(z, targets);
      && Kept(z, x) && NoClamp(z, x) && Others(z, x, Ids(targets)) && NothingNew(z, x, {})
      && (ok ==> forall t :: t in targets ==> t.id !in x.records)
    decreases |targets|
  {
    hide Remove, Balance, AddCount;
    if targets != [] {
      var t := targets[0];
      RemoveKeeps(z, t.id, t.name);
      var (y, r) := Remove(z, t.id, t.name);
      if t.id in z.records {
        WithoutSize(z.records, t.id);
      }
      Counted(y, -1);
      var w := if r.Deleted? then AddCount(y, -1) else y;
      assert Ids(targets) == {t.id} + Ids(targets[1..]);
      if !r.Failed? {
        DeleteAllKeeps(w, targets[1..]);
        var (x, ok) := DeleteAll(w, targets[1..]);
        assert Others(w, x, Ids(targets[1..])) && NothingNew(w, x, {});
        assert t.id !in w.records;
      }
    }
  }

  // ----- when calls work -----

  /** The next `n` calls work. */
  predicate CallsWork(weather: seq<Call>, n: nat) {
    forall i :: 0 <= i < n && i < |weather| ==> weather[i].Works?
  }

  lemma CreateRuns(z: Zone, rec: Rec)
    ensures var (y, id) := Create(z, rec);
      && (id.Some? <==> CallsWork(z.weather, 1))
      && y.weather == (if z.weather == [] then [] else z.weather[1..])
      && AddCount(y, 1).weather == y.weather
  {
  }

  /** Writing goes on exactly to the first call that does not work. */
  lemma {:induction false} WriteAllRuns(z: Zone, todo: seq<Rec>)
    ensures var (x, ids) := WriteAll(z, todo);
      && |ids| <= |todo| && CallsWork(z.weather, |ids|) && (|ids| == |todo| <==> CallsWork(z.weather, |todo|))
      && (if |ids| < |todo| then |ids| < |z.weather| && !z.weather[|ids|].Works? && x.weather == z.weather[|ids| + 1..]
          else x.weather == if |todo| < |z.weather| then z.weather[|todo|..] else [])
    decreases |todo|
  {
    hide Create, AddCount;
    if todo == [] {
      assert z.weather[0..] == z.weather;
    } else {
      CreateRuns(z, todo[0]);
      var (y, id) := Create(z, todo[0]);
      if id.Some? {
        WriteAllRuns(AddCount(y, 1), todo[1..]);
        assert forall i :: 0 < i < |z.weather| ==> z.weather[i] == y.weather[i - 1];
      }
    }
  }

  lemma TakeOneWorks(z: Zone, t: Target)
    requires t.id in z.records && z.records[t.id].name == t.name && CallsWork(z.weather, |z.weather|) && z.count > 0
    ensures var w := Taken(z, t);
      w.records == Without(z.records, t.id) && w.count == z.count - 1 && CallsWork(w.weather, |w.weather|)
  {
  }

  /** Taking back with working calls takes back everything. */
  lemma {:induction false} TakeBackWorks(z: Zone, created: seq<Target>)
    requires Present(z, created) && CallsWork(z.weather, |z.weather|) && z.count >= |created|
    ensures var x := TakeBack(z, created);
      && x.count == z.count - |created|
      && (forall t :: t in created ==> t.id !in x.records)
      && forall id :: id in x.records ==> id in z.records
    decreases |created|
  {
    hide Taken;
    if created != [] {
      var w := Taken(z, created[0]);
      TakeOneWorks(z, created[0]);
      TakeBackCons(z, created);
      assert Present(w, created[1..]);
      TakeBackWorks(w, created[1..]);
    }
  }

  /** What was made and is all taken back leaves nothing. */
  lemma NothingLeft(z: Zone, p: Zone, x: Zone, y: Zone, ids: seq<nat>, created: seq<Target>)
    requires p.records == z.records && NothingNew(p, x, Elems(ids)) && NothingNew(x, y, {}) && Others(z, y, {})
    requires forall id :: id in ids ==> exists t :: t in created && t.id == id
    requires forall t :: t in created ==> t.id !in y.records
    ensures y.records == z.records
  {
    assert forall id :: id in Elems(ids) ==> id in ids && id !in y.records;
  }

  /** When calls work, deleting stops only at a record that sits at another name. */
  lemma {:induction false} DeleteAllSucceeds(z: Zone, targets: seq<Target>)
    requires z.weather == [] && forall i, j :: 0 <= i < j < |targets| ==> targets[i].id != targets[j].id
    ensures DeleteAll(z, targets).1 <==> forall t :: t in targets && t.id in z.records ==> z.records[t.id].name == t.name
    decreases |targets|
  {
    if targets != [] {
      var t := targets[0];
      var (y, r) := Remove(z, t.id, t.name);
      var w := if r.Deleted? then AddCount(y, -1) else y;
      if !r.Failed? {
        DeleteAllSucceeds(w, targets[1..]);
        assert forall u :: u in targets <==> u == t || u in targets[1..];
      }
    }
  }
}
