/**
 * A bounded worker pool: up to `limit` workers share one counter over the items. Between two awaits a worker runs
 * undisturbed, so taking the next item is one step; the steps of different workers interleave freely.
 */
module WorkerPool {
  import opened Wrappers

  datatype Worker = Ready | Running(item: nat) | Returned

  /** `handed` lists the items given to the callback, in order; `finished` those whose call has ended. */
  datatype Pool = Pool(items: nat, next: nat, workers: seq<Worker>, handed: seq<nat>, finished: set<nat>)

  datatype Event = Take(w: nat) | Finish(w: nat)

  function Workers(items: nat, limit: int): nat {
    if limit < 0 then 0 else if limit < items then limit else items
  }

  function Start(items: nat, limit: int): Pool {
    Pool(items, 0, seq(Workers(items, limit), i => Ready), [], {})
  }

  /** None: the event cannot happen here. */
  function Step(p: Pool, e: Event): Option<Pool> {
    match e
    case Take(w) =>
      if w >= |p.workers| || !p.workers[w].Ready? then None
      else if p.next < p.items then
        Some(p.(next := p.next + 1, handed := p.handed + [p.next], workers := p.workers[w := Running(p.next)]))
      else Some(p.(workers := p.workers[w := Returned]))
    case Finish(w) =>
      if w >= |p.workers| || !p.workers[w].Running? then None
      else Some(p.(finished := p.finished + {p.workers[w].item}, workers := p.workers[w := Ready]))
  }

  function After(p: Pool, events: seq<Event>): Option<Pool>
    decreases |events|
  {
    if events == [] then Some(p)
    else match Step(p, events[0]) case None => None case Some(q) => After(q, events[1..])
  }

  ghost predicate Inv(p: Pool) {
    p.next <= p.items && |p.handed| == p.next && (forall i :: 0 <= i < p.next ==> p.handed[i] == i)
    && (forall i :: i in p.finished ==> i < p.next)
    && (forall w :: 0 <= w < |p.workers| && p.workers[w].Running? ==> p.workers[w].item < p.next && p.workers[w].item !in p.finished)
    && (forall v, w :: 0 <= v < w < |p.workers| && p.workers[v].Running? && p.workers[w].Running? ==> p.workers[v].item != p.workers[w].item)
    && (forall i :: 0 <= i < p.next && i !in p.finished ==> Held(p, i))
    && (forall w :: 0 <= w < |p.workers| && p.workers[w].Returned? ==> p.next == p.items)
  }

  ghost predicate Held(p: Pool, i: nat) {
    exists w :: 0 <= w < |p.workers| && p.workers[w] == Running(i)
  }

  lemma InvStep(p: Pool, e: Event)
    requires Inv(p) && Step(p, e).Some?
    ensures Inv(Step(p, e).value) && |Step(p, e).value.workers| == |p.workers| && Step(p, e).value.items == p.items
  {
    var q := Step(p, e).value;
    forall i | 0 <= i < q.next && i !in q.finished ensures Held(q, i) {
      if i < p.next {
        assert Held(p, i);
        var w :| 0 <= w < |p.workers| && p.workers[w] == Running(i);
        assert q.workers[w] == Running(i);
      } else {
        assert q.workers[e.w] == Running(i);
      }
    }
  }

  lemma {:induction false} InvAfter(p: Pool, events: seq<Event>)
    requires Inv(p) && After(p, events).Some?
    ensures Inv(After(p, events).value) && |After(p, events).value.workers| == |p.workers| && After(p, events).value.items == p.items
    decreases |events|
  {
    hide Inv, Step;
    if events != [] {
      InvStep(p, events[0]);
      InvAfter(Step(p, events[0]).value, events[1..]);
    }
  }

  ghost predicate AllReturned(p: Pool) {
    forall w :: 0 <= w < |p.workers| ==> p.workers[w].Returned?
  }

  ghost predicate AllFinished(p: Pool) {
    forall i :: 0 <= i < p.items ==> i in p.finished
  }

  function InFlight(p: Pool): set<nat> {
    set w | 0 <= w < |p.workers| && p.workers[w].Running? :: p.workers[w].item
  }

  /**
   * However the workers interleave: the items are handed out in order, each exactly once, with at most min(limit, n)
   * calls in flight. When the pool completes every item has been finished, unless the limit is below 1 and there are
   * items, when it completes at once with none of them touched.
   */
  lemma EachItemOnce(items: nat, limit: int, events: seq<Event>)
    requires After(Start(items, limit), events).Some?
    ensures var p := After(Start(items, limit), events).value;
      && |p.handed| <= items && (forall i :: 0 <= i < |p.handed| ==> p.handed[i] == i)
      && |InFlight(p)| <= items && (limit >= 0 ==> |InFlight(p)| <= limit)
      && (AllReturned(p) ==> (|p.handed| == items && AllFinished(p) <==> limit >= 1 || items == 0))
      && (limit < 1 ==> p == Start(items, limit) && AllReturned(p))
  {
    hide Step, After;
    var p := After(Start(items, limit), events).value;
    InvAfter(Start(items, limit), events);
    InFlightBound(p);
    assert |p.workers| > 0 && AllReturned(p) ==> p.workers[0].Returned?;
    assert AllReturned(p) ==> forall i :: !Held(p, i);
    if limit < 1 {
      NoWorkers(Start(items, limit), events);
    }
  }

  lemma NoWorkers(p: Pool, events: seq<Event>)
    requires p.workers == [] && After(p, events).Some?
    ensures After(p, events).value == p
  {
  }

  lemma InFlightBound(p: Pool)
    ensures |InFlight(p)| <= |p.workers|
  {
    Below(p, |p.workers|);
    assert InFlight(p) == set w | 0 <= w < |p.workers| && p.workers[w].Running? :: p.workers[w].item;
  }

  lemma {:induction false} Below(p: Pool, k: nat)
    requires k <= |p.workers|
    ensures |set w | 0 <= w < k && p.workers[w].Running? :: p.workers[w].item| <= k
  {
    var s := set w | 0 <= w < k && p.workers[w].Running? :: p.workers[w].item;
    if k > 0 {
      Below(p, k - 1);
      var t := set w | 0 <= w < k - 1 && p.workers[w].Running? :: p.workers[w].item;
      assert s <= t + if p.workers[k - 1].Running? then {p.workers[k - 1].item} else {};
      SubsetSize(s, t + if p.workers[k - 1].Running? then {p.workers[k - 1].item} else {});
    }
  }

  lemma {:induction false} SubsetSize(a: set<nat>, b: set<nat>)
    requires a <= b
    ensures |a| <= |b|
  {
    if a != {} {
      var x :| x in a;
      SubsetSize(a - {x}, b - {x});
    }
  }

  // ----- it ends -----

  function Weight(w: Worker): nat {
    match w case Ready => 1 case Running(_) => 2 case Returned => 0
  }

  function WeightOf(workers: seq<Worker>): nat {
    if workers == [] then 0 else Weight(workers[0]) + WeightOf(workers[1..])
  }

  /** Steps the pool can still take, at most. */
  function Left(p: Pool): int {
    3 * (p.items - p.next) + WeightOf(p.workers)
  }

  lemma {:induction false} WeightSet(workers: seq<Worker>, w: nat, x: Worker)
    requires w < |workers|
    ensures WeightOf(workers[w := x]) == WeightOf(workers) - Weight(workers[w]) + Weight(x)
  {
    if w == 0 {
      assert workers[0 := x][1..] == workers[1..];
    } else {
      assert workers[w := x][1..] == workers[1..][w - 1 := x];
      WeightSet(workers[1..], w - 1, x);
    }
  }

  /** While a worker has not returned some event can happen, and every event brings the end closer. */
  lemma PoolProgresses(p: Pool)
    ensures !AllReturned(p) ==> exists e :: Step(p, e).Some?
    ensures forall e :: Step(p, e).Some? ==> Left(Step(p, e).value) < Left(p)
  {
    if w :| 0 <= w < |p.workers| && !p.workers[w].Returned? {
      assert Step(p, if p.workers[w].Ready? then Take(w) else Finish(w)).Some?;
    }
    forall e | Step(p, e).Some? ensures Left(Step(p, e).value) < Left(p) {
      WeightSet(p.workers, e.w, Step(p, e).value.workers[e.w]);
    }
  }

  /** So no run of the pool is longer than three steps per item and one per worker. */
  lemma {:induction false} PoolEnds(p: Pool, events: seq<Event>)
    requires Inv(p) && After(p, events).Some?
    ensures |events| <= Left(p)
    decreases |events|
  {
    hide Step, Inv, Left;
    if events == [] {
      LeftIsNatural(p);
    } else {
      PoolProgresses(p);
      InvStep(p, events[0]);
      PoolEnds(Step(p, events[0]).value, events[1..]);
    }
  }

  lemma LeftIsNatural(p: Pool)
    requires Inv(p)
    ensures Left(p) >= 0
  {
  }

  /** Whatever has happened so far, the pool can go on until all workers have returned. */
  lemma {:induction false} PoolCanFinish(p: Pool) returns (events: seq<Event>)
    requires Inv(p)
    ensures After(p, events).Some? && AllReturned(After(p, events).value)
    decreases Left(p)
  {
    hide Inv, Step, Left, AllReturned;
    events := [];
    if !AllReturned(p) {
      PoolProgresses(p);
      var e :| Step(p, e).Some?;
      LeftIsNatural(p);
      InvStep(p, e);
      LeftIsNatural(Step(p, e).value);
      var rest := PoolCanFinish(Step(p, e).value);
      events := [e] + rest;
      assert events[0] == e && events[1..] == rest;
    }
  }

  /** The bound on calls in flight is reached: the first steps start one call per worker, min(limit, n) in all. */
  lemma BoundIsReached(items: nat, limit: nat) returns (events: seq<Event>)
    ensures var n := if limit < items then limit else items; var q := After(Start(items, limit), events);
      q.Some? && |q.value.workers| == n && |InFlight(q.value)| == n
  {
    var n := if limit < items then limit else items;
    events := AllStart(items, limit, n);
    var q := After(Start(items, limit), events).value;
    FirstRunning(q, n);
    assert InFlight(q) == set w | 0 <= w < n && q.workers[w].Running? :: q.workers[w].item;
  }

  lemma {:induction false} FirstRunning(p: Pool, k: nat)
    requires k <= |p.workers| && forall w :: 0 <= w < k ==> p.workers[w] == Running(w)
    ensures |set w | 0 <= w < k && p.workers[w].Running? :: p.workers[w].item| == k
  {
    var s := set w | 0 <= w < k && p.workers[w].Running? :: p.workers[w].item;
    if k > 0 {
      FirstRunning(p, k - 1);
      var t := set w | 0 <= w < k - 1 && p.workers[w].Running? :: p.workers[w].item;
      assert p.workers[k - 1].item == k - 1;
      assert s == t + {k - 1};
    }
  }

  lemma {:induction false} AllStart(items: nat, limit: nat, k: nat) returns (events: seq<Event>)
    requires k <= items && k <= limit
    ensures var n := if limit < items then limit else items; var q := After(Start(items, limit), events);
      && q.Some? && q.value.next == k && q.value.items == items && |q.value.workers| == n
      && forall w :: 0 <= w < n ==> q.value.workers[w] == if w < k then Running(w) else Ready
  {
    if k == 0 {
      events := [];
    } else {
      var first := AllStart(items, limit, k - 1);
      AfterSnoc(Start(items, limit), first, Take(k - 1));
      events := first + [Take(k - 1)];
    }
  }

  lemma {:induction false} AfterSnoc(p: Pool, events: seq<Event>, e: Event)
    requires After(p, events).Some?
    ensures After(p, events + [e]) == Step(After(p, events).value, e)
    decreases |events|
  {
    hide Step;
    if events == [] {
      assert [] + [e] == [e] && [e][1..] == [];
      assert Step(p, e).Some? ==> After(Step(p, e).value, []) == Step(p, e);
    } else {
      assert (events + [e])[1..] == events[1..] + [e];
      AfterSnoc(Step(p, events[0]).value, events[1..], e);
    }
  }
}
