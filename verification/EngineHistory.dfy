/**
 Where events come from and what becomes of them, over the interleaved runs of the worker
 protocol: what is queued or held for a job was added for that job, in that order, and not before
 its time; and nothing that was added gets lost.
 */
module EngineHistory {
  import opened Options
  import opened EventQueue
  import opened Scheduler
  import opened Engine
  import opened EngineProofs
  import opened EngineProgress

  // ----- Where events come from

  /** Some step before the `n`th has delayed the event. */
  ghost predicate DelayedBefore(steps: seq<Step>, n: nat, x: Timer) {
    exists d: nat :: d < n && d < |steps| && steps[d] == PostDelayed(x.event, x.job, x.time)
  }

  /** Step `k` of the run from `s` is the timer thread moving the delayed event `x`. */
  ghost predicate ExpiresAt(s: State, steps: seq<Step>, k: nat, x: Timer) {
    && k < |steps| && steps[k].Expire?
    && exists u :: Runs(s, steps[..k], u) && steps[k].i < |u.delayed| && u.delayed[steps[k].i] == x
  }

  /** Step `k` moves an event that was delayed for this job, at its time or later. */
  ghost predicate ComesDue(s: State, steps: seq<Step>, k: nat, e: Event, j: JobId) {
    exists x: Timer :: x.event == e && x.job == j && ExpiresAt(s, steps, k, x)
      && x.time <= steps[k].now && DelayedBefore(steps, k, x)
  }

  /** Step `k` adds event `e` to the queue of job `j`: it is posted there, or comes due. */
  ghost predicate Arrives(s: State, steps: seq<Step>, k: nat, e: Event, j: JobId) {
    k < |steps| && ((steps[k].Post? && steps[k].e == e && steps[k].j == j) || ComesDue(s, steps, k, e, j))
  }

  predicate Increasing(ks: seq<nat>) { forall i, j :: 0 <= i < j < |ks| ==> ks[i] < ks[j] }

  ghost predicate ArrivedAt(s: State, steps: seq<Step>, ks: seq<nat>, q: seq<Event>, j: JobId) {
    |ks| == |q| && Increasing(ks) && forall i :: 0 <= i < |q| ==> Arrives(s, steps, ks[i], q[i], j)
  }

  /** The events have arrived for the job one after the other. */
  ghost predicate ArrivedInOrder(s: State, steps: seq<Step>, q: seq<Event>, j: JobId) {
    exists ks: seq<nat> :: ArrivedAt(s, steps, ks, q, j)
  }

  /** Every queue holds events that have arrived for its job, oldest first; an event being worked on
      has arrived for the job before everything still in its queue; and every delayed event has been
      delayed for just that job and time. */
  ghost predicate History(s: State, steps: seq<Step>, t: State) {
    && (forall j :: j in t.jobs ==> ArrivedInOrder(s, steps, t.jobs[j].events, j))
    && (forall w :: 0 <= w < |t.workers| && t.workers[w].Holding? && t.workers[w].job in t.jobs ==>
          ArrivedInOrder(s, steps, [t.workers[w].event] + t.jobs[t.workers[w].job].events, t.workers[w].job))
    && (forall i :: 0 <= i < |t.delayed| ==> DelayedBefore(steps, |steps|, t.delayed[i]))
  }

  lemma DelayedStill(steps: seq<Step>, step: Step, x: Timer)
    requires DelayedBefore(steps, |steps|, x)
    ensures DelayedBefore(steps + [step], |steps|, x) && DelayedBefore(steps + [step], |steps| + 1, x)
  {
    var d: nat :| d < |steps| && steps[d] == PostDelayed(x.event, x.job, x.time);
    assert (steps + [step])[d] == steps[d];
  }

  lemma ArrivesStill(s: State, steps: seq<Step>, step: Step, k: nat, e: Event, j: JobId)
    requires Arrives(s, steps, k, e, j)
    ensures Arrives(s, steps + [step], k, e, j)
  {
    hide Runs;
    var more := steps + [step];
    assert more[k] == steps[k] && more[..k] == steps[..k];
    if ComesDue(s, steps, k, e, j) {
      var x: Timer :| x.event == e && x.job == j && ExpiresAt(s, steps, k, x)
        && x.time <= steps[k].now && DelayedBefore(steps, k, x);
      var d: nat :| d < k && steps[d] == PostDelayed(x.event, x.job, x.time);
      assert more[d] == steps[d];
      assert ExpiresAt(s, more, k, x) && DelayedBefore(more, k, x);
    }
  }

  lemma OrderStill(s: State, steps: seq<Step>, step: Step, q: seq<Event>, j: JobId)
    requires ArrivedInOrder(s, steps, q, j)
    ensures ArrivedInOrder(s, steps + [step], q, j)
  {
    hide Arrives;
    var ks: seq<nat> :| ArrivedAt(s, steps, ks, q, j);
    forall i | 0 <= i < |q|
      ensures Arrives(s, steps + [step], ks[i], q[i], j)
    {
      ArrivesStill(s, steps, step, ks[i], q[i], j);
    }
    assert ArrivedAt(s, steps + [step], ks, q, j);
  }

  lemma OrderOfPrefix(s: State, steps: seq<Step>, q: seq<Event>, r: seq<Event>, j: JobId)
    requires ArrivedInOrder(s, steps, q, j) && r <= q
    ensures ArrivedInOrder(s, steps, r, j)
  {
    hide Arrives;
    var ks: seq<nat> :| ArrivedAt(s, steps, ks, q, j);
    assert ArrivedAt(s, steps, ks[..|r|], r, j);
  }

  lemma OrderOfSuffix(s: State, steps: seq<Step>, q: seq<Event>, j: JobId)
    requires ArrivedInOrder(s, steps, q, j) && q != []
    ensures ArrivedInOrder(s, steps, q[1..], j)
  {
    hide Arrives;
    var ks: seq<nat> :| ArrivedAt(s, steps, ks, q, j);
    assert ArrivedAt(s, steps, ks[1..], q[1..], j);
  }

  lemma OrderWithout(s: State, steps: seq<Step>, q: seq<Event>, i: nat, j: JobId)
    requires ArrivedInOrder(s, steps, q, j) && i < |q|
    ensures ArrivedInOrder(s, steps, Without(q, i), j)
  {
    hide Arrives;
    var ks: seq<nat> :| ArrivedAt(s, steps, ks, q, j);
    assert ArrivedAt(s, steps, Without(ks, i), Without(q, i), j);
  }

  lemma ArrivesInTime(s: State, steps: seq<Step>, k: nat, e: Event, j: JobId)
    requires Arrives(s, steps, k, e, j)
    ensures k < |steps|
  {
  }

  /** The step that adds an event adds it behind everything that has arrived before. */
  lemma OrderOfNext(s: State, steps: seq<Step>, step: Step, q: seq<Event>, e: Event, j: JobId)
    requires ArrivedInOrder(s, steps, q, j) && Arrives(s, steps + [step], |steps|, e, j)
    ensures ArrivedInOrder(s, steps + [step], q + [e], j)
  {
    hide Arrives;
    var ks: seq<nat> :| ArrivedAt(s, steps, ks, q, j);
    var more: seq<nat> := ks + [|steps|];
    forall i | 0 <= i < |q|
      ensures ks[i] < |steps| && Arrives(s, steps + [step], ks[i], q[i], j)
    {
      ArrivesInTime(s, steps, ks[i], q[i], j);
      ArrivesStill(s, steps, step, ks[i], q[i], j);
    }
    assert ArrivedAt(s, steps + [step], more, q + [e], j);
  }

  // ----- Every step keeps the history

  lemma PostArrives(s: State, past: seq<Step>, e: Event, j: JobId, wake: nat)
    ensures Arrives(s, past + [Post(e, j, wake)], |past|, e, j)
  {
  }

  lemma ExpiryArrives(s: State, past: seq<Step>, u: State, step: Step)
    requires Runs(s, past, u) && step.Expire? && Enabled(u, step)
    requires DelayedBefore(past, |past|, u.delayed[step.i])
    ensures Arrives(s, past + [step], |past|, u.delayed[step.i].event, u.delayed[step.i].job)
  {
    hide Runs;
    var steps, x := past + [step], u.delayed[step.i];
    assert steps[..|past|] == past && steps[|past|] == step;
    DelayedStill(past, step, x);
    assert ExpiresAt(s, steps, |past|, x);
  }

  lemma EnqueueEffect(u: State, e: Event, j: JobId, wake: nat)
    requires j in u.jobs && Signals(u, wake)
    ensures var v := Enqueue(u, e, j, wake);
            && v.delayed == u.delayed && v.jobs.Keys == u.jobs.Keys && |v.workers| == |u.workers|
            && (forall i :: i in u.jobs && i != j ==> v.jobs[i] == u.jobs[i])
            && v.jobs[j].events <= u.jobs[j].events + [e]
            && (forall w :: 0 <= w < |u.workers| && v.workers[w].Holding? ==> v.workers[w] == u.workers[w])
  {
    hide Dedupe;
  }

  lemma HistoryOfEnqueue(s: State, past: seq<Step>, u: State, step: Step, e: Event, j: JobId, wake: nat)
    requires History(s, past, u) && j in u.jobs && Signals(u, wake)
    requires Arrives(s, past + [step], |past|, e, j)
    ensures History(s, past + [step], Enqueue(u, e, j, wake))
  {
    hide Enqueue, Arrives, ArrivedInOrder, DelayedBefore;
    var v, steps := Enqueue(u, e, j, wake), past + [step];
    EnqueueEffect(u, e, j, wake);
    forall i | i in v.jobs
      ensures ArrivedInOrder(s, steps, v.jobs[i].events, i)
    {
      if i == j {
        OrderOfNext(s, past, step, u.jobs[j].events, e, j);
        OrderOfPrefix(s, steps, u.jobs[j].events + [e], v.jobs[j].events, j);
      } else {
        OrderStill(s, past, step, u.jobs[i].events, i);
      }
    }
    forall w | 0 <= w < |v.workers| && v.workers[w].Holding? && v.workers[w].job in v.jobs
      ensures ArrivedInOrder(s, steps, [v.workers[w].event] + v.jobs[v.workers[w].job].events, v.workers[w].job)
    {
      var i, held := u.workers[w].job, [u.workers[w].event];
      assert v.workers[w] == u.workers[w];
      if i == j {
        OrderOfNext(s, past, step, held + u.jobs[j].events, e, j);
        assert held + u.jobs[j].events + [e] == held + (u.jobs[j].events + [e]);
        OrderOfPrefix(s, steps, held + (u.jobs[j].events + [e]), held + v.jobs[j].events, j);
      } else {
        OrderStill(s, past, step, held + u.jobs[i].events, i);
      }
    }
    forall i | 0 <= i < |v.delayed|
      ensures DelayedBefore(steps, |steps|, v.delayed[i])
    {
      DelayedStill(past, step, u.delayed[i]);
    }
  }

  /** A step that leaves the queues and the held events as they are. */
  lemma HistoryStill(s: State, past: seq<Step>, u: State, step: Step, v: State)
    requires History(s, past, u) && v.jobs.Keys == u.jobs.Keys && |v.workers| == |u.workers|
    requires forall j :: j in u.jobs ==> v.jobs[j].events == u.jobs[j].events
    requires forall w :: 0 <= w < |u.workers| && v.workers[w].Holding? ==> v.workers[w] == u.workers[w]
    requires forall i :: 0 <= i < |v.delayed| ==> DelayedBefore(past + [step], |past| + 1, v.delayed[i])
    ensures History(s, past + [step], v)
  {
    hide Arrives, ArrivedInOrder, DelayedBefore;
    forall j | j in v.jobs
      ensures ArrivedInOrder(s, past + [step], v.jobs[j].events, j)
    {
      OrderStill(s, past, step, u.jobs[j].events, j);
    }
    forall w | 0 <= w < |v.workers| && v.workers[w].Holding? && v.workers[w].job in v.jobs
      ensures var j := v.workers[w].job;
              ArrivedInOrder(s, past + [step], [v.workers[w].event] + v.jobs[j].events, j)
    {
      var j := u.workers[w].job;
      assert v.workers[w] == u.workers[w];
      OrderStill(s, past, step, [u.workers[w].event] + u.jobs[j].events, j);
    }
  }

  lemma AllDelayedStill(s: State, past: seq<Step>, u: State, step: Step)
    requires History(s, past, u)
    ensures forall i :: 0 <= i < |u.delayed| ==> DelayedBefore(past + [step], |past| + 1, u.delayed[i])
  {
    hide DelayedBefore;
    forall i | 0 <= i < |u.delayed|
      ensures DelayedBefore(past + [step], |past| + 1, u.delayed[i])
    {
      DelayedStill(past, step, u.delayed[i]);
    }
  }

  lemma HistoryOfPick(s: State, past: seq<Step>, u: State, w: nat)
    requires Inv(u) && History(s, past, u) && Enabled(u, Look(w))
    requires u.workers[w].at < |u.workers[w].order| && Eligible(u.jobs, u.workers[w].order[u.workers[w].at])
    ensures History(s, past + [Look(w)], After(u, Look(w)))
  {
    hide Arrives, ArrivedInOrder, DelayedBefore, Entered, MutexHeld, OnePlaceEach, WorkConserved;
    var step, v := Look(w), After(u, Look(w));
    var j := u.workers[w].order[u.workers[w].at];
    var q := u.jobs[j].events;
    assert [q[0]] + q[1..] == q;
    forall i | i in v.jobs
      ensures ArrivedInOrder(s, past + [step], v.jobs[i].events, i)
    {
      OrderStill(s, past, step, u.jobs[i].events, i);
      if i == j {
        OrderOfSuffix(s, past + [step], q, j);
      }
    }
    forall x | 0 <= x < |v.workers| && v.workers[x].Holding? && v.workers[x].job in v.jobs
      ensures var i := v.workers[x].job;
              ArrivedInOrder(s, past + [step], [v.workers[x].event] + v.jobs[i].events, i)
    {
      if x == w {
        OrderStill(s, past, step, q, j);
      } else {
        assert u.jobs[u.workers[x].job].busy;
        OrderStill(s, past, step, [u.workers[x].event] + u.jobs[u.workers[x].job].events, u.workers[x].job);
      }
    }
    AllDelayedStill(s, past, u, step);
  }

  lemma HistoryOfRemoval(s: State, past: seq<Step>, u: State, j: JobId, i: nat)
    requires History(s, past, u) && Proper(u.groups) && Enabled(u, RemoveQueued(j, i))
    ensures History(s, past + [RemoveQueued(j, i)], After(u, RemoveQueued(j, i)))
  {
    hide Arrives, ArrivedInOrder, DelayedBefore;
    var step := RemoveQueued(j, i);
    var v := After(u, step);
    var q := u.jobs[j].events;
    forall k | k in v.jobs
      ensures ArrivedInOrder(s, past + [step], v.jobs[k].events, k)
    {
      OrderStill(s, past, step, u.jobs[k].events, k);
      if k == j {
        OrderWithout(s, past + [step], q, i, j);
      }
    }
    forall x | 0 <= x < |v.workers| && v.workers[x].Holding? && v.workers[x].job in v.jobs
      ensures var k := v.workers[x].job;
              ArrivedInOrder(s, past + [step], [v.workers[x].event] + v.jobs[k].events, k)
    {
      var held, k := [u.workers[x].event], u.workers[x].job;
      OrderStill(s, past, step, held + u.jobs[k].events, k);
      if k == j {
        OrderWithout(s, past + [step], held + q, i + 1, j);
        assert Without(held + q, i + 1) == held + Without(q, i);
      }
    }
    AllDelayedStill(s, past, u, step);
  }

  lemma StepKeepsHistory(s: State, past: seq<Step>, u: State, step: Step)
    requires Inv(u) && Runs(s, past, u) && History(s, past, u) && Enabled(u, step)
    ensures History(s, past + [step], After(u, step))
  {
    hide Arrives, DelayedBefore, Runs, Dedupe, Enqueue, ScanOrder, History, Entered;
    hide MutexHeld, OnePlaceEach, WorkConserved, BusyIsHeld, Signals;
    AllDelayedStill(s, past, u, step);
    match step {
      case Post(e, j, wake) =>
        PostArrives(s, past, e, j, wake);
        HistoryOfEnqueue(s, past, u, step, e, j, wake);
      case Expire(i, now, wake) => HistoryOfExpiry(s, past, u, step);
      case Look(w) =>
        if u.workers[w].at < |u.workers[w].order| && Eligible(u.jobs, u.workers[w].order[u.workers[w].at]) {
          HistoryOfPick(s, past, u, w);
        } else {
          HistoryStill(s, past, u, step, After(u, step));
        }
      case RemoveQueued(j, i) => HistoryOfRemoval(s, past, u, j, i);
      case PostDelayed(e, j, time) =>
        DelayedNow(past, e, j, time);
        HistoryStill(s, past, u, step, After(u, step));
      case _ => HistoryStill(s, past, u, step, After(u, step));
    }
  }

  lemma DelayedNow(past: seq<Step>, e: Event, j: JobId, time: int)
    ensures DelayedBefore(past + [PostDelayed(e, j, time)], |past| + 1, Timer(e, j, time))
  {
    assert (past + [PostDelayed(e, j, time)])[|past|] == PostDelayed(e, j, time);
  }

  lemma HistoryOfExpiry(s: State, past: seq<Step>, u: State, step: Step)
    requires Inv(u) && Runs(s, past, u) && History(s, past, u) && step.Expire? && Enabled(u, step)
    ensures History(s, past + [step], After(u, step))
  {
    hide Arrives, ArrivedInOrder, DelayedBefore, Runs, Enqueue, Inv;
    var x := u.delayed[step.i];
    var v := u.(delayed := Without(u.delayed, step.i));
    ExpiryArrives(s, past, u, step);
    assert Sleepers(v) == Sleepers(u);
    HistoryOfEnqueue(s, past, v, step, x.event, x.job, step.wake);
  }

  lemma {:induction false} HistoryOn(s: State, past: seq<Step>, u: State, steps: seq<Step>, t: State)
    requires Inv(u) && Runs(s, past, u) && History(s, past, u) && Runs(u, steps, t)
    ensures History(s, past + steps, t)
    decreases |steps|
  {
    hide Inv, History, After, Enabled;
    if steps == [] {
      assert past + steps == past;
    } else {
      var next := After(u, steps[0]);
      StepKeepsInv(u, steps[0]);
      StepKeepsHistory(s, past, u, steps[0]);
      RunOne(u, steps[0]);
      RunOn(s, past, u, [steps[0]], next);
      HistoryOn(s, past + [steps[0]], next, steps[1..], t);
      assert past + [steps[0]] + steps[1..] == past + steps;
    }
  }

  lemma NoHistory(s: State)
    requires Initial(s)
    ensures History(s, [], s)
  {
    forall j | j in s.jobs
      ensures ArrivedInOrder(s, [], s.jobs[j].events, j)
    {
      assert ArrivedAt(s, [], [], s.jobs[j].events, j);
    }
  }

  /** After every run every event in a queue or in a worker's hands was added for just that job --
      posted, or delayed for it and moved at its time or later -- and the events of a job are queued
      and taken in the order in which they arrived; every delayed event is for the job and the time
      it was delayed for. */
  lemma FirstInFirstOut(s: State, steps: seq<Step>, t: State)
    requires Initial(s) && Runs(s, steps, t)
    ensures History(s, steps, t)
  {
    hide History, Runs;
    InvInitially(s);
    NoHistory(s);
    NothingRuns(s);
    HistoryOn(s, [], s, steps, t);
    assert [] + steps == steps;
  }

  lemma NothingRuns(s: State)
    ensures Runs(s, [], s)
  {
  }

  // ----- What becomes of events

  ghost predicate Present(t: State, e: Event, j: JobId) {
    j in t.jobs && (e in t.jobs[j].events || exists w: nat :: w < |t.workers| && t.workers[w] == Holding(j, e))
  }

  /** Deduplicating the queue drops the event. */
  predicate DroppedFrom(q: seq<Event>, e: Event) { e in q[|Dedupe(q)|..] }

  /** In state `u` this step is the end of event `e` of job `j`: the worker is done with it, it is
      removed, or deduplication drops it when another one is added. */
  predicate Ends(u: State, step: Step, e: Event, j: JobId) {
    match step
    case Finish(w) => w < |u.workers| && u.workers[w] == Holding(j, e)
    case RemoveQueued(k, i) => k == j && j in u.jobs && i < |u.jobs[j].events| && u.jobs[j].events[i] == e
    case Post(x, k, _) => k == j && j in u.jobs && DroppedFrom(u.jobs[j].events + [x], e)
    case Expire(i, _, _) =>
      i < |u.delayed| && u.delayed[i].job == j && j in u.jobs
      && DroppedFrom(u.jobs[j].events + [u.delayed[i].event], e)
    case _ => false
  }

  ghost predicate EndsAt(s: State, steps: seq<Step>, l: nat, e: Event, j: JobId) {
    l < |steps| && exists u :: Runs(s, steps[..l], u) && Ends(u, steps[l], e, j)
  }

  /** The step adds the event to the queue of the job. */
  predicate Enters(u: State, step: Step, e: Event, j: JobId) {
    || (step.Post? && step.e == e && step.j == j)
    || (step.Expire? && step.i < |u.delayed| && u.delayed[step.i].event == e && u.delayed[step.i].job == j)
  }

  lemma PrefixKeepsRest<T>(full: seq<T>, kept: seq<T>, e: T)
    requires kept <= full && e in full
    ensures e in kept || e in full[|kept|..]
  {
    var i :| 0 <= i < |full| && full[i] == e;
    assert i < |kept| ==> kept[i] == e;
    assert i >= |kept| ==> full[|kept|..][i - |kept|] == e;
  }

  lemma EnqueueKeepsOrDrops(u: State, x: Event, k: JobId, wake: nat, e: Event, j: JobId)
    requires k in u.jobs && Signals(u, wake) && (Present(u, e, j) || (x == e && k == j))
    ensures Present(Enqueue(u, x, k, wake), e, j) || (k == j && DroppedFrom(u.jobs[j].events + [x], e))
  {
    hide Dedupe;
    var v := Enqueue(u, x, k, wake);
    if w: nat :| w < |u.workers| && u.workers[w] == Holding(j, e) {
      assert v.workers[w] == Holding(j, e);
    }
    if k == j {
      var full := u.jobs[j].events + [x];
      if e in full {
        PrefixKeepsRest(full, Dedupe(full), e);
      }
    }
  }

  lemma WithoutKeepsOthers<T>(q: seq<T>, i: nat, e: T)
    requires i < |q| && e in q
    ensures e in Without(q, i) || q[i] == e
  {
    var k :| 0 <= k < |q| && q[k] == e;
    if k < i {
      assert Without(q, i)[k] == e;
    } else if k > i {
      assert Without(q, i)[k - 1] == e;
    }
  }

  /** An event of a job stays with the job until a step is its end. */
  lemma StaysOrEnds(u: State, step: Step, e: Event, j: JobId)
    requires Inv(u) && Enabled(u, step) && (Present(u, e, j) || Enters(u, step, e, j))
    ensures Present(After(u, step), e, j) || Ends(u, step, e, j)
  {
    hide Inv, DroppedFrom, Enqueue, Present, Entered;
    InvMeans(u);
    match step {
      case Post(x, k, wake) => EnqueueKeepsOrDrops(u, x, k, wake, e, j);
      case Expire(i, now, wake) =>
        var v := u.(delayed := Without(u.delayed, i));
        assert Sleepers(v) == Sleepers(u);
        PresentDespiteTimers(u, v, e, j);
        EnqueueKeepsOrDrops(v, u.delayed[i].event, u.delayed[i].job, wake, e, j);
      case _ => OthersKeepOrEnd(u, step, e, j);
    }
  }

  lemma InvMeans(u: State)
    requires Inv(u)
    ensures Proper(u.groups)
  {
  }

  lemma PresentDespiteTimers(u: State, v: State, e: Event, j: JobId)
    requires v.jobs == u.jobs && v.workers == u.workers
    ensures Present(v, e, j) == Present(u, e, j)
  {
  }

  lemma OthersKeepOrEnd(u: State, step: Step, e: Event, j: JobId)
    requires Proper(u.groups) && Enabled(u, step) && !step.Post? && !step.Expire? && Present(u, e, j)
    ensures Present(After(u, step), e, j) || Ends(u, step, e, j)
  {
    hide Entered, ScanOrder;
    var v := After(u, step);
    if w: nat :| w < |u.workers| && u.workers[w] == Holding(j, e) {
      assert v.workers[w] == Holding(j, e) || Ends(u, step, e, j);
    }
    if e in u.jobs[j].events {
      match step {
        case Look(w) => PickKeeps(u, w, e, j);
        case RemoveQueued(k, i) => if k == j { WithoutKeepsOthers(u.jobs[j].events, i, e); }
        case _ =>
      }
    }
  }

  lemma PickKeeps(u: State, w: nat, e: Event, j: JobId)
    requires Proper(u.groups) && Enabled(u, Look(w)) && j in u.jobs && e in u.jobs[j].events
    ensures Present(After(u, Look(w)), e, j)
  {
    hide Entered;
    var v := After(u, Look(w));
    var q := u.jobs[j].events;
    if v.jobs != u.jobs {
      assert e in v.jobs[j].events || (e == q[0] && v.workers[w] == Holding(j, e)) by {
        assert [q[0]] + q[1..] == q;
      }
    }
  }

  lemma {:induction false} PresentOrEnded(s: State, past: seq<Step>, u: State, steps: seq<Step>, t: State,
                                          e: Event, j: JobId)
    requires Inv(u) && Runs(s, past, u) && Runs(u, steps, t) && Present(u, e, j)
    ensures Present(t, e, j) || exists l: nat :: l >= |past| && EndsAt(s, past + steps, l, e, j)
    decreases |steps|
  {
    hide Inv, Present, Ends, After, Enabled;
    if steps != [] {
      var next := After(u, steps[0]);
      StaysOrEnds(u, steps[0], e, j);
      if Ends(u, steps[0], e, j) {
        EndsHere(s, past, u, steps, e, j);
      } else {
        StepKeepsInv(u, steps[0]);
        RunOne(u, steps[0]);
        RunOn(s, past, u, [steps[0]], next);
        assert past + [steps[0]] + steps[1..] == past + steps;
        PresentOrEnded(s, past + [steps[0]], next, steps[1..], t, e, j);
      }
    }
  }

  lemma EndsHere(s: State, past: seq<Step>, u: State, steps: seq<Step>, e: Event, j: JobId)
    requires Runs(s, past, u) && steps != [] && Ends(u, steps[0], e, j)
    ensures EndsAt(s, past + steps, |past|, e, j)
  {
    assert (past + steps)[..|past|] == past && (past + steps)[|past|] == steps[0];
  }

  /** The state a run has reached after `k` steps. */
  lemma {:induction false} Halfway(s: State, steps: seq<Step>, t: State, k: nat) returns (u: State)
    requires Runs(s, steps, t) && k <= |steps|
    ensures Runs(s, steps[..k], u) && Runs(u, steps[k..], t)
    decreases k
  {
    hide After, Enabled;
    if k == 0 {
      u := s;
      assert steps[..0] == [] && steps[0..] == steps;
    } else {
      u := Halfway(After(s, steps[0]), steps[1..], t, k - 1);
      assert steps[..k][1..] == steps[1..][..k - 1] && steps[1..][k - 1..] == steps[k..];
    }
  }

  /** After every run: whatever has arrived for a job is still in its queue or in the hands of
      a worker of this job, unless a worker has finished it, it has been removed, or deduplication
      has dropped it. */
  lemma NothingIsLost(s: State, steps: seq<Step>, t: State, k: nat, e: Event, j: JobId)
    requires Initial(s) && Runs(s, steps, t) && Arrives(s, steps, k, e, j)
    ensures Present(t, e, j) || exists l: nat :: l >= k && EndsAt(s, steps, l, e, j)
  {
    hide Inv, Present, Ends, After, Enabled, Runs;
    InvInitially(s);
    var u := Halfway(s, steps, t, k);
    InvAlways(s, steps[..k], u);
    EntersThere(s, steps, k, u, e, j);
    FirstStep(u, steps[k..], t);
    assert steps[k..][0] == steps[k] && steps[..k] + steps[k..] == steps;
    StaysOrEnds(u, steps[k], e, j);
    if Ends(u, steps[k], e, j) {
      EndsHere(s, steps[..k], u, steps[k..], e, j);
    } else {
      StepKeepsInv(u, steps[k]);
      RunOne(u, steps[k]);
      RunOn(s, steps[..k], u, [steps[k]], After(u, steps[k]));
      assert steps[..k] + [steps[k]] + steps[k..][1..] == steps;
      PresentOrEnded(s, steps[..k] + [steps[k]], After(u, steps[k]), steps[k..][1..], t, e, j);
    }
  }

  lemma FirstStep(u: State, steps: seq<Step>, t: State)
    requires Runs(u, steps, t) && steps != []
    ensures Proper(u.groups) && Enabled(u, steps[0]) && Runs(After(u, steps[0]), steps[1..], t)
  {
  }

  /** A run has one end. */
  lemma {:induction false} OneEnd(s: State, steps: seq<Step>, t: State, u: State)
    requires Runs(s, steps, t) && Runs(s, steps, u)
    ensures t == u
    decreases |steps|
  {
    hide After, Enabled;
    if steps != [] {
      OneEnd(After(s, steps[0]), steps[1..], t, u);
    }
  }

  lemma EntersThere(s: State, steps: seq<Step>, k: nat, u: State, e: Event, j: JobId)
    requires Arrives(s, steps, k, e, j) && Runs(s, steps[..k], u)
    ensures Enters(u, steps[k], e, j)
  {
    hide Runs, DelayedBefore;
    if !steps[k].Post? {
      var x: Timer :| x.event == e && x.job == j && ExpiresAt(s, steps, k, x);
      var v :| Runs(s, steps[..k], v) && steps[k].i < |v.delayed| && v.delayed[steps[k].i] == x;
      OneEnd(s, steps[..k], u, v);
    }
  }

  // ----- The delayed ones

  /** In state `u` the step takes the delayed event out of the list: it comes due or is removed. */
  predicate Leaves(u: State, step: Step, x: Timer) {
    (step.Expire? || step.RemoveDelayed?) && step.i < |u.delayed| && u.delayed[step.i] == x
  }

  ghost predicate LeavesAt(s: State, steps: seq<Step>, l: nat, x: Timer) {
    l < |steps| && exists u :: Runs(s, steps[..l], u) && Leaves(u, steps[l], x)
  }

  lemma DelayedOrLeaves(u: State, step: Step, x: Timer)
    requires Proper(u.groups) && Enabled(u, step)
    requires x in u.delayed || step == PostDelayed(x.event, x.job, x.time)
    ensures x in After(u, step).delayed || Leaves(u, step, x)
  {
    hide Entered, ScanOrder, Dedupe;
    if step.Expire? || step.RemoveDelayed? {
      WithoutKeepsOthers(u.delayed, step.i, x);
    }
  }

  lemma {:induction false} StillDelayedOrLeft(s: State, past: seq<Step>, u: State, steps: seq<Step>, t: State, x: Timer)
    requires Runs(s, past, u) && Runs(u, steps, t)
    requires x in u.delayed || (steps != [] && steps[0] == PostDelayed(x.event, x.job, x.time))
    ensures x in t.delayed || exists l: nat :: l >= |past| && LeavesAt(s, past + steps, l, x)
    decreases |steps|
  {
    hide After, Enabled, Leaves;
    if steps != [] {
      var next := After(u, steps[0]);
      DelayedOrLeaves(u, steps[0], x);
      if Leaves(u, steps[0], x) {
        assert (past + steps)[..|past|] == past && (past + steps)[|past|] == steps[0];
        assert LeavesAt(s, past + steps, |past|, x);
      } else {
        RunOne(u, steps[0]);
        RunOn(s, past, u, [steps[0]], next);
        assert past + [steps[0]] + steps[1..] == past + steps;
        StillDelayedOrLeft(s, past + [steps[0]], next, steps[1..], t, x);
      }
    }
  }

  /** After every run: an event that was delayed is still in the list, with its job and time, unless
      the timer thread has moved it or it has been removed. */
  lemma DelayedAreKept(s: State, steps: seq<Step>, t: State, k: nat, x: Timer)
    requires Runs(s, steps, t) && k < |steps| && steps[k] == PostDelayed(x.event, x.job, x.time)
    ensures x in t.delayed || exists l: nat :: l > k && LeavesAt(s, steps, l, x)
  {
    hide Runs;
    var u := Halfway(s, steps, t, k);
    assert steps[k..][0] == steps[k] && steps[..k] + steps[k..] == steps;
    StillDelayedOrLeft(s, steps[..k], u, steps[k..], t, x);
  }
}
