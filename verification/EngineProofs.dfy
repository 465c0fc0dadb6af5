/**
 The invariant of the worker protocol holds in every state of every run, and what follows from
 it: no lost wake-up, exclusive ownership, and that waiting work can always make progress.
 */
module EngineProofs {
  import opened EventQueue
  import opened Scheduler
  import opened Engine
  import opened Options

  // ----- Mutex, groups and counters

  lemma AdvanceKeepsMembers(groups: seq<Group>, n: nat, j: JobId)
    requires Proper(groups) && n <= |groups|
    ensures InSomeGroup(Advance(groups, n), j) <==> InSomeGroup(groups, j)
  {
    var r := Advance(groups, n);
    if InSomeGroup(groups, j) {
      var g :| 0 <= g < |groups| && j in groups[g].jobs;
      assert j in r[g].jobs;
    }
    if InSomeGroup(r, j) {
      var g :| 0 <= g < |r| && j in r[g].jobs;
      assert j in groups[g].jobs;
    }
  }

  /** Nobody starts or stops searching. */
  lemma SameScanners(s: State, t: State)
    requires MutexHeld(s) && t.lock == s.lock && |t.workers| == |s.workers| && t.jobs.Keys == s.jobs.Keys
    requires forall w :: 0 <= w < |s.workers| ==>
      s.workers[w] == t.workers[w] || (!s.workers[w].Scanning? && !t.workers[w].Scanning?)
    ensures MutexHeld(t)
  {
  }

  lemma MutexTakeLock(s: State, w: nat)
    requires MutexHeld(s) && JobsMatchGroups(s) && Enabled(s, TakeLock(w))
    ensures MutexHeld(After(s, TakeLock(w)))
  {
    hide ScanOrder, Proper;
    forall j | j in s.jobs ensures j in ScanOrder(s.groups) {
      ScanOrderCovers(s.groups, j);
    }
  }

  lemma MutexLook(s: State, w: nat)
    requires MutexHeld(s) && Proper(s.groups) && Enabled(s, Look(w))
    ensures MutexHeld(After(s, Look(w)))
  {
    hide Advance, Entered, Proper, Popped;
  }

  lemma MutexEnqueue(s: State, e: Event, j: JobId, wake: nat)
    requires MutexHeld(s) && j in s.jobs && Signals(s, wake)
    ensures MutexHeld(Enqueue(s, e, j, wake))
  {
    hide MutexHeld, Dedupe;
    SameScanners(s, Enqueue(s, e, j, wake));
  }

  lemma KeepsMutex(s: State, step: Step)
    requires MutexHeld(s) && JobsMatchGroups(s) && Enabled(s, step)
    ensures MutexHeld(After(s, step))
  {
    hide MutexHeld, Enqueue, ScanOrder, Advance, Entered;
    match step {
      case TakeLock(w) => MutexTakeLock(s, w);
      case Look(w) => MutexLook(s, w);
      case Post(e, j, wake) => MutexEnqueue(s, e, j, wake);
      case Expire(i, now, wake) =>
        var u := s.(delayed := Without(s.delayed, i));
        SameScanners(s, u);
        SameSleepers(s, u);
        MutexEnqueue(u, s.delayed[i].event, s.delayed[i].job, wake);
      case _ => SameScanners(s, After(s, step));
    }
  }

  lemma SameSleepers(s: State, t: State)
    requires t.workers == s.workers
    ensures Sleepers(t) == Sleepers(s) && Seekers(t) == Seekers(s)
  {
  }

  lemma LookKeepsGroups(s: State, w: nat)
    requires JobsMatchGroups(s) && Enabled(s, Look(w))
    ensures JobsMatchGroups(After(s, Look(w)))
  {
    var n := Entered(s.groups, s.workers[w].at);
    forall j ensures InSomeGroup(Advance(s.groups, n), j) <==> InSomeGroup(s.groups, j) {
      AdvanceKeepsMembers(s.groups, n, j);
    }
  }

  lemma EnqueueKeepsGroups(s: State, e: Event, j: JobId, wake: nat)
    requires JobsMatchGroups(s) && j in s.jobs && Signals(s, wake)
    ensures JobsMatchGroups(Enqueue(s, e, j, wake))
  {
  }

  lemma KeepsGroups(s: State, step: Step)
    requires MutexHeld(s) && JobsMatchGroups(s) && Enabled(s, step)
    ensures JobsMatchGroups(After(s, step))
  {
    match step {
      case Look(w) => LookKeepsGroups(s, w);
      case Post(e, j, wake) => EnqueueKeepsGroups(s, e, j, wake);
      case Expire(i, now, wake) =>
        EnqueueKeepsGroups(s.(delayed := Without(s.delayed, i)), s.delayed[i].event, s.delayed[i].job, wake);
      case _ =>
    }
  }

  // ----- Busy flags and holders

  lemma SameHolders(s: State, t: State)
    requires BusyIsHeld(s)
    requires forall w: nat, j :: Holds(t, w, j) <==> Holds(s, w, j)
    requires t.jobs.Keys == s.jobs.Keys && forall j :: j in s.jobs ==> t.jobs[j].busy == s.jobs[j].busy
    ensures BusyIsHeld(t)
  {
    forall w | 0 <= w < |t.workers| && t.workers[w].Holding?
      ensures t.workers[w].job in t.jobs && t.jobs[t.workers[w].job].busy
    {
      assert Holds(s, w, t.workers[w].job);
    }
    forall j | j in t.jobs && t.jobs[j].busy ensures exists w: nat :: Holds(t, w, j) {
      assert s.jobs[j].busy;
      var w: nat :| Holds(s, w, j);
      assert Holds(t, w, j);
    }
  }

  lemma PickHolds(s: State, t: State, w: nat, j: JobId, e: Event)
    requires BusyIsHeld(s) && IsWorker(s, w) && !s.workers[w].Holding?
    requires j in s.jobs && !s.jobs[j].busy
    requires t.workers == s.workers[w := Holding(j, e)]
    requires t.jobs.Keys == s.jobs.Keys && t.jobs[j].busy
    requires forall i :: i in s.jobs && i != j ==> t.jobs[i] == s.jobs[i]
    ensures BusyIsHeld(t)
  {
    forall i | i in t.jobs && t.jobs[i].busy ensures exists v: nat :: Holds(t, v, i) {
      if i == j {
        assert Holds(t, w, j);
      } else {
        var v: nat :| Holds(s, v, i);
        assert Holds(t, v, i);
      }
    }
    forall v: nat, u: nat, i | Holds(t, v, i) && Holds(t, u, i) ensures v == u {
      assert v == w || Holds(s, v, i);
      assert u == w || Holds(s, u, i);
    }
  }

  lemma FinishReleases(s: State, w: nat)
    requires BusyIsHeld(s) && JobsMatchGroups(s) && Enabled(s, Finish(w))
    ensures BusyIsHeld(After(s, Finish(w)))
  {
    var t := After(s, Finish(w));
    var j := s.workers[w].job;
    assert Holds(s, w, j);
    forall v: nat, i | Holds(t, v, i) ensures Holds(s, v, i) && v != w {}
    forall i | i in t.jobs && t.jobs[i].busy ensures exists v: nat :: Holds(t, v, i) {
      assert i != j && s.jobs[i].busy;
      var v: nat :| Holds(s, v, i);
      assert Holds(t, v, i);
    }
    forall v | 0 <= v < |t.workers| && t.workers[v].Holding?
      ensures t.workers[v].job in t.jobs && t.jobs[t.workers[v].job].busy
    {
      assert Holds(t, v, t.workers[v].job);
    }
  }

  lemma EnqueueHolds(s: State, e: Event, j: JobId, wake: nat)
    requires BusyIsHeld(s) && j in s.jobs && Signals(s, wake)
    ensures BusyIsHeld(Enqueue(s, e, j, wake))
  {
    SameHolders(s, Enqueue(s, e, j, wake));
  }

  lemma LookHolds(s: State, w: nat)
    requires JobsMatchGroups(s) && BusyIsHeld(s) && Enabled(s, Look(w))
    ensures BusyIsHeld(After(s, Look(w)))
  {
    var Scanning(order, at, retry) := s.workers[w];
    if at < |order| && Eligible(s.jobs, order[at]) {
      PickHolds(s, After(s, Look(w)), w, order[at], s.jobs[order[at]].events[0]);
    } else {
      SameHolders(s, After(s, Look(w)));
    }
  }

  lemma KeepsHolders(s: State, step: Step)
    requires MutexHeld(s) && JobsMatchGroups(s) && BusyIsHeld(s) && Enabled(s, step)
    ensures BusyIsHeld(After(s, step))
  {
    match step {
      case Finish(w) => FinishReleases(s, w);
      case Look(w) => LookHolds(s, w);
      case Post(e, j, wake) => EnqueueHolds(s, e, j, wake);
      case Expire(i, now, wake) =>
        var u := s.(delayed := Without(s.delayed, i));
        SameHolders(s, u);
        EnqueueHolds(u, s.delayed[i].event, s.delayed[i].job, wake);
      case TakeLock(w) => SameHolders(s, After(s, step));
      case WakeUp(w) => SameHolders(s, After(s, step));
      case PostDelayed(e, j, time) => SameHolders(s, After(s, step));
      case RemoveQueued(j, i) => SameHolders(s, After(s, step));
      case RemoveDelayed(i) => SameHolders(s, After(s, step));
    }
  }

  // ----- Places of events

  lemma PlacedOnce(s: State, p: Place, q: Place, id: nat)
    requires OnePlaceEach(s)
    ensures At(s, p, id) && At(s, q, id) ==> p == q
  {
  }

  /** Events moved from place `f(p)` to place `p`, and those in `gone` were freed. */
  lemma Rehoused(s: State, t: State, f: Place -> Place, g: Place -> Place, gone: set<nat>)
    requires OnePlaceEach(s) && t.live == s.live - gone
    requires forall p, id :: At(t, p, id) ==> At(s, f(p), id) && id !in gone && g(f(p)) == p
    requires forall p, id :: At(s, p, id) && id !in gone ==> At(t, g(p), id)
    ensures OnePlaceEach(t)
  {
    forall p, q, id | At(t, p, id) && At(t, q, id) ensures p == q {
      assert At(s, f(p), id) && At(s, f(q), id);
    }
    forall id | id in t.live ensures exists p :: At(t, p, id) {
      var p :| At(s, p, id);
      assert At(t, g(p), id);
    }
  }

  /** A new event `id` appeared at place `r`. */
  lemma Arrived(s: State, t: State, r: Place, id: nat)
    requires OnePlaceEach(s) && id !in s.live && t.live == s.live + {id}
    requires forall p, i :: At(t, p, i) <==> At(s, p, i) || (p == r && i == id)
    requires forall i :: !At(s, r, i)
    ensures OnePlaceEach(t)
  {
    forall i | i in t.live ensures exists p :: At(t, p, i) {
      if i == id {
        assert At(t, r, i);
      } else {
        var p :| At(s, p, i);
        assert At(t, p, i);
      }
    }
  }

  lemma PlacesPick(s: State, w: nat)
    requires OnePlaceEach(s) && JobsMatchGroups(s) && Enabled(s, Look(w))
    requires s.workers[w].at < |s.workers[w].order| && Eligible(s.jobs, s.workers[w].order[s.workers[w].at])
    ensures OnePlaceEach(After(s, Look(w)))
  {
    hide Advance, Entered, OnePlaceEach;
    var t := After(s, Look(w));
    var j := s.workers[w].order[s.workers[w].at];
    var f := (p: Place) => if p == InHand(w) then InQueue(j, 0)
                           else if p.InQueue? && p.j == j then InQueue(j, p.i + 1) else p;
    var g := (p: Place) => if p == InQueue(j, 0) then InHand(w)
                           else if p.InQueue? && p.j == j && p.i > 0 then InQueue(j, p.i - 1) else p;
    forall p, id | At(t, p, id) ensures At(s, f(p), id) && g(f(p)) == p {
    }
    forall p, id | At(s, p, id) ensures At(t, g(p), id) {
    }
    Rehoused(s, t, f, g, {});
  }

  lemma PlacesFinish(s: State, w: nat)
    requires OnePlaceEach(s) && JobsMatchGroups(s) && Enabled(s, Finish(w))
    ensures OnePlaceEach(After(s, Finish(w)))
  {
    hide OnePlaceEach;
    var t := After(s, Finish(w));
    var id := s.workers[w].event.id;
    assert At(s, InHand(w), id);
    forall p, i' | At(t, p, i') ensures At(s, p, i') && i' != id {
      assert At(s, p, i') && p != InHand(w);
      PlacedOnce(s, p, InHand(w), i');
    }
    Rehoused(s, t, p => p, p => p, {id});
  }

  lemma PlacesRemoveQueued(s: State, j: JobId, i: nat)
    requires OnePlaceEach(s) && JobsMatchGroups(s) && Enabled(s, RemoveQueued(j, i))
    ensures OnePlaceEach(After(s, RemoveQueued(j, i)))
  {
    hide OnePlaceEach;
    var t := After(s, RemoveQueued(j, i));
    var id := s.jobs[j].events[i].id;
    assert At(s, InQueue(j, i), id);
    var f := (p: Place) => if p.InQueue? && p.j == j && p.i >= i then InQueue(j, p.i + 1) else p;
    var g := (p: Place) => if p.InQueue? && p.j == j && p.i > i then InQueue(j, p.i - 1) else p;
    forall p, i' | At(t, p, i') ensures At(s, f(p), i') && i' != id && g(f(p)) == p {
      assert At(s, f(p), i') && f(p) != InQueue(j, i);
      PlacedOnce(s, f(p), InQueue(j, i), i');
    }
    Rehoused(s, t, f, g, {id});
  }

  lemma PlacesRemoveDelayed(s: State, i: nat)
    requires OnePlaceEach(s) && Enabled(s, RemoveDelayed(i)) && Proper(s.groups)
    ensures OnePlaceEach(After(s, RemoveDelayed(i)))
  {
    hide OnePlaceEach;
    var t := After(s, RemoveDelayed(i));
    var id := s.delayed[i].event.id;
    assert At(s, InDelayed(i), id);
    var f := (p: Place) => if p.InDelayed? && p.i >= i then InDelayed(p.i + 1) else p;
    var g := (p: Place) => if p.InDelayed? && p.i > i then InDelayed(p.i - 1) else p;
    forall p, i' | At(t, p, i') ensures At(s, f(p), i') && i' != id && g(f(p)) == p {
      assert At(s, f(p), i') && f(p) != InDelayed(i);
      PlacedOnce(s, f(p), InDelayed(i), i');
    }
    Rehoused(s, t, f, g, {id});
  }

  /** A queue shortened to a prefix: the events behind it are freed. */
  lemma PlacesTruncate(s: State, t: State, j: JobId, k: nat)
    requires OnePlaceEach(s) && j in s.jobs && k <= |s.jobs[j].events|
    requires t.delayed == s.delayed && t.jobs.Keys == s.jobs.Keys && t.jobs[j].events == s.jobs[j].events[..k]
    requires forall i :: i in s.jobs && i != j ==> t.jobs[i] == s.jobs[i]
    requires forall w, id :: At(t, InHand(w), id) <==> At(s, InHand(w), id)
    requires t.live == s.live - Ids(s.jobs[j].events[k..])
    ensures OnePlaceEach(t)
  {
    var q := s.jobs[j].events;
    forall p, id | At(s, p, id) && id in Ids(q[k..]) ensures p.InQueue? && p.j == j && p.i >= k {
      var i :| 0 <= i < |q[k..]| && q[k..][i].id == id;
      assert At(s, InQueue(j, k + i), id);
    }
    forall i | k <= i < |q| ensures q[i].id in Ids(q[k..]) {
      assert q[k..][i - k] == q[i];
    }
    Rehoused(s, t, p => p, p => p, Ids(q[k..]));
  }

  lemma PlacesEnqueue(s: State, e: Event, j: JobId, wake: nat)
    requires OnePlaceEach(s) && j in s.jobs && e.id !in s.live && Signals(s, wake)
    ensures OnePlaceEach(Enqueue(s, e, j, wake))
  {
    var job := s.jobs[j];
    var full := job.events + [e];
    var kept := Dedupe(full);
    var u := s.(jobs := s.jobs[j := job.(events := full)], live := s.live + {e.id});
    Arrived(s, u, InQueue(j, |job.events|), e.id);
    PlacesTruncate(u, Enqueue(s, e, j, wake), j, |kept|);
  }

  lemma PlacesExpire(s: State, i: nat, now: int, wake: nat)
    requires JobsMatchGroups(s) && OnePlaceEach(s) && Enabled(s, Expire(i, now, wake))
    ensures OnePlaceEach(After(s, Expire(i, now, wake)))
  {
    hide Dedupe, Proper;
    var e := s.delayed[i].event;
    var u := After(s, RemoveDelayed(i));
    PlacesRemoveDelayed(s, i);
    assert At(s, InDelayed(i), e.id);
    SameSleepers(s, u);
    hide OnePlaceEach, Sleepers, JobsMatchGroups;
    PlacesEnqueue(u, e, s.delayed[i].job, wake);
    assert After(s, Expire(i, now, wake)) == Enqueue(u, e, s.delayed[i].job, wake);
  }

  lemma PlacesLook(s: State, w: nat)
    requires JobsMatchGroups(s) && OnePlaceEach(s) && Enabled(s, Look(w))
    ensures OnePlaceEach(After(s, Look(w)))
  {
    var Scanning(order, at, retry) := s.workers[w];
    if at < |order| && Eligible(s.jobs, order[at]) {
      PlacesPick(s, w);
    } else {
      Rehoused(s, After(s, Look(w)), p => p, p => p, {});
    }
  }

  lemma KeepsPlaces(s: State, step: Step)
    requires MutexHeld(s) && JobsMatchGroups(s) && OnePlaceEach(s) && Enabled(s, step)
    ensures OnePlaceEach(After(s, step))
  {
    match step {
      case Finish(w) => PlacesFinish(s, w);
      case Look(w) => PlacesLook(s, w);
      case RemoveQueued(j, i) => PlacesRemoveQueued(s, j, i);
      case RemoveDelayed(i) => PlacesRemoveDelayed(s, i);
      case Post(e, j, wake) => PlacesEnqueue(s, e, j, wake);
      case Expire(i, now, wake) => PlacesExpire(s, i, now, wake);
      case PostDelayed(e, j, time) => Arrived(s, After(s, step), InDelayed(|s.delayed|), e.id);
      case TakeLock(w) => Rehoused(s, After(s, step), p => p, p => p, {});
      case WakeUp(w) => Rehoused(s, After(s, step), p => p, p => p, {});
    }
  }

  // ----- Work conservation

  lemma SubsetSize<T>(a: set<T>, b: set<T>)
    requires a <= b
    ensures |a| <= |b|
  {
    assert b == a + (b - a);
  }

  lemma PlusOne<T>(a: set<T>, b: set<T>, x: T)
    requires a <= b + {x}
    ensures |a| <= |b| + 1
  {
    SubsetSize(a, b + {x});
  }

  lemma WorkTakeLock(s: State, w: nat)
    requires MutexHeld(s) && Proper(s.groups) && WorkConserved(s)
    requires Enabled(s, TakeLock(w)) && MutexHeld(After(s, TakeLock(w)))
    ensures WorkConserved(After(s, TakeLock(w)))
  {
    hide Advance, Entered, ScanOrder, Proper, Popped;
    var t := After(s, TakeLock(w));
    assert Sleepers(t) == Sleepers(s) && Seekers(t) == Seekers(s) && Waiting(t) == Waiting(s);
    assert Overlooked(t) == {};
    SubsetSize({w}, Seekers(t));
  }

  lemma WorkMiss(s: State, w: nat)
    requires MutexHeld(s) && Proper(s.groups) && WorkConserved(s) && Enabled(s, Look(w)) && MutexHeld(After(s, Look(w)))
    requires var k := s.workers[w]; k.at < |k.order| && !Eligible(s.jobs, k.order[k.at])
    ensures WorkConserved(After(s, Look(w)))
  {
    hide Advance, Entered, ScanOrder, Proper, Popped;
    var t := After(s, Look(w));
    assert Sleepers(t) == Sleepers(s) && Seekers(t) == Seekers(s) && Waiting(t) == Waiting(s);
    var Scanning(order, at, retry) := s.workers[w];
    assert order[..at + 1] == order[..at] + [order[at]];
    assert Overlooked(t) == Overlooked(s);
  }

  lemma WorkHit(s: State, w: nat)
    requires MutexHeld(s) && Proper(s.groups) && WorkConserved(s) && Enabled(s, Look(w)) && MutexHeld(After(s, Look(w)))
    requires var k := s.workers[w]; k.at < |k.order| && Eligible(s.jobs, k.order[k.at])
    ensures WorkConserved(After(s, Look(w)))
  {
    hide Advance, Entered, ScanOrder, Proper;
    var t := After(s, Look(w));
    var j := s.workers[w].order[s.workers[w].at];
    OneWorker(s, t, w);
    assert Waiting(t) == Waiting(s) - {j} && j in Waiting(s);
  }

  /** The search failed: whatever is waiting was overlooked, and was released since by a worker
      that is now looking itself. */
  lemma WorkFail(s: State, w: nat)
    requires MutexHeld(s) && Proper(s.groups) && WorkConserved(s) && Enabled(s, Look(w)) && MutexHeld(After(s, Look(w)))
    requires s.workers[w].at == |s.workers[w].order|
    ensures WorkConserved(After(s, Look(w)))
  {
    hide Advance, Entered, ScanOrder, Proper, Popped;
    var t := After(s, Look(w));
    var order := s.workers[w].order;
    assert order[..|order|] == order;
    assert Waiting(s) <= Overlooked(s);
    SubsetSize(Waiting(s), Overlooked(s));
    assert Waiting(t) == Waiting(s) && w in Seekers(s);
    assert Seekers(t) == if s.workers[w].retry then Seekers(s) else Seekers(s) - {w};
  }

  /** One worker changes, no other does. */
  lemma OneWorker(s: State, t: State, w: nat)
    requires IsWorker(s, w) && |t.workers| == |s.workers| && t.workers == s.workers[w := t.workers[w]]
    ensures Sleepers(t) == if t.workers[w].Asleep? then Sleepers(s) + {w} else Sleepers(s) - {w}
    ensures Seekers(t) == if Seeks(t.workers[w]) then Seekers(s) + {w} else Seekers(s) - {w}
    ensures w in Sleepers(s) <==> s.workers[w].Asleep?
    ensures w in Seekers(s) <==> Seeks(s.workers[w])
  {
  }

  /** At most job `j` is new among the jobs waiting and overlooked. */
  lemma OneJob(s: State, t: State, j: JobId)
    requires MutexHeld(s) && MutexHeld(t) && t.lock == s.lock && t.jobs.Keys == s.jobs.Keys
    requires s.lock.Some? ==> t.workers[t.lock.value] == s.workers[s.lock.value]
    requires forall i :: i in s.jobs && i != j ==> t.jobs[i] == s.jobs[i]
    ensures Waiting(t) <= Waiting(s) + {j} && Overlooked(t) <= Overlooked(s) + {j}
  {
  }

  lemma WorkFinish(s: State, w: nat)
    requires MutexHeld(s) && Proper(s.groups) && WorkConserved(s)
    requires Enabled(s, Finish(w)) && MutexHeld(After(s, Finish(w)))
    ensures WorkConserved(After(s, Finish(w)))
  {
    hide Proper, Sleepers, Seekers, Waiting, Overlooked;
    var t := After(s, Finish(w));
    var j := s.workers[w].job;
    OneWorker(s, t, w);
    OneJob(s, t, j);
    PlusOne(Waiting(t), Waiting(s), j);
    PlusOne(Overlooked(t), Overlooked(s), j);
  }

  lemma WorkWakeUp(s: State, w: nat)
    requires MutexHeld(s) && Proper(s.groups) && WorkConserved(s)
    requires Enabled(s, WakeUp(w)) && MutexHeld(After(s, WakeUp(w)))
    ensures WorkConserved(After(s, WakeUp(w)))
  {
    hide Proper, Sleepers, Seekers, Waiting, Overlooked;
    var t := After(s, WakeUp(w));
    OneWorker(s, t, w);
    SameJobs(s, t);
  }

  lemma SameJobs(s: State, t: State)
    requires MutexHeld(s) && MutexHeld(t) && t.lock == s.lock && t.jobs == s.jobs
    requires s.lock.Some? ==> t.workers[t.lock.value] == s.workers[s.lock.value]
    ensures Waiting(t) == Waiting(s) && Overlooked(t) == Overlooked(s)
  {
  }

  lemma WorkEnqueueKept(s: State, e: Event, j: JobId, wake: nat)
    requires MutexHeld(s) && WorkConserved(s) && s.lock == None && j in s.jobs && Signals(s, wake)
    requires MutexHeld(Enqueue(s, e, j, wake))
    requires Dedupe(s.jobs[j].events + [e]) == s.jobs[j].events + [e]
    ensures WorkConserved(Enqueue(s, e, j, wake))
  {
    hide Dedupe, MutexHeld;
    var t := Enqueue(s, e, j, wake);
    PlusOne(Waiting(t), Waiting(s), j);
    if Sleepers(s) != {} {
      assert Seekers(t) == Seekers(s) + {wake} && wake !in Seekers(s);
    } else {
      assert Sleepers(t) == {};
    }
  }

  /** A deduplicated event sends no signal, but then its queue was not empty before and is not
      empty after; a surviving event wakes a sleeper if there is one. */
  lemma WorkEnqueue(s: State, e: Event, j: JobId, wake: nat)
    requires MutexHeld(s) && WorkConserved(s) && s.lock == None && j in s.jobs && Signals(s, wake)
    requires MutexHeld(Enqueue(s, e, j, wake))
    ensures WorkConserved(Enqueue(s, e, j, wake))
  {
    if Dedupe(s.jobs[j].events + [e]) == s.jobs[j].events + [e] {
      WorkEnqueueKept(s, e, j, wake);
    } else {
      var t := Enqueue(s, e, j, wake);
      DedupeTail(s.jobs[j].events + [e]);
      assert Waiting(t) == Waiting(s) && Seekers(t) == Seekers(s) && Sleepers(t) == Sleepers(s);
    }
  }

  /** Steps that only take events away. */
  lemma WorkLess(s: State, t: State)
    requires MutexHeld(s) && WorkConserved(s) && s.lock == None && MutexHeld(t)
    requires t.workers == s.workers && t.lock == None && Waiting(t) <= Waiting(s)
    ensures WorkConserved(t)
  {
    SubsetSize(Waiting(t), Waiting(s));
    assert Seekers(t) == Seekers(s) && Sleepers(t) == Sleepers(s);
  }

  lemma KeepsWork(s: State, step: Step)
    requires Inv(s) && Enabled(s, step) && MutexHeld(After(s, step))
    ensures WorkConserved(After(s, step))
  {
    match step {
      case TakeLock(w) => WorkTakeLock(s, w);
      case Look(w) =>
        var Scanning(order, at, retry) := s.workers[w];
        if at == |order| {
          WorkFail(s, w);
        } else if Eligible(s.jobs, order[at]) {
          WorkHit(s, w);
        } else {
          WorkMiss(s, w);
        }
      case Finish(w) => WorkFinish(s, w);
      case WakeUp(w) => WorkWakeUp(s, w);
      case Post(e, j, wake) => WorkEnqueue(s, e, j, wake);
      case Expire(i, now, wake) =>
        var u := s.(delayed := Without(s.delayed, i));
        WorkLess(s, u);
        assert Sleepers(u) == Sleepers(s);
        WorkEnqueue(u, s.delayed[i].event, s.delayed[i].job, wake);
      case PostDelayed(e, j, time) => WorkLess(s, After(s, step));
      case RemoveQueued(j, i) => WorkLess(s, After(s, step));
      case RemoveDelayed(i) => WorkLess(s, After(s, step));
    }
  }

  // ----- Every run

  lemma InvInitially(s: State)
    requires Initial(s)
    ensures Inv(s)
  {
    assert Waiting(s) == {} && Sleepers(s) == {};
  }

  lemma StepKeepsInv(s: State, step: Step)
    requires Inv(s) && Enabled(s, step)
    ensures Inv(After(s, step))
  {
    KeepsMutex(s, step);
    KeepsGroups(s, step);
    KeepsHolders(s, step);
    KeepsPlaces(s, step);
    KeepsWork(s, step);
  }

  lemma {:induction false} InvAlways(s: State, steps: seq<Step>, t: State)
    requires Inv(s) && Runs(s, steps, t)
    ensures Inv(t)
    decreases |steps|
  {
    if steps != [] {
      StepKeepsInv(s, steps[0]);
      InvAlways(After(s, steps[0]), steps[1..], t);
    }
  }

  /** No lost wake-up: in no reachable state are all workers asleep while a job could run. */
  lemma NoLostWakeup(s: State, steps: seq<Step>, t: State)
    requires Initial(s) && Runs(s, steps, t)
    requires |t.workers| > 0
    ensures !((forall w :: 0 <= w < |t.workers| ==> t.workers[w].Asleep?)
              && exists j :: j in t.jobs && Eligible(t.jobs, j))
  {
    InvInitially(s);
    InvAlways(s, steps, t);
    if j :| j in t.jobs && Eligible(t.jobs, j) {
      if 0 in Sleepers(t) {
        SubsetSize({j}, Waiting(t));
        assert Seekers(t) != {};
        var w :| w in Seekers(t);
        assert !t.workers[w].Asleep?;
      } else {
        assert !t.workers[0].Asleep?;
      }
    }
  }

  /** Stronger: while some worker sleeps, every job that could run is matched by a worker of its
      own that is looking for work. */
  lemma NobodySleepsOnWork(s: State, steps: seq<Step>, t: State)
    requires Initial(s) && Runs(s, steps, t)
    requires exists w :: 0 <= w < |t.workers| && t.workers[w].Asleep?
    ensures |Waiting(t)| <= |Seekers(t)|
  {
    InvInitially(s);
    InvAlways(s, steps, t);
    var w :| 0 <= w < |t.workers| && t.workers[w].Asleep?;
    assert w in Sleepers(t);
  }

  /** Exclusive ownership, over every run. */
  lemma ExclusiveOwnership(s: State, steps: seq<Step>, t: State)
    requires Initial(s) && Runs(s, steps, t)
    ensures forall p, q, id :: At(t, p, id) && At(t, q, id) ==> p == q
    ensures forall id :: id in t.live <==> exists p :: At(t, p, id)
    ensures forall j :: j in t.jobs ==> (t.jobs[j].busy <==> exists w: nat :: Holds(t, w, j))
    ensures forall v: nat, w: nat, j :: Holds(t, v, j) && Holds(t, w, j) ==> v == w
    ensures forall j :: j in t.jobs ==> t.jobs[j].cnt == |t.jobs[j].events|
  {
    InvInitially(s);
    InvAlways(s, steps, t);
  }

  /** Progress: in every reachable state with at least one worker in which a job could run, some
      worker can take a step of its own, without a signal, a timer or a new event. */
  lemma WaitingWorkCanProceed(s: State, steps: seq<Step>, t: State, j: JobId)
    requires Initial(s) && Runs(s, steps, t)
    requires |t.workers| > 0 && j in t.jobs && Eligible(t.jobs, j)
    ensures exists w :: Enabled(t, Look(w)) || Enabled(t, TakeLock(w)) || Enabled(t, Finish(w))
  {
    InvInitially(s);
    InvAlways(s, steps, t);
    if t.lock.Some? {
      assert Enabled(t, Look(t.lock.value));
    } else if Sleepers(t) != {} {
      SubsetSize({j}, Waiting(t));
      assert Seekers(t) != {};
      var w :| w in Seekers(t);
      assert Enabled(t, TakeLock(w));
    } else {
      assert 0 !in Sleepers(t);
      assert Enabled(t, TakeLock(0)) || Enabled(t, Finish(0));
    }
  }

  // ----- An undisturbed search is one call of the scheduler

  /** Worker `w` looks on, with no other thread in between, until it leaves the scan. */
  ghost function Search(s: State, w: nat): (r: State)
    requires Proper(s.groups) && IsWorker(s, w)
    requires s.workers[w].Scanning? ==> s.workers[w].at <= |s.workers[w].order|
    ensures |r.workers| == |s.workers|
    decreases if s.workers[w].Scanning? then |s.workers[w].order| - s.workers[w].at + 1 else 0
  {
    if s.workers[w].Scanning? then Search(After(s, Look(w)), w) else s
  }

  lemma {:induction false} SearchFinds(s: State, w: nat)
    requires Proper(s.groups) && IsWorker(s, w) && s.workers[w].Scanning?
    requires s.workers[w].at <= Find(s.workers[w].order, s.jobs)
    ensures var order := s.workers[w].order;
            Search(s, w) == After(s.(workers := s.workers[w := s.workers[w].(at := Find(order, s.jobs))]), Look(w))
    decreases |s.workers[w].order| - s.workers[w].at
  {
    var Scanning(order, at, retry) := s.workers[w];
    if at < Find(order, s.jobs) {
      var t := After(s, Look(w));
      SearchFinds(t, w);
      assert t.workers[w := t.workers[w].(at := Find(order, s.jobs))]
          == s.workers[w := s.workers[w].(at := Find(order, s.jobs))];
    } else {
      assert s.workers[w := s.workers[w].(at := at)] == s.workers;
      assert !After(s, Look(w)).workers[w].Scanning?;
    }
  }

  lemma {:induction false} EnteredIsVisited(groups: seq<Group>, jobs: Table)
    requires Proper(groups)
    ensures Entered(groups, Find(ScanOrder(groups), jobs)) == Visited(groups, jobs)
    decreases |groups|
  {
    if groups != [] {
      FindAppend(Rotation(groups[0]), ScanOrder(groups[1..]), jobs);
      EnteredIsVisited(groups[1..], jobs);
    }
  }

  /** If no other thread acts in between, taking the mutex and searching has the effect of one
      scheduling call: same job, same event, same new starting points. */
  lemma UndisturbedSearchIsPick(s: State, w: nat)
    requires JobsMatchGroups(s) && Enabled(s, TakeLock(w))
    ensures var t := Search(After(s, TakeLock(w)), w);
            && t.groups == Advance(s.groups, Visited(s.groups, s.jobs))
            && t.lock == None
            && match Pick(s.groups, s.jobs)
               case NoJob => t.jobs == s.jobs && t.workers[w] == if s.workers[w].Woken? then Ready else Asleep
               case Chosen(j, _) =>
                 && Eligible(s.jobs, j)
                 && t.workers[w] == Holding(j, s.jobs[j].events[0])
                 && t.jobs == s.jobs[j := Popped(s.jobs[j]).(busy := true)]
  {
    SearchFinds(After(s, TakeLock(w)), w);
    PickIsFirstInScanOrder(s.groups, s.jobs);
    EnteredIsVisited(s.groups, s.jobs);
  }
}
