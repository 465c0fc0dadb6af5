/**
 What the worker protocol achieves over its interleaved runs: waiting work is taken by worker
 steps alone, within a bound, and a job that stays ready is not passed over for long.
 */
module EngineProgress {
  import opened Options
  import opened EventQueue
  import opened Scheduler
  import opened Engine
  import opened EngineProofs

  // ----- A search under way follows the present scan order

  ghost predicate OrderKept(s: State)
    requires Proper(s.groups)
  {
    forall w :: 0 <= w < |s.workers| && s.workers[w].Scanning? ==> s.workers[w].order == ScanOrder(s.groups)
  }

  lemma StepKeepsOrder(s: State, step: Step)
    requires Inv(s) && OrderKept(s) && Enabled(s, step)
    ensures Proper(After(s, step).groups) && OrderKept(After(s, step))
  {
    hide ScanOrder, Dedupe, Entered, OnePlaceEach, BusyIsHeld, WorkConserved, Proper;
  }

  lemma {:induction false} OrderAlways(s: State, steps: seq<Step>, t: State)
    requires Inv(s) && OrderKept(s) && Runs(s, steps, t)
    ensures Inv(t) && OrderKept(t)
    decreases |steps|
  {
    hide Inv, OrderKept, After;
    if steps != [] {
      StepKeepsInv(s, steps[0]);
      StepKeepsOrder(s, steps[0]);
      OrderAlways(After(s, steps[0]), steps[1..], t);
    }
  }

  lemma Reachable(s: State, steps: seq<Step>, t: State)
    requires Initial(s) && Runs(s, steps, t)
    ensures Inv(t) && OrderKept(t)
  {
    InvInitially(s);
    OrderAlways(s, steps, t);
  }

  // ----- Runs put together

  lemma {:induction false} RunOn(s: State, a: seq<Step>, t: State, b: seq<Step>, u: State)
    requires Runs(s, a, t) && Runs(t, b, u)
    ensures Runs(s, a + b, u)
    decreases |a|
  {
    hide After, Enabled;
    if a == [] {
      assert a + b == b;
    } else {
      assert (a + b)[1..] == a[1..] + b;
      RunOn(After(s, a[0]), a[1..], t, b, u);
    }
  }

  lemma RunOne(s: State, step: Step)
    requires Proper(s.groups) && Enabled(s, step)
    ensures Runs(s, [step], After(s, step))
  {
    hide After, Enabled;
    assert [step][1..] == [];
  }

  // ----- Waiting work is taken

  predicate OwnStep(step: Step) { step.TakeLock? || step.Look? || step.Finish? }

  /** Steps of workers only: no signal, no timer, no new event. */
  predicate OwnSteps(steps: seq<Step>) {
    forall i :: 0 <= i < |steps| ==> OwnStep(steps[i])
  }

  /** Worker `w` has taken the head event of a queue. */
  predicate Took(s: State, u: State, w: nat) {
    && IsWorker(u, w) && u.workers[w].Holding?
    && var j := u.workers[w].job;
       && j in s.jobs && s.jobs[j].events != [] && u.workers[w].event == s.jobs[j].events[0]
       && j in u.jobs && u.jobs[j].busy && u.jobs[j].events == s.jobs[j].events[1..]
  }

  /** The search has ended without a job. */
  predicate GaveUp(s: State, u: State, w: nat)
    requires IsWorker(s, w)
  {
    && |u.workers| == |s.workers| && u.workers == s.workers[w := u.workers[w]] && !u.workers[w].Scanning?
    && u.jobs == s.jobs && u.lock == None
  }

  lemma {:induction false} SameLength(groups: seq<Group>, n: nat)
    requires Proper(groups) && n <= |groups|
    ensures |ScanOrder(Advance(groups, n))| == |ScanOrder(groups)|
    decreases |groups|
  {
    if groups != [] {
      var m := if n == 0 then 0 else n - 1;
      SameLength(groups[1..], m);
      assert Advance(groups, n)[1..] == Advance(groups[1..], m);
    }
  }

  function Looks(w: nat, n: nat): (steps: seq<Step>)
    ensures |steps| == n && OwnSteps(steps)
  {
    seq(n, _ => Look(w))
  }

  lemma LooksMore(w: nat, n: nat)
    ensures [Look(w)] + Looks(w, n) == Looks(w, n + 1)
  {
  }

  /** The last look of a search. */
  lemma SearchEnds(s: State, w: nat)
    requires Proper(s.groups) && Enabled(s, Look(w))
    requires var k := s.workers[w]; k.at == |k.order| || Eligible(s.jobs, k.order[k.at])
    ensures var k := s.workers[w];
            if k.at == |k.order| then GaveUp(s, After(s, Look(w)), w) else Took(s, After(s, Look(w)), w)
    ensures Proper(After(s, Look(w)).groups)
    ensures |ScanOrder(After(s, Look(w)).groups)| == |ScanOrder(s.groups)|
  {
    hide Advance, Entered, ScanOrder, Proper;
    SameLength(s.groups, Entered(s.groups, s.workers[w].at));
  }

  lemma LookMisses(s: State, w: nat)
    requires Proper(s.groups) && Enabled(s, Look(w))
    requires var k := s.workers[w]; k.at < |k.order| && !Eligible(s.jobs, k.order[k.at])
    ensures After(s, Look(w)) == s.(workers := s.workers[w := s.workers[w].(at := s.workers[w].at + 1)])
  {
  }

  /** A search left alone ends within the rest of its order: with a job, or after finding none
      ready in that rest. */
  lemma {:induction false} SearchOn(s: State, w: nat) returns (n: nat, u: State)
    requires Proper(s.groups) && Enabled(s, Look(w))
    ensures n <= |s.workers[w].order| - s.workers[w].at + 1 && Runs(s, Looks(w, n), u)
    ensures Took(s, u, w) || (GaveUp(s, u, w) && forall i :: s.workers[w].at <= i < |s.workers[w].order| ==>
                                                  !Eligible(s.jobs, s.workers[w].order[i]))
    ensures Proper(u.groups) && |ScanOrder(u.groups)| == |ScanOrder(s.groups)|
    decreases |s.workers[w].order| - s.workers[w].at
  {
    hide After, ScanOrder, Proper;
    var Scanning(order, at, retry) := s.workers[w];
    var next := After(s, Look(w));
    RunOne(s, Look(w));
    if at == |order| || Eligible(s.jobs, order[at]) {
      SearchEnds(s, w);
      n, u := 1, next;
      assert [Look(w)] == Looks(w, 1);
    } else {
      LookMisses(s, w);
      n, u := SearchOn(next, w);
      RunOn(s, [Look(w)], next, Looks(w, n), u);
      LooksMore(w, n);
      n := n + 1;
      assert u.workers == next.workers[w := u.workers[w]] ==> u.workers == s.workers[w := u.workers[w]];
    }
  }

  /** A worker that is free to search takes the mutex and finds a job if one is ready. */
  lemma FindsWork(s: State, w: nat, j: JobId) returns (steps: seq<Step>, u: State)
    requires JobsMatchGroups(s) && Enabled(s, TakeLock(w)) && j in s.jobs && Eligible(s.jobs, j)
    ensures Runs(s, steps, u) && OwnSteps(steps) && |steps| <= |ScanOrder(s.groups)| + 2 && Took(s, u, w)
  {
    hide ScanOrder, Proper;
    var next := After(s, TakeLock(w));
    RunOne(s, TakeLock(w));
    ScanOrderCovers(s.groups, j);
    var n;
    n, u := SearchOn(next, w);
    steps := [TakeLock(w)] + Looks(w, n);
    RunOn(s, [TakeLock(w)], next, Looks(w, n), u);
  }

  ghost predicate SomeoneTook(s: State, u: State) {
    exists w: nat :: Took(s, u, w)
  }

  /** All workers hold a job: one of them finishes and takes the next. */
  lemma FinishThenTake(s: State, j: JobId) returns (steps: seq<Step>, u: State)
    requires Inv(s) && |s.workers| > 0 && s.lock == None && j in s.jobs && Eligible(s.jobs, j) && s.workers[0].Holding?
    ensures Runs(s, steps, u) && OwnSteps(steps) && |steps| <= |ScanOrder(s.groups)| + 3 && SomeoneTook(s, u)
  {
    hide ScanOrder, Proper, OnePlaceEach, WorkConserved;
    assert Enabled(s, Finish(0));
    var next := After(s, Finish(0));
    RunOne(s, Finish(0));
    StepKeepsInv(s, Finish(0));
    var more;
    more, u := FindsWork(next, 0, j);
    steps := [Finish(0)] + more;
    RunOn(s, [Finish(0)], next, more, u);
    assert Took(s, u, 0);
  }

  /** Nobody searches at the moment. */
  lemma TakenFromRest(s: State, j: JobId) returns (steps: seq<Step>, u: State)
    requires Inv(s) && |s.workers| > 0 && s.lock == None && j in s.jobs && Eligible(s.jobs, j)
    ensures Runs(s, steps, u) && OwnSteps(steps) && |steps| <= |ScanOrder(s.groups)| + 3 && SomeoneTook(s, u)
  {
    hide ScanOrder, Proper, OnePlaceEach, BusyIsHeld;
    if Seekers(s) != {} {
      var w :| w in Seekers(s);
      steps, u := FindsWork(s, w, j);
      assert Took(s, u, w);
    } else {
      SubsetSize({j}, Waiting(s));
      assert 0 !in Sleepers(s) && 0 !in Seekers(s);
      steps, u := FinishThenTake(s, j);
    }
  }

  /** A search under way gives up although a job is ready: it has been overlooked, so somebody else
      is looking. */
  lemma AnotherLooks(s: State, w: nat, j: JobId) returns (v: nat)
    requires Inv(s) && s.lock == Some(w) && j in s.jobs && Eligible(s.jobs, j)
    requires forall i :: s.workers[w].at <= i < |s.workers[w].order| ==> !Eligible(s.jobs, s.workers[w].order[i])
    ensures v != w && IsWorker(s, v) && (s.workers[v].Ready? || s.workers[v].Woken?)
  {
    hide OnePlaceEach, BusyIsHeld, JobsMatchGroups;
    var order := s.workers[w].order;
    assert j in order;
    var i :| 0 <= i < |order| && order[i] == j;
    assert order[..s.workers[w].at][i] == j;
    SubsetSize({j}, Overlooked(s));
    if Seekers(s) <= {w} {
      SubsetSize(Seekers(s), {w});
      assert false;
    }
    v :| v in Seekers(s) && v != w;
  }

  /** Progress: in every reachable state with a worker and a job that is ready, a bounded number of
      worker steps alone leads to a worker holding the event at the head of a queue. */
  lemma WaitingWorkIsTaken(s: State, before: seq<Step>, t: State, j: JobId) returns (steps: seq<Step>, u: State)
    requires Initial(s) && Runs(s, before, t)
    requires |t.workers| > 0 && j in t.jobs && Eligible(t.jobs, j)
    ensures Runs(t, steps, u) && OwnSteps(steps) && SomeoneTook(t, u)
    ensures |steps| <= 2 * |ScanOrder(t.groups)| + 3
  {
    Reachable(s, before, t);
    steps, u := Taken(t, j);
  }

  lemma Taken(t: State, j: JobId) returns (steps: seq<Step>, u: State)
    requires Inv(t) && OrderKept(t) && |t.workers| > 0 && j in t.jobs && Eligible(t.jobs, j)
    ensures Runs(t, steps, u) && OwnSteps(steps) && SomeoneTook(t, u)
    ensures |steps| <= 2 * |ScanOrder(t.groups)| + 3
  {
    hide ScanOrder, Proper, OnePlaceEach, BusyIsHeld, WorkConserved, Runs;
    if t.lock == None {
      steps, u := TakenFromRest(t, j);
    } else {
      var w := t.lock.value;
      var n;
      n, u := SearchOn(t, w);
      steps := Looks(w, n);
      if Took(t, u, w) {
        assert SomeoneTook(t, u);
      } else {
        var v := AnotherLooks(t, w, j);
        InvAlways(t, steps, u);
        var more, u' := FindsWork(u, v, j);
        RunOn(t, steps, u, more, u');
        assert Took(t, u', v);
        steps, u := steps + more, u';
      }
    }
  }

  // ----- Bounded waiting, with searches that are interleaved with everything else

  /** How many groups the search that this step ends has entered; 0 if it ends none. */
  ghost function SearchedBy(s: State, step: Step): (n: nat)
    requires Proper(s.groups) && Enabled(s, step)
  {
    if step.Look? && (var k := s.workers[step.w]; k.at == |k.order| || Eligible(s.jobs, k.order[k.at]))
    then Entered(s.groups, s.workers[step.w].at) else 0
  }

  /** The searches that end in a run and entered group `g`. */
  ghost function SearchesOf(s: State, steps: seq<Step>, t: State, g: nat): (n: nat)
    requires Runs(s, steps, t)
    decreases |steps|
  {
    if steps == [] then 0
    else (if g < SearchedBy(s, steps[0]) then 1 else 0) + SearchesOf(After(s, steps[0]), steps[1..], t, g)
  }

  /** Job `j` is ready in every state of the run: nobody ever takes it. */
  ghost predicate ReadyThroughout(s: State, steps: seq<Step>, t: State, j: JobId)
    requires Runs(s, steps, t)
    decreases |steps|
  {
    Eligible(s.jobs, j) && (steps == [] || ReadyThroughout(After(s, steps[0]), steps[1..], t, j))
  }

  /** Where the jobs of group `g` begin in the scan order. */
  function Offset(groups: seq<Group>, g: nat): (n: nat)
    requires Proper(groups) && g <= |groups|
  {
    if g == 0 then 0 else |groups[0].jobs| + Offset(groups[1..], g - 1)
  }

  lemma {:induction false} EnteredFrom(groups: seq<Group>, at: nat, g: nat)
    requires Proper(groups) && g < |groups|
    ensures g < Entered(groups, at) <==> Offset(groups, g) <= at
    decreases g
  {
    if g > 0 && at >= |groups[0].jobs| {
      EnteredFrom(groups[1..], at - |groups[0].jobs|, g - 1);
    }
  }

  lemma {:induction false} PositionInOrder(groups: seq<Group>, g: nat, i: nat)
    requires Proper(groups) && g < |groups| && i < |groups[g].jobs|
    ensures var k := Offset(groups, g) + Distance(groups[g], i);
            k < |ScanOrder(groups)| && ScanOrder(groups)[k] == groups[g].jobs[i]
    decreases g
  {
    if g > 0 {
      PositionInOrder(groups[1..], g - 1, i);
    }
  }

  /** No search under way has gone past job `i` of group `g`. */
  ghost predicate NotPassed(s: State, g: nat, i: nat)
    requires Proper(s.groups) && g < |s.groups| && i < |s.groups[g].jobs|
  {
    forall w :: 0 <= w < |s.workers| && s.workers[w].Scanning? ==>
      s.workers[w].at <= Offset(s.groups, g) + Distance(s.groups[g], i)
  }

  /** The search ends at another job: it was in front, and the group's next scan starts one nearer,
      if the search got as far as the group. */
  lemma EndedInFront(s: State, w: nat, g: nat, i: nat)
    requires Inv(s) && OrderKept(s) && Enabled(s, Look(w))
    requires g < |s.groups| && i < |s.groups[g].jobs| && NotPassed(s, g, i)
    requires var k := s.workers[w]; k.at == |k.order| || Eligible(s.jobs, k.order[k.at])
    requires Eligible(s.jobs, s.groups[g].jobs[i]) && Eligible(After(s, Look(w)).jobs, s.groups[g].jobs[i])
    ensures var n := Entered(s.groups, s.workers[w].at);
            After(s, Look(w)).groups == Advance(s.groups, n)
            && (g < n ==> StartOf(s.groups[g]) != i)
  {
    hide ScanOrder, Entered, Advance, OnePlaceEach, BusyIsHeld, WorkConserved, Offset;
    PositionInOrder(s.groups, g, i);
    EnteredFrom(s.groups, s.workers[w].at, g);
  }

  /** Where a job stands after a step, and what the step adds to the searches of its group. */
  ghost predicate OneNearer(s: State, step: Step, g: nat, i: nat)
    requires Proper(s.groups) && Enabled(s, step) && g < |s.groups| && i < |s.groups[g].jobs|
  {
    var t := After(s, step);
    && Proper(t.groups) && |t.groups| == |s.groups| && t.groups[g].jobs == s.groups[g].jobs
    && NotPassed(t, g, i)
    && Distance(t.groups[g], i) + (if g < SearchedBy(s, step) then 1 else 0) == Distance(s.groups[g], i)
  }

  lemma NearerByLook(s: State, w: nat, g: nat, i: nat)
    requires Inv(s) && OrderKept(s) && Enabled(s, Look(w))
    requires g < |s.groups| && i < |s.groups[g].jobs| && NotPassed(s, g, i)
    requires Eligible(s.jobs, s.groups[g].jobs[i]) && Eligible(After(s, Look(w)).jobs, s.groups[g].jobs[i])
    ensures OneNearer(s, Look(w), g, i)
  {
    hide ScanOrder, Entered, OnePlaceEach, BusyIsHeld, WorkConserved, Offset;
    var Scanning(order, at, retry) := s.workers[w];
    if at == |order| || Eligible(s.jobs, order[at]) {
      EndedInFront(s, w, g, i);
      if g < Entered(s.groups, at) {
        DistanceShrinks(s.groups[g], i);
      }
    } else {
      PositionInOrder(s.groups, g, i);
    }
  }

  lemma NearerOtherwise(s: State, step: Step, g: nat, i: nat)
    requires Proper(s.groups) && Enabled(s, step) && !step.Look?
    requires g < |s.groups| && i < |s.groups[g].jobs| && NotPassed(s, g, i)
    ensures OneNearer(s, step, g, i)
  {
    hide ScanOrder, Entered, Offset, Distance, Dedupe;
  }

  lemma Nearer(s: State, step: Step, g: nat, i: nat)
    requires Inv(s) && OrderKept(s) && Enabled(s, step)
    requires g < |s.groups| && i < |s.groups[g].jobs| && NotPassed(s, g, i)
    requires Eligible(s.jobs, s.groups[g].jobs[i]) && Eligible(After(s, step).jobs, s.groups[g].jobs[i])
    ensures var t := After(s, step);
            && Proper(t.groups) && |t.groups| == |s.groups| && t.groups[g].jobs == s.groups[g].jobs
            && NotPassed(t, g, i)
            && Distance(t.groups[g], i) + (if g < SearchedBy(s, step) then 1 else 0) == Distance(s.groups[g], i)
  {
    hide NotPassed, Distance, SearchedBy, After, Enabled, OnePlaceEach, BusyIsHeld, WorkConserved, MutexHeld;
    if step.Look? {
      NearerByLook(s, step.w, g, i);
    } else {
      NearerOtherwise(s, step, g, i);
    }
  }

  /** While a job of a group of n jobs stays ready and untaken, fewer than n searches enter its
      group, however the searches are interleaved with posts, timers and finishing workers. */
  lemma {:induction false} ReadyJobIsReached(s: State, steps: seq<Step>, t: State, g: nat, i: nat)
    requires Inv(s) && OrderKept(s) && Runs(s, steps, t)
    requires g < |s.groups| && i < |s.groups[g].jobs| && NotPassed(s, g, i)
    requires ReadyThroughout(s, steps, t, s.groups[g].jobs[i])
    ensures SearchesOf(s, steps, t, g) <= Distance(s.groups[g], i) < |s.groups[g].jobs|
    decreases |steps|
  {
    hide Inv, OrderKept, NotPassed, After, Distance, SearchedBy;
    if steps != [] {
      var next := After(s, steps[0]);
      ReadyNow(next, steps[1..], t, s.groups[g].jobs[i]);
      Nearer(s, steps[0], g, i);
      StepKeepsInv(s, steps[0]);
      StepKeepsOrder(s, steps[0]);
      ReadyJobIsReached(next, steps[1..], t, g, i);
    }
  }

  lemma ReadyNow(s: State, steps: seq<Step>, t: State, j: JobId)
    requires Runs(s, steps, t) && ReadyThroughout(s, steps, t, j)
    ensures Eligible(s.jobs, j)
  {
  }

  lemma GroupsStay(s: State, step: Step, g: nat)
    requires Proper(s.groups) && Enabled(s, step) && g < |s.groups|
    ensures var t := After(s, step);
            Proper(t.groups) && |t.groups| == |s.groups| && t.groups[g].jobs == s.groups[g].jobs
  {
    hide ScanOrder, Entered, Dedupe;
  }

  /** A search that ends leaves none under way. */
  lemma NoneUnderWay(s: State, step: Step, g: nat, i: nat)
    requires MutexHeld(s) && Proper(s.groups) && Enabled(s, step) && SearchedBy(s, step) > 0
    requires Proper(After(s, step).groups) && g < |After(s, step).groups| && i < |After(s, step).groups[g].jobs|
    ensures NotPassed(After(s, step), g, i)
  {
    hide ScanOrder, Entered, Dedupe, Offset, Proper, Advance;
  }

  /** Bounded waiting over every run: from any reachable state on, while job `i` of a group stays
      ready, at most as many searches as the group has jobs enter the group without taking it; and
      fewer, unless a search that had passed the job before was under way. */
  lemma {:induction false} BoundedWaitingInRuns(s: State, steps: seq<Step>, t: State, g: nat, i: nat)
    requires Inv(s) && OrderKept(s) && Runs(s, steps, t) && g < |s.groups| && i < |s.groups[g].jobs|
    requires ReadyThroughout(s, steps, t, s.groups[g].jobs[i])
    ensures SearchesOf(s, steps, t, g) <= |s.groups[g].jobs|
    ensures NotPassed(s, g, i) ==> SearchesOf(s, steps, t, g) < |s.groups[g].jobs|
    decreases |steps|
  {
    MutexOf(s);
    hide Inv, OrderKept, NotPassed, After, Distance, SearchedBy;
    if NotPassed(s, g, i) {
      ReadyJobIsReached(s, steps, t, g, i);
    } else if steps != [] {
      var next := After(s, steps[0]);
      ReadyNow(next, steps[1..], t, s.groups[g].jobs[i]);
      GroupsStay(s, steps[0], g);
      StepKeepsInv(s, steps[0]);
      StepKeepsOrder(s, steps[0]);
      BoundedWaitingInRuns(next, steps[1..], t, g, i);
      if SearchedBy(s, steps[0]) > 0 {
        NoneUnderWay(s, steps[0], g, i);
      }
    }
  }

  lemma MutexOf(s: State)
    requires Inv(s)
    ensures MutexHeld(s) && Proper(s.groups)
  {
  }
}
