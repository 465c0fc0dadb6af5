/**
 The worker protocol (`src/core/nxlog.c`, with `src/common/event.c` and `src/core/ctx.c`): any
 number of worker threads, the timer thread and event producers, interleaved step by step.

 One step is what a thread does without giving another thread the chance to interfere.  Steps
 that need the global mutex are enabled only while it is free, except those of the worker that
 holds it.  A worker's search for a job is not one step: it reads the jobs one at a time with
 the mutex held, and other workers clear `busy` flags, outside the mutex, in between.
 */
module Engine {
  import opened EventQueue
  import opened Scheduler
  import opened Options

  datatype Worker =
    | Ready                                                      // about to take the mutex
    | Scanning(order: seq<JobId>, at: nat, retry: bool)          // holds the mutex, looking for a job
    | Asleep                                                     // in the condition wait
    | Woken                                                      // signalled, about to take the mutex again
    | Holding(job: JobId, event: Event)                          // processing an event, mutex released

  datatype Timer = Timer(event: Event, job: JobId, time: int)

  /** `live` are the identities of the event objects that exist. */
  datatype State = State(groups: seq<Group>, jobs: Table, delayed: seq<Timer>,
                         workers: seq<Worker>, lock: Option<nat>, live: set<nat>)

  datatype Step =
    | TakeLock(w: nat)
    | Look(w: nat)
    | Finish(w: nat)
    | WakeUp(w: nat)                                             // spurious wake-up
    | Post(e: Event, j: JobId, wake: nat)                        // add an event that is not delayed
    | PostDelayed(e: Event, j: JobId, time: int)
    | Expire(i: nat, now: int, wake: nat)                        // the timer thread moves a due event
    | RemoveQueued(j: JobId, i: nat)
    | RemoveDelayed(i: nat)

  predicate IsWorker(s: State, w: nat) { w < |s.workers| }

  /** `wake` is a legal answer to a condition signal: a sleeper if there is one. */
  ghost predicate Signals(s: State, wake: nat) {
    Sleepers(s) != {} ==> wake in Sleepers(s)
  }

  ghost predicate Enabled(s: State, step: Step) {
    match step
    case TakeLock(w) => IsWorker(s, w) && (s.workers[w].Ready? || s.workers[w].Woken?) && s.lock == None
    case Look(w) => IsWorker(s, w) && s.workers[w].Scanning? && s.workers[w].at <= |s.workers[w].order|
    case Finish(w) => IsWorker(s, w) && s.workers[w].Holding? && s.workers[w].job in s.jobs
    case WakeUp(w) => IsWorker(s, w) && s.workers[w].Asleep?
    case Post(e, j, wake) => s.lock == None && j in s.jobs && e.id !in s.live && Signals(s, wake)
    case PostDelayed(e, j, _) => s.lock == None && j in s.jobs && e.id !in s.live
    case Expire(i, now, wake) =>
      s.lock == None && i < |s.delayed| && s.delayed[i].time <= now && s.delayed[i].job in s.jobs && Signals(s, wake)
    case RemoveQueued(j, i) => s.lock == None && j in s.jobs && i < |s.jobs[j].events|
    case RemoveDelayed(i) => s.lock == None && i < |s.delayed|
  }

  function Without<T>(q: seq<T>, i: nat): (r: seq<T>)
    requires i < |q|
    ensures |r| == |q| - 1
  {
    q[..i] + q[i + 1..]
  }

  function Ids(q: seq<Event>): (r: set<nat>) { set i | 0 <= i < |q| :: q[i].id }

  /** Groups the scan has entered when it stands at position `at` of the scan order. */
  function Entered(groups: seq<Group>, at: nat): (n: nat)
    requires Proper(groups)
    ensures n <= |groups|
    decreases |groups|
  {
    if groups == [] then 0
    else if at < |groups[0].jobs| then 1
    else 1 + Entered(groups[1..], at - |groups[0].jobs|)
  }

  /** The job queue gains the event and is deduplicated; a sleeper is signalled if the new event
      is still there. */
  ghost function Enqueue(s: State, e: Event, j: JobId, wake: nat): (r: State)
    requires j in s.jobs && Signals(s, wake)
  {
    var job := s.jobs[j];
    var full := job.events + [e];
    var kept := Dedupe(full);
    s.(jobs := s.jobs[j := Job(job.busy, kept, job.cnt + 1 - (|full| - |kept|))],
       workers := if kept == full && Sleepers(s) != {} then s.workers[wake := Woken] else s.workers,
       live := s.live + {e.id} - Ids(full[|kept|..]))
  }

  ghost function After(s: State, step: Step): (r: State)
    requires Proper(s.groups) && Enabled(s, step)
  {
    match step
    case TakeLock(w) =>
      s.(workers := s.workers[w := Scanning(ScanOrder(s.groups), 0, s.workers[w].Woken?)], lock := Some(w))
    case Look(w) =>
      var Scanning(order, at, retry) := s.workers[w];
      if at == |order| then
        s.(groups := Advance(s.groups, Entered(s.groups, at)),
           workers := s.workers[w := if retry then Ready else Asleep],
           lock := None)
      else if !Eligible(s.jobs, order[at]) then
        s.(workers := s.workers[w := Scanning(order, at + 1, retry)])
      else
        var job := s.jobs[order[at]];
        s.(groups := Advance(s.groups, Entered(s.groups, at)),
           jobs := s.jobs[order[at] := Popped(job).(busy := true)],
           workers := s.workers[w := Holding(order[at], job.events[0])],
           lock := None)
    case Finish(w) =>
      var Holding(j, e) := s.workers[w];
      s.(jobs := s.jobs[j := s.jobs[j].(busy := false)],
         workers := s.workers[w := Ready],
         live := s.live - {e.id})
    case WakeUp(w) => s.(workers := s.workers[w := Woken])
    case Post(e, j, wake) => Enqueue(s, e, j, wake)
    case PostDelayed(e, j, time) =>
      s.(delayed := s.delayed + [Timer(e, j, time)], live := s.live + {e.id})
    case Expire(i, now, wake) =>
      Enqueue(s.(delayed := Without(s.delayed, i)), s.delayed[i].event, s.delayed[i].job, wake)
    case RemoveQueued(j, i) =>
      var job := s.jobs[j];
      s.(jobs := s.jobs[j := Job(job.busy, Without(job.events, i), job.cnt - 1)],
         live := s.live - {job.events[i].id})
    case RemoveDelayed(i) =>
      s.(delayed := Without(s.delayed, i), live := s.live - {s.delayed[i].event.id})
  }

  /** Every state some run leads to. */
  ghost predicate Initial(s: State) {
    && Proper(s.groups)
    && (forall j :: j in s.jobs <==> InSomeGroup(s.groups, j))
    && (forall j :: j in s.jobs ==> s.jobs[j] == Job(false, [], 0))
    && (forall w :: 0 <= w < |s.workers| ==> s.workers[w] == Ready)
    && s.delayed == [] && s.lock == None && s.live == {}
  }

  ghost predicate Runs(s: State, steps: seq<Step>, t: State)
    decreases |steps|
  {
    if steps == [] then s == t
    else Proper(s.groups) && Enabled(s, steps[0]) && Runs(After(s, steps[0]), steps[1..], t)
  }

  // ----- The three parts of the invariant

  ghost predicate MutexHeld(s: State) {
    && (s.lock.Some? ==> IsWorker(s, s.lock.value) && s.workers[s.lock.value].Scanning?)
    && (forall w :: 0 <= w < |s.workers| && s.workers[w].Scanning? ==>
          && s.lock == Some(w)
          && s.workers[w].at <= |s.workers[w].order|
          && forall j :: j in s.jobs ==> j in s.workers[w].order)
  }

  ghost predicate JobsMatchGroups(s: State) {
    && Proper(s.groups)
    && (forall j :: j in s.jobs <==> InSomeGroup(s.groups, j))
    && (forall j :: j in s.jobs ==> s.jobs[j].cnt == |s.jobs[j].events|)
    && (forall i :: 0 <= i < |s.delayed| ==> s.delayed[i].job in s.jobs)
  }

  predicate Holds(s: State, w: nat, j: JobId) {
    IsWorker(s, w) && s.workers[w].Holding? && s.workers[w].job == j
  }

  /** A job is busy exactly while one worker holds it, and never more than one does. */
  ghost predicate BusyIsHeld(s: State) {
    && (forall w :: 0 <= w < |s.workers| && s.workers[w].Holding? ==>
          s.workers[w].job in s.jobs && s.jobs[s.workers[w].job].busy)
    && (forall j :: j in s.jobs && s.jobs[j].busy ==> exists w: nat :: Holds(s, w, j))
    && (forall v: nat, w: nat, j :: Holds(s, v, j) && Holds(s, w, j) ==> v == w)
  }

  datatype Place = InDelayed(i: nat) | InQueue(j: JobId, i: nat) | InHand(w: nat)

  predicate At(s: State, p: Place, id: nat) {
    match p
    case InDelayed(i) => i < |s.delayed| && s.delayed[i].event.id == id
    case InQueue(j, i) => j in s.jobs && i < |s.jobs[j].events| && s.jobs[j].events[i].id == id
    case InHand(w) => IsWorker(s, w) && s.workers[w].Holding? && s.workers[w].event.id == id
  }

  /** Every live event object is in exactly one place, and nothing else is anywhere. */
  ghost predicate OnePlaceEach(s: State) {
    && (forall p, q, id :: At(s, p, id) && At(s, q, id) ==> p == q)
    && (forall p, id :: At(s, p, id) ==> id in s.live)
    && (forall id :: id in s.live ==> exists p :: At(s, p, id))
  }

  ghost function Sleepers(s: State): (r: set<nat>) {
    set w | 0 <= w < |s.workers| && s.workers[w].Asleep?
  }

  predicate Seeks(w: Worker) { w.Ready? || w.Scanning? || w.Woken? }

  /** Workers that will look for a job without anybody's help. */
  ghost function Seekers(s: State): (r: set<nat>) {
    set w | 0 <= w < |s.workers| && Seeks(s.workers[w])
  }

  /** Jobs that could be worked on right now. */
  ghost function Waiting(s: State): (r: set<JobId>) {
    set j | j in s.jobs && Eligible(s.jobs, j)
  }

  /** Waiting jobs the worker that holds the mutex has already looked at. */
  ghost function Overlooked(s: State): (r: set<JobId>)
    requires MutexHeld(s)
  {
    if s.lock == None then {}
    else var worker := s.workers[s.lock.value];
         set j | j in worker.order[..worker.at] && Eligible(s.jobs, j)
  }

  /** Work conservation.  While anybody sleeps there are at least as many workers looking for
      work as there are jobs to be done; and a worker that has overlooked some jobs is not the
      only one looking. */
  ghost predicate WorkConserved(s: State)
    requires MutexHeld(s)
  {
    && (Sleepers(s) != {} ==> |Waiting(s)| <= |Seekers(s)|)
    && (s.lock.Some? ==> |Overlooked(s)| + 1 <= |Seekers(s)|)
  }

  ghost predicate Inv(s: State) {
    MutexHeld(s) && JobsMatchGroups(s) && BusyIsHeld(s) && OnePlaceEach(s) && WorkConserved(s)
  }
}
