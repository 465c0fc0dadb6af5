/**
 The event thread (`nxlog_event_thread` in `src/core/nxlog.c`): it moves delayed events that are
 due to their job queues, and sleeps until the next one is.
 */
module Timers {
  import opened Options
  import opened EventQueue
  import opened Scheduler
  import opened Engine
  import opened EngineProofs
  import opened EngineProgress

  // ----- One pass over the delayed events

  function Due(ts: seq<Timer>, now: int): (r: seq<Timer>) {
    if ts == [] then []
    else (if ts[0].time <= now then [ts[0]] else []) + Due(ts[1..], now)
  }

  function Kept(ts: seq<Timer>, now: int): (r: seq<Timer>)
    ensures forall i :: 0 <= i < |r| ==> r[i].time > now
  {
    if ts == [] then []
    else (if ts[0].time <= now then [] else [ts[0]]) + Kept(ts[1..], now)
  }

  function Times(ts: seq<Timer>, x: Timer): (n: nat) {
    if ts == [] then 0 else (if ts[0] == x then 1 else 0) + Times(ts[1..], x)
  }

  lemma TimesFirst(t: Timer, ts: seq<Timer>, x: Timer)
    ensures Times([t] + ts, x) == Times(ts, x) + if t == x then 1 else 0
  {
    assert ([t] + ts)[1..] == ts;
  }

  lemma FirstSplit(ts: seq<Timer>, now: int)
    requires ts != []
    ensures Due(ts, now) == if ts[0].time <= now then [ts[0]] + Due(ts[1..], now) else Due(ts[1..], now)
    ensures Kept(ts, now) == if ts[0].time <= now then Kept(ts[1..], now) else [ts[0]] + Kept(ts[1..], now)
  {
  }

  /** The pass splits the events into those whose time has come and those of the future, losing and
      adding none: how many times each event is there, before and after. */
  lemma {:induction false} DueOrKept(ts: seq<Timer>, now: int, x: Timer)
    ensures Times(Due(ts, now), x) == if x.time <= now then Times(ts, x) else 0
    ensures Times(Kept(ts, now), x) == if x.time > now then Times(ts, x) else 0
    decreases |ts|
  {
    if ts != [] {
      hide Due, Kept;
      DueOrKept(ts[1..], now, x);
      FirstSplit(ts, now);
      TimesFirst(ts[0], Due(ts[1..], now), x);
      TimesFirst(ts[0], Kept(ts[1..], now), x);
    }
  }

  /** `t` is the time of the earliest of the events. */
  predicate Earliest(t: int, ts: seq<Timer>) {
    (exists i :: 0 <= i < |ts| && ts[i].time == t) && forall i :: 0 <= i < |ts| ==> t <= ts[i].time
  }

  lemma Concat(a: seq<Timer>, b: seq<Timer>, c: seq<Timer>)
    ensures a + b + c == a + (b + c)
  {
  }

  lemma {:induction false} DueNext(ts: seq<Timer>, t: Timer, now: int)
    ensures Due(ts + [t], now) == Due(ts, now) + if t.time <= now then [t] else []
  {
    if ts == [] {
      assert ts + [t] == [t] && [t][1..] == [];
    } else {
      assert (ts + [t])[0] == ts[0] && (ts + [t])[1..] == ts[1..] + [t];
      DueNext(ts[1..], t, now);
      Concat(if ts[0].time <= now then [ts[0]] else [], Due(ts[1..], now), if t.time <= now then [t] else []);
    }
  }

  lemma {:induction false} KeptNext(ts: seq<Timer>, t: Timer, now: int)
    ensures Kept(ts + [t], now) == Kept(ts, now) + if t.time <= now then [] else [t]
  {
    if ts == [] {
      assert ts + [t] == [t] && [t][1..] == [];
    } else {
      assert (ts + [t])[0] == ts[0] && (ts + [t])[1..] == ts[1..] + [t];
      KeptNext(ts[1..], t, now);
      Concat(if ts[0].time <= now then [] else [ts[0]], Kept(ts[1..], now), if t.time <= now then [] else [t]);
    }
  }

  /** The loop: the events to move, those that stay, and the time of the next one, 0 if none. */
  method Pass(ts: seq<Timer>, now: int) returns (due: seq<Timer>, kept: seq<Timer>, next: int)
    requires now >= 0
    ensures due == Due(ts, now) && kept == Kept(ts, now)
    ensures if kept == [] then next == 0 else Earliest(next, kept)
  {
    hide Due, Kept;
    due, kept, next := [], [], 0;
    NothingYet(now);
    for i := 0 to |ts|
      invariant due == Due(ts[..i], now) && kept == Kept(ts[..i], now)
      invariant if kept == [] then next == 0 else Earliest(next, kept) && next > 0
    {
      assert ts[..i + 1] == ts[..i] + [ts[i]];
      DueNext(ts[..i], ts[i], now);
      KeptNext(ts[..i], ts[i], now);
      if ts[i].time <= now {
        due := due + [ts[i]];
      } else {
        ghost var before := kept;
        kept := kept + [ts[i]];
        if ts[i].time < next || next == 0 {
          next := ts[i].time;
          assert kept[|before|].time == next;
        } else {
          ghost var k :| 0 <= k < |before| && before[k].time == next;
          assert kept[k].time == next;
        }
      }
    }
    assert ts[..|ts|] == ts;
  }

  lemma NothingYet(now: int)
    ensures Due([], now) == [] && Kept([], now) == []
  {
  }

  // ----- The pass is a sequence of steps of the engine

  predicate Expiries(steps: seq<Step>, now: int) {
    forall i :: 0 <= i < |steps| ==> steps[i].Expire? && steps[i].now == now
  }

  /** Events before position `i` have been looked at and stay. */
  lemma {:induction false} PassFrom(s: State, now: int, i: nat) returns (steps: seq<Step>, t: State)
    requires Inv(s) && s.lock == None && i <= |s.delayed|
    ensures Runs(s, steps, t) && Expiries(steps, now) && Inv(t) && t.lock == None
    ensures t.delayed == s.delayed[..i] + Kept(s.delayed[i..], now)
    decreases |s.delayed| - i
  {
    hide Inv, Kept, Runs, Without, Expiries;
    if i == |s.delayed| {
      steps, t := [], s;
      NoSteps(s, now);
      NothingYet(now);
      assert s.delayed[i..] == [] && s.delayed[..i] + [] == s.delayed;
    } else {
      KeptFrom(s.delayed, i, now);
      if s.delayed[i].time <= now {
        var step, u := ExpireOne(s, now, i);
        var more;
        more, t := PassFrom(u, now, i);
        steps := [step] + more;
        RunOn(s, [step], u, more, t);
        MoreExpiries(step, more, now);
        WithoutParts(s.delayed, i);
      } else {
        steps, t := PassFrom(s, now, i + 1);
        assert s.delayed[..i + 1] == s.delayed[..i] + [s.delayed[i]];
      }
    }
  }

  lemma NoSteps(s: State, now: int)
    ensures Runs(s, [], s) && Expiries([], now)
  {
  }

  lemma MoreExpiries(step: Step, more: seq<Step>, now: int)
    requires step.Expire? && step.now == now && Expiries(more, now)
    ensures Expiries([step] + more, now)
  {
  }

  lemma WithoutParts(ts: seq<Timer>, i: nat)
    requires i < |ts|
    ensures Without(ts, i)[..i] == ts[..i] && Without(ts, i)[i..] == ts[i + 1..]
  {
  }

  lemma KeptFrom(ts: seq<Timer>, i: nat, now: int)
    requires i < |ts|
    ensures Kept(ts[i..], now) == (if ts[i].time <= now then [] else [ts[i]]) + Kept(ts[i + 1..], now)
  {
    assert ts[i..][1..] == ts[i + 1..];
  }

  lemma ExpireOne(s: State, now: int, i: nat) returns (step: Step, u: State)
    requires Inv(s) && s.lock == None && i < |s.delayed| && s.delayed[i].time <= now
    ensures step.Expire? && step.now == now && Runs(s, [step], u) && Inv(u) && u.lock == None
    ensures u.delayed == Without(s.delayed, i)
  {
    var wake := 0;
    if Sleepers(s) != {} {
      wake :| wake in Sleepers(s);
    }
    step := Expire(i, now, wake);
    assert Enabled(s, step);
    u := After(s, step);
    RunOne(s, step);
    StepKeepsInv(s, step);
  }

  /** With the mutex free, the pass is possible as steps of the engine, and leaves exactly the
      events of the future. */
  lemma PassIsSteps(s: State, now: int) returns (steps: seq<Step>, t: State)
    requires Inv(s) && s.lock == None
    ensures Runs(s, steps, t) && Expiries(steps, now) && t.delayed == Kept(s.delayed, now)
  {
    hide Inv, Kept, Runs;
    steps, t := PassFrom(s, now, 0);
    assert s.delayed[..0] == [] && s.delayed[0..] == s.delayed;
  }

  // ----- Sleeping

  const POLL_TIMEOUT: int := 50000

  /** Between reading the clock and starting to wait time may pass, for the mutex and the pass
      itself: the lag.  The wait is for a duration, so it ends that much later. */
  datatype Thread = Idle | Clocked(now: int) | Sleeping(deadline: int, lag: int)

  datatype Watch = Watch(clock: int, delayed: seq<Timer>, thread: Thread)

  datatype Move =
    | Tick(d: nat)
    | ReadClock
    | PassAndWait(next: int)      // with the time of the earliest event that stays, 0 if none
    | Arrive(t: Timer)            // a delayed event is added, and the thread signalled
    | Cancel(i: nat)
    | Wake                        // spurious wake-up
    | TimeUp

  predicate Possible(x: Watch, m: Move) {
    match m
    case Tick(_) => true
    case ReadClock => x.thread.Idle?
    case PassAndWait(next) =>
      x.thread.Clocked? && (var kept := Kept(x.delayed, x.thread.now);
                            if kept == [] then next == 0 else Earliest(next, kept))
    case Arrive(_) => true
    case Cancel(i) => i < |x.delayed|
    case Wake => x.thread.Sleeping?
    case TimeUp => x.thread.Sleeping? && x.clock >= x.thread.deadline
  }

  function Moved(x: Watch, m: Move): (y: Watch)
    requires Possible(x, m)
  {
    match m
    case Tick(d) => x.(clock := x.clock + d)
    case ReadClock => x.(thread := Clocked(x.clock))
    case PassAndWait(next) =>
      var now := x.thread.now;
      var wait := if next > 0 then next - now else POLL_TIMEOUT;
      Watch(x.clock, Kept(x.delayed, now), Sleeping(x.clock + wait, x.clock - now))
    case Arrive(t) => Watch(x.clock, x.delayed + [t], if x.thread.Sleeping? then Idle else x.thread)
    case Cancel(i) => x.(delayed := Without(x.delayed, i))
    case Wake => x.(thread := Idle)
    case TimeUp => x.(thread := Idle)
  }

  predicate History(x: Watch, ms: seq<Move>, y: Watch)
    decreases |ms|
  {
    if ms == [] then x == y else Possible(x, ms[0]) && History(Moved(x, ms[0]), ms[1..], y)
  }

  /** A sleeping thread wakes at the latest a lag after the earliest event is due. */
  predicate InTime(x: Watch) {
    && x.clock >= 0
    && (x.thread.Clocked? ==> 0 <= x.thread.now <= x.clock)
    && (x.thread.Sleeping? ==> x.thread.lag >= 0)
    && (x.thread.Sleeping? ==>
          forall i :: 0 <= i < |x.delayed| ==> x.thread.deadline <= x.delayed[i].time + x.thread.lag)
  }

  lemma MoveKeepsTime(x: Watch, m: Move)
    requires InTime(x) && Possible(x, m)
    ensures InTime(Moved(x, m))
  {
    hide Kept;
  }

  lemma {:induction false} AlwaysInTime(x: Watch, ms: seq<Move>, y: Watch)
    requires InTime(x) && History(x, ms, y)
    ensures InTime(y)
    decreases |ms|
  {
    hide InTime, Moved, Possible;
    if ms != [] {
      MoveKeepsTime(x, ms[0]);
      AlwaysInTime(Moved(x, ms[0]), ms[1..], y);
    }
  }

  /** No due event is overslept by more than the lag, over every history of ticks, additions,
      cancellations and wake-ups: by then the wait has run out. */
  lemma NotOverslept(clock: nat, ms: seq<Move>, y: Watch, i: nat)
    requires History(Watch(clock, [], Idle), ms, y)
    requires y.thread.Sleeping? && i < |y.delayed| && y.delayed[i].time + y.thread.lag <= y.clock
    ensures Possible(y, TimeUp)
  {
    AlwaysInTime(Watch(clock, [], Idle), ms, y);
  }

  /** With no event delayed the thread sleeps for a twentieth of a second. */
  lemma IdlesForATwentieth(x: Watch)
    requires InTime(x) && x.thread.Clocked? && Kept(x.delayed, x.thread.now) == []
    ensures Possible(x, PassAndWait(0))
    ensures forall d: nat :: Possible(Moved(Moved(x, PassAndWait(0)), Tick(d)), TimeUp) <==> 20 * d >= 1_000_000
  {
  }

  lemma HistoryStep(x: Watch, m: Move, ms: seq<Move>, y: Watch)
    requires Possible(x, m) && History(Moved(x, m), ms, y)
    ensures History(x, [m] + ms, y)
  {
    assert ([m] + ms)[1..] == ms;
  }

  lemma HistoryEnds(y: Watch)
    ensures History(y, [], y)
  {
  }

  lemma KeptAlone(t: Timer, now: int)
    requires t.time > now
    ensures Kept([t], now) == [t] && Earliest(t.time, [t])
  {
  }

  /** That bound cannot be lowered: for every event of the future and every lag there is a history in
      which the event has been due for all but one unit of the lag and the thread still sleeps. */
  lemma LagIsReached(clock: nat, lag: nat, t: Timer) returns (ms: seq<Move>, y: Watch)
    requires lag > 0 && t.time > clock
    ensures History(Watch(clock, [], Idle), ms, y)
    ensures y.thread.Sleeping? && y.thread.lag == lag && y.delayed == [t]
    ensures y.clock == t.time + lag - 1 && !Possible(y, TimeUp)
  {
    hide History, Kept, Earliest;
    KeptAlone(t, clock);
    y := Watch(t.time + lag - 1, [t], Sleeping(t.time + lag, lag));
    var ready := Watch(clock + lag, [t], Clocked(clock));
    var wait: nat := t.time - clock - 1;
    HistoryEnds(y);
    ms := [];
    HistoryStep(Moved(ready, PassAndWait(t.time)), Tick(wait), ms, y);
    ms := [Tick(wait)] + ms;
    HistoryStep(ready, PassAndWait(t.time), ms, y);
    ms := [PassAndWait(t.time)] + ms;
    HistoryStep(ready.(clock := clock), Tick(lag), ms, y);
    ms := [Tick(lag)] + ms;
    HistoryStep(Watch(clock, [t], Idle), ReadClock, ms, y);
    ms := [ReadClock] + ms;
    assert [] + [t] == [t];
    HistoryStep(Watch(clock, [], Idle), Arrive(t), ms, y);
    ms := [Arrive(t)] + ms;
  }
}
