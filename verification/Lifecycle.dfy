/**
 The module lifecycle (`src/common/module.c`): the four-state machine driven by queued events,
 what the module's callbacks see of it, and what queue deduplication does to it.

 Callbacks return normally and do not write the status; a call is recorded whether or not the
 module declares that callback.
 */
module Lifecycle {
  import opened EventQueue

  datatype Status = Uninitialized | Stopped | Running | Paused

  datatype Callback = OnInit | OnStart | OnStop | OnPause | OnResume | OnShutdown

  /** What handling one event does: new status, callbacks called, events posted to the module's
      own queue, and whether the module's queued events are removed. */
  datatype Effect = Effect(status: Status, calls: seq<Callback>, posts: seq<EventType>, purge: bool)

  /** `hasQueue`: the module owns a log queue; `backlog`: that queue is not empty. */
  datatype Setup = Setup(hasQueue: bool, backlog: bool)

  function Nothing(s: Status): (f: Effect) { Effect(s, [], [], false) }

  function Handle(s: Status, t: EventType, u: Setup): (f: Effect) {
    match t
    case Start =>
      (match s
       case Running => Nothing(s)
       case Uninitialized => Effect(Stopped, [OnInit], [], false)
       case Paused => Effect(s, [], [Resume], false)
       case Stopped =>
         Effect(Running, [OnStart], if u.hasQueue && u.backlog then [DataAvailable] else [], false))
    case Stop =>
      if s == Stopped || s == Uninitialized then Nothing(s) else Effect(Stopped, [OnStop], [], false)
    case Pause =>
      if s == Running then Effect(Paused, [OnPause], [], false) else Nothing(s)
    case Resume =>
      if s == Paused
      then Effect(Running, [OnResume], if u.hasQueue then [DataAvailable] else [], false)
      else Nothing(s)
    case Shutdown =>
      if s == Uninitialized then Nothing(s)
      else Effect(Uninitialized,
                  (if s == Stopped then [] else [OnStop]) + [OnShutdown], [], true)
    case _ => Nothing(s)
  }

  // ----- The handlers, step by step

  class Module {
    var status: Status
    var calls: seq<Callback>
    var posts: seq<EventType>
    var queue: seq<Event>
    const setup: Setup

    constructor (setup: Setup)
      ensures this.setup == setup && status == Uninitialized
      ensures calls == [] && posts == [] && queue == []
    {
      this.setup := setup;
      status, calls, posts, queue := Uninitialized, [], [], [];
    }

    /** The new state is the old one with `Handle`'s effect applied. */
    twostate predicate Did(t: EventType)
      reads this
    {
      var f := Handle(old(status), t, setup);
      && status == f.status
      && calls == old(calls) + f.calls
      && posts == old(posts) + f.posts
      && queue == if f.purge then [] else old(queue)
    }

    method Init()
      modifies this`status, this`calls
      ensures old(status) == Uninitialized ==> status == Stopped && calls == old(calls) + [OnInit]
      ensures old(status) != Uninitialized ==> status == old(status) && calls == old(calls)
    {
      if status != Uninitialized {
        return;
      }
      calls := calls + [OnInit];
      status := Stopped;
    }

    method StartSelf()
      modifies this
      ensures Did(Start)
    {
      if status == Running {
        return;
      } else if status == Uninitialized {
        Init();
        return;
      } else if status == Paused {
        posts := posts + [Resume];
        return;
      }
      calls := calls + [OnStart];
      status := Running;
      if setup.hasQueue && setup.backlog {
        posts := posts + [DataAvailable];
      }
    }

    method StopSelf()
      modifies this
      ensures Did(Stop)
    {
      if status == Stopped {
        return;
      } else if status == Uninitialized {
        return;
      }
      status := Stopped;
      calls := calls + [OnStop];
    }

    method PauseSelf()
      modifies this
      ensures Did(Pause)
    {
      if status == Stopped {
        return;
      } else if status == Uninitialized {
        return;
      } else if status == Paused {
        return;
      }
      calls := calls + [OnPause];
      status := Paused;
    }

    method ResumeSelf()
      modifies this
      ensures Did(Resume)
    {
      if status == Running {
        return;
      } else if status == Uninitialized {
        return;
      } else if status == Stopped {
        return;
      }
      calls := calls + [OnResume];
      status := Running;
      if setup.hasQueue {
        posts := posts + [DataAvailable];
      }
    }

    method ShutdownSelf()
      modifies this
      ensures Did(Shutdown)
    {
      if status == Uninitialized {
        return;
      }
      if status == Running || status == Paused {
        StopSelf();
      }
      queue := [];
      calls := calls + [OnShutdown];
      status := Uninitialized;
    }

    method Process(e: Event)
      modifies this
      ensures Did(e.typ)
    {
      match e.typ {
        case Start => StartSelf();
        case Stop => StopSelf();
        case Pause => PauseSelf();
        case Resume => ResumeSelf();
        case Shutdown => ShutdownSelf();
        case _ =>
      }
    }
  }

  // ----- Deduplication and the status a queue leads to

  /** A run over queued events; once the module's events have been removed nothing more of the
      queue is handled.  `resume`: a RESUME has been posted and waits behind them. */
  datatype Progress = Progress(status: Status, purged: bool, resume: bool)

  function Advance(p: Progress, e: Event, u: Setup): (r: Progress) {
    if p.purged then p
    else var f := Handle(p.status, e.typ, u); Progress(f.status, f.purge, p.resume || Resume in f.posts)
  }

  /** The next START finds the module uninitialized. */
  predicate FromScratch(p: Progress) { p.status == Uninitialized && !p.purged }

  function HandleAll(p: Progress, q: seq<Event>, u: Setup): (r: Progress)
    decreases |q|
  {
    if q == [] then p else Advance(HandleAll(p, q[..|q| - 1], u), q[|q| - 1], u)
  }

  /** Length of the run of events at the tail of `q` that all equal its last event. */
  function TailRun(q: seq<Event>): (m: nat)
    requires q != []
    ensures 1 <= m <= |q|
    decreases |q|
  {
    if Doubled(q, |q|) then TailRun(q[..|q| - 1]) + 1 else 1
  }

  /** The one family of queues the pass changes the meaning of: at least two equal START events
      at the tail, the first of which finds the module uninitialized. */
  predicate StartsFromScratch(p: Progress, q: seq<Event>, u: Setup) {
    && q != []
    && q[|q| - 1].typ == Start
    && TailRun(q) >= 2
    && FromScratch(HandleAll(p, q[..|q| - TailRun(q)], u))
  }

  /** Two equal events in a row act as one, except START on an uninitialized module. */
  lemma TwiceIsOnce(p: Progress, e: Event, f: Event, u: Setup)
    requires Same(e, f)
    ensures Advance(Advance(p, e, u), f, u) == Advance(p, e, u)
      <==> !(e.typ == Start && FromScratch(p))
  {
  }

  lemma PairTwiceIsOnce(p: Progress, a: Event, b: Event, c: Event, d: Event, u: Setup)
    requires a.typ == c.typ && b.typ == d.typ && Alternates(c.typ, d.typ)
    ensures Advance(Advance(Advance(Advance(p, a, u), b, u), c, u), d, u) == Advance(Advance(p, a, u), b, u)
  {
  }

  lemma LastHandled(p: Progress, q: seq<Event>, n: nat, u: Setup)
    requires 0 < n <= |q|
    ensures HandleAll(p, q[..n], u) == Advance(HandleAll(p, q[..n - 1], u), q[n - 1], u)
  {
    assert q[..n][..n - 1] == q[..n - 1];
  }

  lemma RepeatIsOnce(p: Progress, q: seq<Event>, u: Setup)
    requires |q| >= 4 && Repeats(q, |q|)
    ensures HandleAll(p, q, u) == HandleAll(p, q[..|q| - 2], u)
  {
    hide HandleAll, Advance, Alternates;
    var n := |q|;
    assert q[..n] == q;
    LastHandled(p, q, n, u);
    LastHandled(p, q, n - 1, u);
    LastHandled(p, q, n - 2, u);
    LastHandled(p, q, n - 3, u);
    PairTwiceIsOnce(HandleAll(p, q[..n - 4], u), q[n - 4], q[n - 3], q[n - 2], q[n - 1], u);
  }

  lemma DoubledIsOnce(p: Progress, q: seq<Event>, u: Setup)
    requires Doubled(q, |q|)
    ensures HandleAll(p, q, u) == HandleAll(p, q[..|q| - 1], u)
      <==> !(q[|q| - 1].typ == Start && FromScratch(HandleAll(p, q[..|q| - 2], u)))
  {
    var n := |q|;
    assert q[..n - 1][..n - 2] == q[..n - 2];
    TwiceIsOnce(HandleAll(p, q[..n - 2], u), q[n - 2], q[n - 1], u);
  }

  /** The effect of `m` START events. */
  function AfterStarts(p: Progress, m: nat, u: Setup): (r: Progress)
    requires m > 0
  {
    if FromScratch(p) && m >= 2 then Progress(Running, false, p.resume)
    else if p.purged then p else Progress(Handle(p.status, Start, u).status, false, p.resume || p.status == Paused)
  }

  /** A run of START events collapses to its first one. */
  lemma {:induction false} StartRunCollapses(q: seq<Event>)
    requires q != [] && q[|q| - 1].typ == Start
    ensures Dedupe(q) == q[..|q| - TailRun(q) + 1]
    decreases |q|
  {
    if Doubled(q, |q|) {
      var t := q[..|q| - 1];
      StartRunCollapses(t);
      assert t[..|t| - TailRun(t) + 1] == q[..|q| - TailRun(q) + 1];
    }
  }

  lemma StartOnceMore(p: Progress, m: nat, e: Event, u: Setup)
    requires e.typ == Start
    ensures Advance(p, e, u) == AfterStarts(p, 1, u)
    ensures m > 0 ==> Advance(AfterStarts(p, m, u), e, u) == AfterStarts(p, m + 1, u)
  {
  }

  /** Handling a tail run of START events: the status before it decides. */
  lemma {:induction false} StartRunStatus(p: Progress, q: seq<Event>, u: Setup)
    requires q != [] && q[|q| - 1].typ == Start
    ensures q[|q| - TailRun(q)].typ == Start
    ensures HandleAll(p, q, u) == AfterStarts(HandleAll(p, q[..|q| - TailRun(q)], u), TailRun(q), u)
    decreases |q|
  {
    var t := q[..|q| - 1];
    var m := TailRun(q);
    var before := HandleAll(p, q[..|q| - m], u);
    StartOnceMore(before, m - 1, q[|q| - 1], u);
    if Doubled(q, |q|) {
      StartRunStatus(p, t, u);
      assert t[..|q| - m] == q[..|q| - m];
    }
  }

  lemma {:induction false} NoStartPreserved(p: Progress, q: seq<Event>, u: Setup)
    requires q == [] || q[|q| - 1].typ != Start
    ensures HandleAll(p, Dedupe(q), u) == HandleAll(p, q, u)
    decreases |q|
  {
    if Doubled(q, |q|) {
      DoubledIsOnce(p, q, u);
      NoStartPreserved(p, q[..|q| - 1], u);
    } else if Repeats(q, |q|) {
      RepeatIsOnce(p, q, u);
      NoStartPreserved(p, q[..|q| - 2], u);
    }
  }

  /** Deduplication preserves what a queue does to the module's status, from every status,
      exactly when the queue does not start an uninitialized module twice in a row. */
  lemma DedupePreservesMeaning(p: Progress, q: seq<Event>, u: Setup)
    ensures HandleAll(p, Dedupe(q), u).status == HandleAll(p, q, u).status
      <==> !StartsFromScratch(p, q, u)
  {
    if q != [] && q[|q| - 1].typ == Start {
      StartRunCollapses(q);
      StartRunStatus(p, q, u);
      var k := |q| - TailRun(q);
      assert q[..k + 1][..k] == q[..k];
    } else {
      NoStartPreserved(p, q, u);
    }
  }

  // ----- With the events that handlers post

  /** What posted events do: each goes to the tail of the queue, which is deduplicated. */
  function Posted(q: seq<Event>, posts: seq<EventType>, e: Event): (r: seq<Event>)
    ensures Weight(r) <= Weight(q) + Weights(posts)
    decreases |posts|
  {
    if posts == [] then q
    else
      var n := |posts| - 1;
      var before := Posted(q, posts[..n], e);
      var more := before + [e.(typ := posts[n])];
      WeightAdds(before, e.(typ := posts[n]));
      DedupeIsLighter(more);
      Dedupe(more)
  }

  /** Handlers post only what is lighter than the event handled. */
  function WeightOf(t: EventType): (n: nat) { if t == Start then 3 else if t == Resume then 2 else 1 }

  function Weights(ts: seq<EventType>): (n: nat) {
    if ts == [] then 0 else Weights(ts[..|ts| - 1]) + WeightOf(ts[|ts| - 1])
  }

  function Weight(q: seq<Event>): (n: nat)
    decreases |q|
  {
    if q == [] then 0 else Weight(q[..|q| - 1]) + WeightOf(q[|q| - 1].typ)
  }

  lemma WeightAdds(q: seq<Event>, e: Event)
    ensures Weight(q + [e]) == Weight(q) + WeightOf(e.typ)
  {
    assert (q + [e])[..|q|] == q;
  }

  lemma {:induction false} DedupeIsLighter(q: seq<Event>)
    ensures Weight(Dedupe(q)) <= Weight(q)
    decreases |q|
  {
    if Drop(q) != 0 {
      DedupeIsLighter(q[..|q| - Drop(q)]);
      if Drop(q) == 2 {
        assert q[..|q| - 1][..|q| - 2] == q[..|q| - 2];
      }
    }
  }

  lemma {:induction false} WeightOfRest(q: seq<Event>)
    requires q != []
    ensures Weight(q) == WeightOf(q[0].typ) + Weight(q[1..])
    decreases |q|
  {
    if |q| > 1 {
      var n := |q| - 1;
      WeightOfRest(q[..n]);
      assert q[..n][1..] == q[1..][..n - 1];
    }
  }

  lemma PostsAreLighter(s: Status, t: EventType, u: Setup)
    ensures Weights(Handle(s, t, u).posts) < WeightOf(t)
  {
    var posts := Handle(s, t, u).posts;
    assert |posts| <= 1;
    if |posts| == 1 {
      assert posts[..0] == [];
      assert Weights(posts) == WeightOf(posts[0]);
    }
  }

  /** The status the module is left in when its queue has been worked off, head first, with
      everything posted meanwhile. */
  function WorkOff(s: Status, q: seq<Event>, u: Setup): (r: Status)
    decreases Weight(q)
  {
    if q == [] then s
    else
      var f := Handle(s, q[0].typ, u);
      if f.purge then f.status
      else
        WeightOfRest(q);
        PostsAreLighter(s, q[0].typ, u);
        WorkOff(f.status, Posted(q[1..], f.posts, q[0]), u)
  }

  /** The RESUME that waits behind the queue is handled last. */
  function Settled(p: Progress, u: Setup): (s: Status) {
    if p.resume && !p.purged then Handle(p.status, Resume, u).status else p.status
  }

  lemma {:induction false} HandleFirst(p: Progress, q: seq<Event>, u: Setup)
    requires q != []
    ensures HandleAll(p, q, u) == HandleAll(Advance(p, q[0], u), q[1..], u)
    decreases |q|
  {
    hide Advance;
    if |q| > 1 {
      var n := |q| - 1;
      HandleFirst(p, q[..n], u);
      assert q[..n][1..] == q[1..][..n - 1];
    } else {
      assert q[..0] == [] && q[1..] == [];
    }
  }

  lemma {:induction false} PurgedStays(p: Progress, q: seq<Event>, u: Setup)
    requires p.purged
    ensures HandleAll(p, q, u) == p
    decreases |q|
  {
    if q != [] {
      PurgedStays(p, q[..|q| - 1], u);
    }
  }

  /** A RESUME noted beforehand or posted to the tail: the module ends up the same. */
  lemma {:induction false} NotedResume(s: Status, purged: bool, q: seq<Event>, u: Setup)
    ensures var a, b := HandleAll(Progress(s, purged, true), q, u), HandleAll(Progress(s, purged, false), q, u);
            a.status == b.status && a.purged == b.purged && a.resume
    decreases |q|
  {
    if q != [] {
      NotedResume(s, purged, q[..|q| - 1], u);
    }
  }

  lemma ResumeLast(p: Progress, e: Event, u: Setup)
    requires e.typ == Resume
    ensures Settled(Advance(p, e, u), u) == Settled(p.(resume := true), u)
  {
  }

  lemma QuietLast(p: Progress, e: Event, u: Setup)
    requires e.typ == DataAvailable
    ensures Advance(p, e, u) == p
  {
  }

  /** Working off a queue is handling its events in order and a posted RESUME last. */
  lemma {:induction false} WorkOffSettles(s: Status, q: seq<Event>, u: Setup)
    ensures WorkOff(s, q, u) == Settled(HandleAll(Progress(s, false, false), q, u), u)
    decreases Weight(q)
  {
    hide HandleAll, Dedupe;
    if q == [] {
      HandleNothing(Progress(s, false, false), u);
    } else {
      var p := Progress(s, false, false);
      var f := Handle(s, q[0].typ, u);
      HandleFirst(p, q, u);
      if f.purge {
        PurgedStays(Advance(p, q[0], u), q[1..], u);
      } else {
        WeightOfRest(q);
        PostsAreLighter(s, q[0].typ, u);
        WorkOffSettles(f.status, Posted(q[1..], f.posts, q[0]), u);
        PostedSettles(f.status, q[1..], f.posts, q[0], u);
      }
    }
  }

  lemma HandleNothing(p: Progress, u: Setup)
    ensures HandleAll(p, [], u) == p
  {
  }

  lemma PostedSettles(s: Status, q: seq<Event>, posts: seq<EventType>, e: Event, u: Setup)
    requires posts == [] || posts == [Resume] || posts == [DataAvailable]
    ensures Settled(HandleAll(Progress(s, false, false), Posted(q, posts, e), u), u) ==
            Settled(HandleAll(Progress(s, false, Resume in posts), q, u), u)
  {
    if posts != [] {
      hide HandleAll, Dedupe;
      assert posts[..0] == [];
      var p := Progress(s, false, false);
      var last := e.(typ := posts[0]);
      var more := q + [last];
      NoStartPreserved(p, more, u);
      assert more[..|more|] == more && more[..|q|] == q;
      LastHandled(p, more, |more|, u);
      NotedResume(s, false, q, u);
      if posts[0] == Resume {
        ResumeLast(HandleAll(p, q, u), last, u);
      } else {
        QuietLast(HandleAll(p, q, u), last, u);
      }
    }
  }

  /** The same with everything the handlers post: deduplication preserves what working off the
      queue does to the module, exactly unless the queue starts an uninitialized module twice in a
      row. */
  lemma DedupePreservesWork(s: Status, q: seq<Event>, u: Setup)
    ensures WorkOff(s, Dedupe(q), u) == WorkOff(s, q, u) <==> !StartsFromScratch(Progress(s, false, false), q, u)
  {
    hide HandleAll, Dedupe, WorkOff, Settled, AfterStarts, Advance, TailRun;
    var p := Progress(s, false, false);
    WorkOffSettles(s, q, u);
    WorkOffSettles(s, Dedupe(q), u);
    if q != [] && q[|q| - 1].typ == Start {
      StartRunCollapses(q);
      StartRunStatus(p, q, u);
      var k := |q| - TailRun(q);
      var before := HandleAll(p, q[..k], u);
      LastHandled(p, q, k + 1, u);
      StartOnceMore(before, 1, q[k], u);
      StartsSettle(before, TailRun(q), u);
    } else {
      NoStartPreserved(p, q, u);
    }
  }

  lemma StartsSettle(p: Progress, m: nat, u: Setup)
    requires m > 0
    ensures Settled(AfterStarts(p, 1, u), u) == Settled(AfterStarts(p, m, u), u) <==> !(FromScratch(p) && m >= 2)
  {
  }

  /** A witness of the failing family: the module is left stopped instead of running. */
  lemma StartTwiceIsNotStartOnce(u: Setup)
    ensures var e := Event(0, Start, 0, 1);
            var q := [e, e.(id := 1)];
            && HandleAll(Progress(Uninitialized, false, false), q, u).status == Running
            && HandleAll(Progress(Uninitialized, false, false), Dedupe(q), u).status == Stopped
  {
    var e := Event(0, Start, 0, 1);
    var q := [e, e.(id := 1)];
    var p := Progress(Uninitialized, false, false);
    assert q[..1] == [e] && [e][..0] == [];
    assert HandleAll(p, [e], u) == Advance(p, e, u);
  }

  /** Without START the handlers post nothing that has a lifecycle handler itself, so the status
      reached is the one the module is left in. */
  lemma PostsAreDataOnly(s: Status, t: EventType, u: Setup)
    requires t != Start
    ensures forall x :: x in Handle(s, t, u).posts ==> x == DataAvailable
    ensures Handle(s, DataAvailable, u) == Nothing(s)
  {
  }

  // ----- What the module is told, and what an event achieves

  /** A module is told about its data if and only if it starts running with a queue that is not
      empty, or goes on after a pause with any queue; a START that finds it paused becomes a RESUME;
      and its queued events go exactly when it becomes uninitialized. */
  lemma WhatIsPosted(s: Status, t: EventType, u: Setup)
    ensures var f := Handle(s, t, u);
            && (DataAvailable in f.posts <==>
                s != Running && f.status == Running && u.hasQueue && (u.backlog || s == Paused))
            && (Resume in f.posts <==> s == Paused && t == Start)
            && (f.purge <==> s != Uninitialized && f.status == Uninitialized)
            && |f.posts| <= 1 && forall x :: x in f.posts ==> x == DataAvailable || x == Resume
  {
  }

  /** An event, and whether the module's log queue holds anything when it is handled. */
  datatype Occurrence = Occurrence(typ: EventType, backlog: bool)

  function StatusAfter(os: seq<Occurrence>, hasQueue: bool): (s: Status)
    decreases |os|
  {
    if os == [] then Uninitialized
    else
      var o := os[|os| - 1];
      Handle(StatusAfter(os[..|os| - 1], hasQueue), o.typ, Setup(hasQueue, o.backlog)).status
  }

  /** The `n`th event makes the module look into its queue. */
  predicate ToldAt(os: seq<Occurrence>, hasQueue: bool, n: nat)
    requires n < |os|
  {
    DataAvailable in Handle(StatusAfter(os[..n], hasQueue), os[n].typ, Setup(hasQueue, os[n].backlog)).posts
  }

  /** The module runs since the `n`th event. */
  predicate RunsSince(os: seq<Occurrence>, hasQueue: bool, n: nat) {
    && n < |os| && StatusAfter(os[..n], hasQueue) != Running
    && forall k :: n < k <= |os| ==> StatusAfter(os[..k], hasQueue) == Running
  }

  /** Over every sequence of events: a module that runs has started to run at some event, and if its
      log queue held anything then, it was told. */
  lemma {:induction false} NotUntold(os: seq<Occurrence>, hasQueue: bool) returns (n: nat)
    requires StatusAfter(os, hasQueue) == Running
    ensures n < |os| && RunsSince(os, hasQueue, n)
    ensures hasQueue && os[n].backlog ==> ToldAt(os, hasQueue, n)
    decreases |os|
  {
    hide Handle;
    n := |os| - 1;
    var before := os[..n];
    assert os[..|os|] == os;
    var o, s := os[n], StatusAfter(before, hasQueue);
    WhatIsPosted(s, o.typ, Setup(hasQueue, o.backlog));
    if s == Running {
      n := NotUntold(before, hasQueue);
      assert before[..n] == os[..n];
      forall k | n < k <= |os|
        ensures StatusAfter(os[..k], hasQueue) == Running
      {
        if k <= |before| {
          assert before[..k] == os[..k];
        }
      }
    }
  }

  lemma {:induction false} PurgedIsGone(s: Status, q: seq<Event>, u: Setup)
    ensures HandleAll(Progress(s, false, false), q, u).purged ==>
            HandleAll(Progress(s, false, false), q, u).status == Uninitialized
    decreases |q|
  {
    if q != [] {
      PurgedIsGone(s, q[..|q| - 1], u);
    }
  }

  /** What a queue of events leaves behind, from every status, once it has been worked off with
      everything the handlers post: after a final STOP the module does not run and is not paused,
      after a final SHUTDOWN it is uninitialized, after a final START or RESUME it is not paused, and
      after a final PAUSE it does not run unless a START that found it paused is still to be
      honoured. */
  lemma LastEventDecides(s: Status, q: seq<Event>, u: Setup)
    requires q != []
    ensures var t, r := q[|q| - 1].typ, WorkOff(s, q, u);
            && (t == Stop ==> r == Stopped || r == Uninitialized)
            && (t == Shutdown ==> r == Uninitialized)
            && (t == Start || t == Resume ==> r != Paused)
            && (t == Pause ==> r != Running || HandleAll(Progress(s, false, false), q, u).resume)
  {
    hide HandleAll, WorkOff;
    var p := Progress(s, false, false);
    var n := |q| - 1;
    assert q[..|q|] == q;
    WorkOffSettles(s, q, u);
    LastHandled(p, q, |q|, u);
    PurgedIsGone(s, q[..n], u);
  }

  /** One event alone, with all that it entails. */
  lemma EventAchieves(s: Status, e: Event, u: Setup)
    ensures WorkOff(s, [e], u) ==
            match e.typ
            case Start => if s == Uninitialized then Stopped else Running
            case Stop => if s == Uninitialized then Uninitialized else Stopped
            case Pause => if s == Running then Paused else s
            case Resume => if s == Paused then Running else s
            case Shutdown => Uninitialized
            case _ => s
  {
    hide HandleAll, WorkOff;
    var p := Progress(s, false, false);
    assert [e][..1] == [e] && [e][..0] == [];
    WorkOffSettles(s, [e], u);
    LastHandled(p, [e], 1, u);
    HandleNothing(p, u);
  }

  // ----- The callback language

  datatype Regex = Sym(c: Callback) | Cat(a: Regex, b: Regex) | Opt(r: Regex) | Star(r: Regex)

  ghost predicate Matches(r: Regex, w: seq<Callback>)
    decreases r, |w|
  {
    match r
    case Sym(c) => w == [c]
    case Cat(a, b) => exists i | 0 <= i <= |w| :: Matches(a, w[..i]) && Matches(b, w[i..])
    case Opt(a) => w == [] || Matches(a, w)
    case Star(a) => w == [] || exists i | 1 <= i <= |w| :: Matches(a, w[..i]) && Matches(r, w[i..])
  }

  const Blink := Cat(Sym(OnPause), Sym(OnResume))
  const Session := Cat(Sym(OnStart), Cat(Star(Blink), Cat(Opt(Sym(OnPause)), Sym(OnStop))))
  const Life := Cat(Sym(OnInit), Cat(Star(Session), Sym(OnShutdown)))
  /** (init (start (pause resume)* pause? stop)* shutdown)* */
  const Lives := Star(Life)

  lemma CatIntro(a: Regex, b: Regex, v: seq<Callback>, w: seq<Callback>)
    requires Matches(a, v) && Matches(b, w)
    ensures Matches(Cat(a, b), v + w)
  {
    assert (v + w)[..|v|] == v && (v + w)[|v|..] == w;
  }

  lemma CatElim(a: Regex, b: Regex, w: seq<Callback>) returns (v: seq<Callback>, x: seq<Callback>)
    requires Matches(Cat(a, b), w)
    ensures w == v + x && Matches(a, v) && Matches(b, x)
  {
    var i :| 0 <= i <= |w| && Matches(a, w[..i]) && Matches(b, w[i..]);
    v, x := w[..i], w[i..];
  }

  lemma {:induction false} StarSnoc(r: Regex, v: seq<Callback>, w: seq<Callback>)
    requires Matches(Star(r), v) && Matches(r, w) && w != []
    ensures Matches(Star(r), v + w)
    decreases |v|
  {
    var u := v + w;
    if v == [] {
      assert u[..|u|] == w && u[|u|..] == [];
    } else {
      var i :| 1 <= i <= |v| && Matches(r, v[..i]) && Matches(Star(r), v[i..]);
      StarSnoc(r, v[i..], w);
      assert u[..i] == v[..i] && u[i..] == v[i..] + w;
    }
  }

  /** The status the last callback leaves the module in. */
  function Position(w: seq<Callback>): (s: Status) {
    if w == [] then Uninitialized
    else match w[|w| - 1]
         case OnInit => Stopped
         case OnStart => Running
         case OnStop => Stopped
         case OnPause => Paused
         case OnResume => Running
         case OnShutdown => Uninitialized
  }

  function Completion(s: Status): (w: seq<Callback>) {
    match s
    case Uninitialized => []
    case Stopped => [OnShutdown]
    case Running => [OnStop, OnShutdown]
    case Paused => [OnStop, OnShutdown]
  }

  /** The word so far, cut into finished lives, finished sessions and pause/resume pairs. */
  datatype Parts = Parts(lives: seq<Callback>, sessions: seq<Callback>, blinks: seq<Callback>)

  ghost predicate WellCut(s: Status, w: seq<Callback>, p: Parts) {
    && Matches(Lives, p.lives) && Matches(Star(Session), p.sessions) && Matches(Star(Blink), p.blinks)
    && match s
       case Uninitialized => w == p.lives
       case Stopped => w == p.lives + [OnInit] + p.sessions
       case Running => w == p.lives + [OnInit] + p.sessions + [OnStart] + p.blinks
       case Paused => w == p.lives + [OnInit] + p.sessions + [OnStart] + p.blinks + [OnPause]
  }

  function Trace(s: Status, events: seq<EventType>, u: Setup): (r: (Status, seq<Callback>))
    decreases |events|
  {
    if events == [] then (s, [])
    else
      var (t, w) := Trace(s, events[..|events| - 1], u);
      var f := Handle(t, events[|events| - 1], u);
      (f.status, w + f.calls)
  }

  lemma CatThree(a: Regex, b: Regex, c: Regex, v: seq<Callback>, w: seq<Callback>, x: seq<Callback>)
    requires Matches(a, v) && Matches(b, w) && Matches(c, x)
    ensures Matches(Cat(a, Cat(b, c)), v + w + x)
  {
    hide Matches;
    CatIntro(b, c, w, x);
    CatIntro(a, Cat(b, c), v, w + x);
    assert v + (w + x) == v + w + x;
  }

  lemma CatFour(a: Regex, b: Regex, c: Regex, d: Regex,
                v: seq<Callback>, w: seq<Callback>, x: seq<Callback>, y: seq<Callback>)
    requires Matches(a, v) && Matches(b, w) && Matches(c, x) && Matches(d, y)
    ensures Matches(Cat(a, Cat(b, Cat(c, d))), v + w + x + y)
  {
    hide Matches;
    CatIntro(c, d, x, y);
    CatThree(a, b, Cat(c, d), v, w, x + y);
    assert v + w + (x + y) == v + w + x + y;
  }

  lemma SessionEnds(blinks: seq<Callback>, pause: seq<Callback>)
    requires Matches(Star(Blink), blinks) && Matches(Opt(Sym(OnPause)), pause)
    ensures Matches(Session, [OnStart] + blinks + pause + [OnStop])
  {
    CatFour(Sym(OnStart), Star(Blink), Opt(Sym(OnPause)), Sym(OnStop), [OnStart], blinks, pause, [OnStop]);
  }

  lemma LifeEnds(sessions: seq<Callback>)
    requires Matches(Star(Session), sessions)
    ensures Matches(Life, [OnInit] + sessions + [OnShutdown])
  {
    CatThree(Sym(OnInit), Star(Session), Sym(OnShutdown), [OnInit], sessions, [OnShutdown]);
  }

  /** Stopping closes the session in the cut. */
  lemma EmptyStars()
    ensures Matches(Star(Session), []) && Matches(Star(Blink), []) && Matches(Opt(Sym(OnPause)), [])
    ensures Matches(Opt(Sym(OnPause)), [OnPause])
  {
  }

  lemma OneBlink()
    ensures Matches(Blink, [OnPause] + [OnResume])
  {
    CatIntro(Sym(OnPause), Sym(OnResume), [OnPause], [OnResume]);
  }

  lemma CutStop(s: Status, w: seq<Callback>, p: Parts) returns (p': Parts)
    requires (s == Running || s == Paused) && WellCut(s, w, p)
    ensures WellCut(Stopped, w + [OnStop], p')
  {
    hide Matches;
    EmptyStars();
    var pause := if s == Paused then [OnPause] else [];
    var session := [OnStart] + p.blinks + pause + [OnStop];
    SessionEnds(p.blinks, pause);
    StarSnoc(Session, p.sessions, session);
    p' := Parts(p.lives, p.sessions + session, []);
    assert w + [OnStop] == p.lives + [OnInit] + (p.sessions + session);
  }

  lemma CutShutdown(w: seq<Callback>, p: Parts) returns (p': Parts)
    requires WellCut(Stopped, w, p)
    ensures WellCut(Uninitialized, w + [OnShutdown], p')
  {
    var life := [OnInit] + p.sessions + [OnShutdown];
    LifeEnds(p.sessions);
    StarSnoc(Life, p.lives, life);
    p' := Parts(p.lives + life, [], []);
    assert w + [OnShutdown] == p.lives + life;
  }

  lemma CutStep(s: Status, w: seq<Callback>, p: Parts, t: EventType, u: Setup) returns (p': Parts)
    requires WellCut(s, w, p)
    ensures var f := Handle(s, t, u); WellCut(f.status, w + f.calls, p')
  {
    hide Matches;
    EmptyStars();
    var f := Handle(s, t, u);
    p' := p;
    if f.calls == [] {
      assert w + [] == w;
    } else if t == Stop {
      p' := CutStop(s, w, p);
    } else if t == Shutdown {
      if s == Stopped {
        p' := CutShutdown(w, p);
      } else {
        var q := CutStop(s, w, p);
        p' := CutShutdown(w + [OnStop], q);
        assert w + [OnStop] + [OnShutdown] == w + f.calls;
      }
    } else if t == Resume {
      OneBlink();
      StarSnoc(Blink, p.blinks, [OnPause] + [OnResume]);
      p' := p.(blinks := p.blinks + ([OnPause] + [OnResume]));
      assert w + [OnResume] == p.lives + [OnInit] + p.sessions + [OnStart] + p'.blinks;
    } else if t == Start {
      p' := if s == Uninitialized then p.(sessions := []) else p.(blinks := []);
      if s == Uninitialized {
        assert w + [OnInit] == p.lives + [OnInit] + [];
      } else {
        assert w + [OnStart] == p.lives + [OnInit] + p.sessions + [OnStart] + [];
      }
    }
  }

  lemma {:induction false} CutTrace(events: seq<EventType>, u: Setup) returns (p: Parts)
    ensures var (s, w) := Trace(Uninitialized, events, u); WellCut(s, w, p)
    decreases |events|
  {
    if events == [] {
      p := Parts([], [], []);
    } else {
      var (s, w) := Trace(Uninitialized, events[..|events| - 1], u);
      p := CutTrace(events[..|events| - 1], u);
      p := CutStep(s, w, p, events[|events| - 1], u);
    }
  }

  /** Every callback trace, from every event sequence, is a prefix of a word of the language,
      and the status is the one its last callback stands for. */
  lemma TracesAreInTheLanguage(events: seq<EventType>, u: Setup)
    ensures var (s, w) := Trace(Uninitialized, events, u);
            Matches(Lives, w + Completion(s)) && s == Position(w)
  {
    var (s, w) := Trace(Uninitialized, events, u);
    var p := CutTrace(events, u);
    PositionOfTrace(events, u);
    match s {
      case Uninitialized => assert w + [] == w;
      case Stopped => var q := CutShutdown(w, p);
      case Running =>
        var q := CutStop(s, w, p);
        q := CutShutdown(w + [OnStop], q);
        assert w + [OnStop] + [OnShutdown] == w + Completion(s);
      case Paused =>
        var q := CutStop(s, w, p);
        q := CutShutdown(w + [OnStop], q);
        assert w + [OnStop] + [OnShutdown] == w + Completion(s);
    }
  }

  lemma CallsMoveStatus(s: Status, t: EventType, u: Setup)
    ensures var f := Handle(s, t, u);
            if f.calls == [] then f.status == s else f.status == Position(f.calls)
  {
  }

  lemma PositionOfNothing()
    ensures Position([]) == Uninitialized
  {
  }

  lemma PositionAppend(v: seq<Callback>, w: seq<Callback>)
    ensures Position(v + w) == if w == [] then Position(v) else Position(w)
  {
    assert w == [] ==> v + w == v;
  }

  lemma {:induction false} PositionOfTrace(events: seq<EventType>, u: Setup)
    ensures var (s, w) := Trace(Uninitialized, events, u); s == Position(w)
    decreases |events|
  {
    hide Handle, Position;
    if events == [] {
      assert Position([]) == Uninitialized by { PositionOfNothing(); }
    } else {
      var (s, w) := Trace(Uninitialized, events[..|events| - 1], u);
      PositionOfTrace(events[..|events| - 1], u);
      CallsMoveStatus(s, events[|events| - 1], u);
      PositionAppend(w, Handle(s, events[|events| - 1], u).calls);
    }
  }

  // ----- Conversely, every prefix of the language is the trace of some events

  /** The deterministic automaton of the language. */
  predicate Allowed(s: Status, c: Callback) {
    match c
    case OnInit => s == Uninitialized
    case OnStart => s == Stopped
    case OnStop => s == Running || s == Paused
    case OnPause => s == Running
    case OnResume => s == Paused
    case OnShutdown => s == Stopped
  }

  predicate Accepted(s: Status, w: seq<Callback>)
    decreases |w|
  {
    w == [] || (Allowed(s, w[0]) && Accepted(Position(w[..1]), w[1..]))
  }

  function EndsIn(s: Status, w: seq<Callback>): (r: Status) {
    if w == [] then s else Position(w)
  }

  lemma {:induction false} AcceptedCat(s: Status, v: seq<Callback>, w: seq<Callback>)
    ensures Accepted(s, v + w) <==> Accepted(s, v) && Accepted(EndsIn(s, v), w)
    decreases |v|
  {
    if v == [] {
      assert v + w == w;
    } else {
      assert (v + w)[1..] == v[1..] + w && (v + w)[..1] == v[..1];
      AcceptedCat(Position(v[..1]), v[1..], w);
    }
  }

  lemma {:induction false} BlinksAccepted(w: seq<Callback>)
    requires Matches(Star(Blink), w)
    ensures Accepted(Running, w) && EndsIn(Running, w) == Running
    decreases |w|
  {
    if w != [] {
      var i :| 1 <= i <= |w| && Matches(Blink, w[..i]) && Matches(Star(Blink), w[i..]);
      var v, x := CatElim(Sym(OnPause), Sym(OnResume), w[..i]);
      assert w[..i] == [OnPause, OnResume];
      BlinksAccepted(w[i..]);
      assert w == [OnPause, OnResume] + w[i..];
      assert [OnPause, OnResume][1..] == [OnResume];
      AcceptedCat(Running, [OnPause, OnResume], w[i..]);
    }
  }

  lemma SessionTailAccepted(w: seq<Callback>)
    requires Matches(Cat(Opt(Sym(OnPause)), Sym(OnStop)), w)
    ensures w != [] && Accepted(Running, w) && Position(w) == Stopped
  {
    var v, x := CatElim(Opt(Sym(OnPause)), Sym(OnStop), w);
    if v != [] {
      assert w[1..] == [OnStop] && w[..1] == [OnPause];
    }
  }

  lemma StartAccepted(v: seq<Callback>)
    requires Matches(Sym(OnStart), v)
    ensures v == [OnStart] && Accepted(Stopped, v) && EndsIn(Stopped, v) == Running
  {
  }

  lemma SessionAccepted(w: seq<Callback>)
    requires Matches(Session, w)
    ensures w != [] && Accepted(Stopped, w) && Position(w) == Stopped
  {
    hide Matches, Accepted;
    var tail := Cat(Opt(Sym(OnPause)), Sym(OnStop));
    var v, x := CatElim(Sym(OnStart), Cat(Star(Blink), tail), w);
    var y, z := CatElim(Star(Blink), tail, x);
    StartAccepted(v);
    BlinksAccepted(y);
    SessionTailAccepted(z);
    AcceptedCat(Running, y, z);
    AcceptedCat(Stopped, v, x);
  }

  lemma {:induction false} SessionsAccepted(w: seq<Callback>)
    requires Matches(Star(Session), w)
    ensures Accepted(Stopped, w) && EndsIn(Stopped, w) == Stopped
    decreases |w|
  {
    if w != [] {
      var i :| 1 <= i <= |w| && Matches(Session, w[..i]) && Matches(Star(Session), w[i..]);
      SessionAccepted(w[..i]);
      SessionsAccepted(w[i..]);
      AcceptedCat(Stopped, w[..i], w[i..]);
      assert w == w[..i] + w[i..];
    }
  }

  lemma LifeAccepted(w: seq<Callback>)
    requires Matches(Life, w)
    ensures w != [] && Accepted(Uninitialized, w) && Position(w) == Uninitialized
  {
    var v, x := CatElim(Sym(OnInit), Cat(Star(Session), Sym(OnShutdown)), w);
    var y, z := CatElim(Star(Session), Sym(OnShutdown), x);
    SessionsAccepted(y);
    AcceptedCat(Stopped, y, z);
    AcceptedCat(Uninitialized, v, x);
  }

  lemma {:induction false} LivesAccepted(w: seq<Callback>)
    requires Matches(Lives, w)
    ensures Accepted(Uninitialized, w) && EndsIn(Uninitialized, w) == Uninitialized
    decreases |w|
  {
    if w != [] {
      var i :| 1 <= i <= |w| && Matches(Life, w[..i]) && Matches(Lives, w[i..]);
      LifeAccepted(w[..i]);
      LivesAccepted(w[i..]);
      AcceptedCat(Uninitialized, w[..i], w[i..]);
      assert w == w[..i] + w[i..];
    }
  }

  function Cause(c: Callback): (t: EventType) {
    match c
    case OnInit => Start
    case OnStart => Start
    case OnStop => Stop
    case OnPause => Pause
    case OnResume => Resume
    case OnShutdown => Shutdown
  }

  lemma CauseCalls(s: Status, c: Callback, u: Setup)
    requires Allowed(s, c)
    ensures Handle(s, Cause(c), u).calls == [c] && Handle(s, Cause(c), u).status == Position([c])
  {
  }

  lemma {:induction false} AcceptedIsTraced(w: seq<Callback>, u: Setup) returns (events: seq<EventType>)
    requires Accepted(Uninitialized, w)
    ensures Trace(Uninitialized, events, u) == (Position(w), w)
    decreases |w|
  {
    if w == [] {
      events := [];
    } else {
      var v := w[..|w| - 1];
      var c := w[|w| - 1];
      assert w == v + [c];
      AcceptedCat(Uninitialized, v, [c]);
      var before := AcceptedIsTraced(v, u);
      events := before + [Cause(c)];
      assert events[..|events| - 1] == before;
      CauseCalls(Position(v), c, u);
    }
  }

  /** Every prefix of every word of the language is produced by some sequence of events. */
  lemma LanguageIsTraced(w: seq<Callback>, rest: seq<Callback>, u: Setup)
    requires Matches(Lives, w + rest)
    ensures exists events :: Trace(Uninitialized, events, u).1 == w
  {
    LivesAccepted(w + rest);
    AcceptedCat(Uninitialized, w, rest);
    var events := AcceptedIsTraced(w, u);
  }
}
