/**
 Job event queues and their tail deduplication (`src/common/event.c`).

 `Dedupe` is the meaning of the rewriting pass on plain sequences; `JobQueue` is the linked
 queue with its separate event counter, and its methods refine the sequence functions.
 */
module EventQueue {
  import opened DList

  datatype EventType =
    | Poll | Accept | Read | Write | Reconnect | Disconnect | DataAvailable | Timeout
    | Schedule | VarExpiry | StatExpiry | ModuleSpecific
    | Start | Stop | Pause | Resume | Shutdown

  /** `id` is the identity of the event object; `data` is the opaque pointer (0 is NULL). */
  datatype Event = Event(id: nat, typ: EventType, data: int, priority: int)

  predicate Same(e: Event, f: Event) {
    e.typ == f.typ && e.data == f.data && e.priority == f.priority
  }

  /** The seven (X, Y) for which a tail X Y X Y is shortened to X Y. */
  predicate Alternates(x: EventType, y: EventType) {
    || (x == Pause && y == Resume)
    || (x == Resume && y == Pause)
    || (x == DataAvailable && y == Resume)
    || (x == Resume && y == Poll)
    || (x == Poll && y == Resume)
    || (x == DataAvailable && y == Poll)
    || (x == Poll && y == DataAvailable)
  }

  /** The four events ending just before index `n` read X Y X Y. */
  predicate Repeats(q: seq<Event>, n: nat)
    requires n <= |q|
  {
    && n >= 4
    && q[n - 4].typ == q[n - 2].typ
    && q[n - 3].typ == q[n - 1].typ
    && Alternates(q[n - 2].typ, q[n - 1].typ)
  }

  /** The last two events before index `n` are equal in type, data and priority. */
  predicate Doubled(q: seq<Event>, n: nat)
    requires n <= |q|
  {
    n >= 2 && Same(q[n - 2], q[n - 1])
  }

  /** How many events one round of the pass drops from the tail. */
  function Drop(q: seq<Event>): (d: nat)
    ensures d <= |q|
  {
    if Doubled(q, |q|) then 1 else if Repeats(q, |q|) then 2 else 0
  }

  function Dedupe(q: seq<Event>): (r: seq<Event>)
    ensures r <= q
    decreases |q|
  {
    if Drop(q) == 0 then q else Dedupe(q[..|q| - Drop(q)])
  }

  // ----- What the pass keeps, for every queue

  /** The pass stops only when the tail matches none of the patterns, never empties a queue,
      and leaves at the tail an event of the type that was there. */
  lemma {:induction false} DedupeTail(q: seq<Event>)
    requires q != []
    ensures Dedupe(q) != []
    ensures Drop(Dedupe(q)) == 0
    ensures Dedupe(q)[|Dedupe(q)| - 1].typ == q[|q| - 1].typ
    decreases |q|
  {
    if Drop(q) != 0 {
      DedupeTail(q[..|q| - Drop(q)]);
    }
  }

  // ----- What the pass may drop, in terms of the events

  /** The types of events that come in alternating patterns. */
  predicate Recurring(t: EventType) { t == Pause || t == Resume || t == Poll || t == DataAvailable }

  predicate Either(x: EventType, y: EventType, a: EventType, b: EventType) {
    (x == a && y == b) || (x == b && y == a)
  }

  /** Three pairs of types count in either order, and DATA_AVAILABLE and RESUME in this one. */
  lemma AlternatingPairs(x: EventType, y: EventType)
    ensures Alternates(x, y) <==>
            || Either(x, y, Pause, Resume) || Either(x, y, Resume, Poll) || Either(x, y, DataAvailable, Poll)
            || (x == DataAvailable && y == Resume)
    ensures Alternates(x, y) ==> Recurring(x) && Recurring(y) && x != y
  {
  }

  /** The last two events of the queue have the types of the two before, in one of the pairs. */
  predicate GoesRound(q: seq<Event>) {
    var n := |q|;
    n >= 4 && q[n - 4].typ == q[n - 2].typ && q[n - 3].typ == q[n - 1].typ
    && (var x, y := q[n - 2].typ, q[n - 1].typ;
        || Either(x, y, Pause, Resume) || Either(x, y, Resume, Poll) || Either(x, y, DataAvailable, Poll)
        || (x == DataAvailable && y == Resume))
  }

  lemma KeptIff(q: seq<Event>)
    ensures Dedupe(q) == q <==> Drop(q) == 0
  {
  }

  lemma RepeatsGoRound(q: seq<Event>)
    ensures Repeats(q, |q|) <==> GoesRound(q)
    ensures GoesRound(q) ==> Recurring(q[|q| - 1].typ)
  {
    hide Alternates, Recurring, Either;
    if |q| >= 4 {
      AlternatingPairs(q[|q| - 2].typ, q[|q| - 1].typ);
    }
  }

  predicate LastDiffers(q: seq<Event>, e: Event) {
    q == [] || q[|q| - 1].typ != e.typ || q[|q| - 1].data != e.data || q[|q| - 1].priority != e.priority
  }

  lemma DoubledIsLikeLast(q: seq<Event>, e: Event)
    ensures Doubled(q + [e], |q| + 1) <==> !LastDiffers(q, e)
  {
  }

  /** A new event is kept if and only if the last event differs from it in type, data or priority
      and the queue does not go round with it; in particular every event of a type that does not
      recur is kept unless the last event is like it in all three. */
  lemma AddedIsKept(q: seq<Event>, e: Event)
    ensures Dedupe(q + [e]) == q + [e] <==> LastDiffers(q, e) && !GoesRound(q + [e])
    ensures GoesRound(q + [e]) ==> Recurring(e.typ)
  {
    hide Dedupe, Doubled, Repeats, GoesRound, LastDiffers, Recurring;
    KeptIff(q + [e]);
    DoubledIsLikeLast(q, e);
    RepeatsGoRound(q + [e]);
  }

  /** `f` can stand for `e`: it has the same type and, unless the type recurs, the same data and
      priority. */
  predicate StandsFor(f: Event, e: Event) {
    f.typ == e.typ && (Recurring(e.typ) || (f.data == e.data && f.priority == e.priority))
  }

  /** Whatever the pass drops, an event that stands for it stays in the queue. */
  lemma {:induction false} DroppedIsRepresented(q: seq<Event>, i: nat) returns (k: nat)
    requires i < |q|
    ensures k <= i && k < |Dedupe(q)| && StandsFor(Dedupe(q)[k], q[i])
    decreases |q|
  {
    hide Alternates;
    k := i;
    if Drop(q) != 0 {
      var n := |q| - Drop(q);
      var twin := if i < n then i else i - Drop(q);
      if |q| >= 2 {
        AlternatingPairs(q[|q| - 2].typ, q[|q| - 1].typ);
      }
      assert StandsFor(q[twin], q[i]);
      k := DroppedIsRepresented(q[..n], twin);
    }
  }

  // ----- Normal form

  ghost predicate NormalForm(q: seq<Event>) {
    forall n :: 0 <= n <= |q| ==> !Doubled(q, n) && !Repeats(q, n)
  }

  lemma NormalPrefix(q: seq<Event>, k: nat)
    requires NormalForm(q) && k <= |q|
    ensures NormalForm(q[..k])
  {
    forall n | 0 <= n <= k
      ensures !Doubled(q[..k], n) && !Repeats(q[..k], n)
    {
      assert !Doubled(q, n) && !Repeats(q, n);
    }
  }

  lemma NormalSuffix(q: seq<Event>, k: nat)
    requires NormalForm(q) && k <= |q|
    ensures NormalForm(q[k..])
  {
    forall n | 0 <= n <= |q| - k
      ensures !Doubled(q[k..], n) && !Repeats(q[k..], n)
    {
      assert !Doubled(q, n + k) && !Repeats(q, n + k);
    }
  }

  /** Adding to a queue in normal form: the queue gains the event, stays as it was, or loses its
      last event; it is again in normal form, and the first outcome is the one signalled. */
  lemma AddKeepsNormalForm(q: seq<Event>, e: Event)
    requires NormalForm(q)
    ensures NormalForm(Dedupe(q + [e]))
    ensures Dedupe(q + [e]) == (q + [e])[..|q| + 1 - Drop(q + [e])]
    ensures Dedupe(q + [e])[|Dedupe(q + [e])| - 1].typ == e.typ
  {
    var t := q + [e];
    DedupeTail(t);
    if Drop(t) == 0 {
      forall n | 0 <= n <= |t|
        ensures !Doubled(t, n) && !Repeats(t, n)
      {
        if n <= |q| {
          assert !Doubled(q, n) && !Repeats(q, n);
        }
      }
    } else {
      var k := |t| - Drop(t);
      assert t[..k] == q[..k];
      NormalPrefix(q, k);
      assert !Doubled(q[..k], k) && !Repeats(q[..k], k);
    }
  }

  datatype QueueStep = Add(e: Event) | PickHead

  function Apply(q: seq<Event>, step: QueueStep): (r: seq<Event>) {
    match step
    case Add(e) => Dedupe(q + [e])
    case PickHead => if q == [] then q else q[1..]
  }

  function Run(q: seq<Event>, steps: seq<QueueStep>): (r: seq<Event>)
    decreases |steps|
  {
    if steps == [] then q else Run(Apply(q, steps[0]), steps[1..])
  }

  /** Over every run of tail adds and head picks the queue stays in normal form. */
  lemma {:induction false} NormalFormAlways(q: seq<Event>, steps: seq<QueueStep>)
    requires NormalForm(q)
    ensures NormalForm(Run(q, steps))
    decreases |steps|
  {
    if steps != [] {
      match steps[0] {
        case Add(e) => AddKeepsNormalForm(q, e);
        case PickHead => if q != [] { NormalSuffix(q, 1); }
      }
      NormalFormAlways(Apply(q, steps[0]), steps[1..]);
    }
  }

  /** Of the kind of `f`: same type, data and priority. */
  predicate OfKind(e: Event, f: Event) { e.typ == f.typ && e.data == f.data && e.priority == f.priority }

  /** Only events of two kinds between `lo` and `hi`. */
  predicate OnlyOf(q: seq<Event>, lo: nat, hi: nat, f: Event, g: Event)
    requires lo <= hi <= |q|
  {
    forall i :: lo <= i < hi ==> OfKind(q[i], f) || OfKind(q[i], g)
  }

  /** Two neighbours are of different kinds, so every second event is of the same. */
  lemma KindsAlternate(q: seq<Event>, lo: nat, hi: nat, f: Event, g: Event, i: nat)
    requires NormalForm(q) && lo <= hi <= |q| && OnlyOf(q, lo, hi, f, g) && lo <= i && i + 1 < hi
    ensures Either(q[i].typ, q[i + 1].typ, f.typ, g.typ)
    ensures i + 2 < hi ==> q[i].typ == q[i + 2].typ
    ensures i + 3 < hi ==> !Alternates(q[i].typ, q[i + 1].typ)
  {
    hide Alternates;
    assert !Doubled(q, i + 2);
    if i + 2 < hi {
      assert !Doubled(q, i + 3);
    }
    if i + 3 < hi {
      assert !Doubled(q, i + 4) && !Repeats(q, i + 4);
    }
  }

  /** Events of two kinds whose types make a pair cannot pile up in a queue that is kept
      deduplicated: at most three in a row, and at most four of DATA_AVAILABLE and RESUME. */
  lemma PairsBounded(q: seq<Event>, lo: nat, hi: nat, f: Event, g: Event)
    requires NormalForm(q) && lo <= hi <= |q| && OnlyOf(q, lo, hi, f, g)
    ensures Either(f.typ, g.typ, Pause, Resume) ==> hi - lo <= 3
    ensures Either(f.typ, g.typ, Resume, Poll) || Either(f.typ, g.typ, DataAvailable, Poll) ==> hi - lo <= 3
    ensures Either(f.typ, g.typ, DataAvailable, Resume) ==> hi - lo <= 4
  {
    hide NormalForm, OnlyOf;
    if hi - lo > 3 {
      KindsAlternate(q, lo, hi, f, g, lo);
      if hi - lo > 4 {
        KindsAlternate(q, lo, hi, f, g, lo + 1);
      }
    }
  }

  predicate Toggle(e: Event, data: int, priority: int) {
    (e.typ == Pause || e.typ == Resume) && e.data == data && e.priority == priority
  }

  /** Pause/resume events of one module cannot pile up: no four of them are consecutive. */
  lemma TogglesBounded(q: seq<Event>, lo: nat, hi: nat, data: int, priority: int)
    requires NormalForm(q)
    requires lo <= hi <= |q|
    requires forall i :: lo <= i < hi ==> Toggle(q[i], data, priority)
    ensures hi - lo <= 3
  {
    if hi - lo > 3 {
      assert !Doubled(q, lo + 2) && !Doubled(q, lo + 3) && !Doubled(q, lo + 4);
      assert Toggle(q[lo], data, priority) && Toggle(q[lo + 1], data, priority)
        && Toggle(q[lo + 2], data, priority) && Toggle(q[lo + 3], data, priority);
      assert Repeats(q, lo + 4);
      assert false;
    }
  }

  lemma DropCases(q: seq<Event>)
    ensures |q| < 2 ==> Drop(q) == 0
    ensures |q| >= 2 ==>
      Drop(q) == if Same(q[|q| - 2], q[|q| - 1]) then 1 else if Repeats(q, |q|) then 2 else 0
  {
  }

  // ----- The linked queue

  class JobQueue {
    const events: List<Event>
    var eventCnt: nat

    ghost predicate Valid()
      reads this, events, events.nodes
    {
      events.Valid() && eventCnt == |events.nodes|
    }

    ghost function Contents(): (q: seq<Event>)
      reads this, events
    {
      events.Contents()
    }

    constructor ()
      ensures Valid() && fresh(events) && Contents() == []
    {
      events := new List<Event>();
      eventCnt := 0;
    }

    /** Unlinks the last node and counts it off. */
    method DropLast(n: Node<Event>)
      requires Valid() && n == events.last
      modifies this, events, events.nodes
      ensures Valid()
      ensures events.nodes == old(events.nodes)[..|old(events.nodes)| - 1]
      ensures Contents() == old(Contents())[..|old(Contents())| - 1]
      ensures n.Unlinked()
    {
      ghost var k := |events.nodes| - 1;
      events.Remove(n, k);
      PayloadsTake(old(events.nodes), k);
      assert events.nodes == old(events.nodes)[..k];
      eventCnt := eventCnt - 1;
    }

    method DropTwo(e4: Node<Event>, e3: Node<Event>)
      requires Valid() && |events.nodes| >= 2
      requires e4 == events.nodes[|events.nodes| - 1] && e3 == events.nodes[|events.nodes| - 2]
      modifies this, events, events.nodes
      ensures Valid()
      ensures events.nodes == old(events.nodes)[..|old(events.nodes)| - 2]
      ensures Contents() == old(Contents())[..|old(Contents())| - 2]
    {
      DropLast(e4);
      DropLast(e3);
    }

    /** Whether the four tail nodes read X Y X Y, following `prev` from `e4`. */
    method TailRepeats(e4: Node<Event>, e3: Node<Event>) returns (r: bool)
      requires Valid() && |events.nodes| >= 2
      requires e4 == events.nodes[|events.nodes| - 1] && e3 == events.nodes[|events.nodes| - 2]
      ensures r <==> Repeats(Contents(), |Contents()|)
    {
      r := false;
      if Alternates(e3.value.typ, e4.value.typ) {
        var e2 := e3.prev;
        if e2 != null && e2.value.typ == e4.value.typ {
          var e1 := e2.prev;
          r := e1 != null && e1.value.typ == e3.value.typ;
        }
      }
    }

    /** One round of the pass, on the last node `e4`: drops what `Drop` says. */
    method Round(e4: Node<Event>) returns (found: bool, curr: Node?<Event>)
      requires Valid() && e4 == events.last
      modifies this, events, events.nodes
      ensures Valid()
      ensures found <==> Drop(old(Contents())) > 0
      ensures found ==> curr == events.last
      ensures events.nodes == old(events.nodes)[..|old(events.nodes)| - Drop(old(Contents()))]
      ensures Contents() == old(Contents())[..|old(Contents())| - Drop(old(Contents()))]
    {
      hide Dedupe, Drop, Doubled, Repeats, Same;
      DropCases(Contents());
      found := false;
      var e3 := e4.prev;
      curr := e3;
      if e3 != null {
        if Same(e3.value, e4.value) {
          DropLast(e4);
          found := true;
        } else {
          var repeats := TailRepeats(e4, e3);
          if repeats {
            curr := e3.prev;
            DropTwo(e4, e3);
            found := true;
          }
        }
      }
    }

    method DedupeTail()
      requires Valid()
      modifies this, events, events.nodes
      ensures Valid()
      ensures events.nodes <= old(events.nodes)
      ensures Contents() == Dedupe(old(Contents()))
    {
      var found := true;
      var curr := events.last;
      ghost var q := Contents();
      while curr != null && found
        invariant Valid()
        invariant events.nodes <= old(events.nodes)
        invariant found ==> curr == events.last
        invariant q == Contents()
        invariant Dedupe(q) == Dedupe(old(Contents()))
        invariant !found ==> Drop(q) == 0
        decreases |events.nodes|, found
      {
        found, curr := Round(curr);
        q := q[..|q| - Drop(q)];
      }
    }

    /** Insert at the tail, deduplicate, and report whether the new event is still the last one:
        that is when a worker is signalled. */
    method ToJobQueue(n: Node<Event>) returns (signalled: bool)
      requires Valid() && n !in events.nodes && n.Unlinked()
      modifies this, events, events.nodes, n
      ensures Valid()
      ensures Contents() == Dedupe(old(Contents()) + [n.value])
      ensures signalled <==> Drop(old(Contents()) + [n.value]) == 0
      ensures signalled <==> n in events.nodes
    {
      events.InsertTail(n);
      PayloadsAppend(old(events.nodes), [n]);
      eventCnt := eventCnt + 1;
      label full:
      assert Contents() == old(Contents()) + [n.value];
      DedupeTail();
      signalled := events.last == n;
      assert old@full(events.nodes)[|old(events.nodes)|] == n;
    }

    /** Take the head event, as the scheduler does. */
    method PickHead() returns (n: Node<Event>)
      requires Valid() && Contents() != []
      modifies this, events, events.nodes
      ensures Valid() && n.Unlinked()
      ensures n.value == old(Contents())[0] && Contents() == old(Contents())[1..]
    {
      n := events.first;
      events.Remove(n, 0);
      eventCnt := eventCnt - 1;
    }

    /** Remove a linked event from anywhere in the queue. */
    method RemoveEvent(n: Node<Event>, ghost k: nat)
      requires Valid() && k < |events.nodes| && events.nodes[k] == n
      modifies this, events, events.nodes
      ensures Valid() && n.Unlinked()
      ensures Contents() == old(Contents())[..k] + old(Contents())[k + 1..]
    {
      events.Remove(n, k);
      eventCnt := eventCnt - 1;
    }
  }
}
