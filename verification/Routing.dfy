/**
 Handing a record on to the next modules of its routes (`nx_module_add_logdata_input` and
 `nx_module_progress_logdata` in `src/common/module.c`): a copy for each destination but the last,
 which gets the original, and drop or back pressure when a queue is full.
 */
module Routing {
  import opened Codec

  datatype Kind = Input | Processor | Output

  /** Posted for module `id`: it has data to work on, or it has to pause. */
  datatype Signal = Available(id: nat) | Pause(id: nat)

  /** Who hands the record on.  An input only pauses itself while it is running. */
  datatype Sender = Sender(id: nat, flow: bool, kind: Kind, running: bool)

  /** The fields of a record and which of them is the raw event. */
  datatype Content = Content(fields: seq<Field>, raw: nat)

  // ----- Destinations

  predicate Below(ms: seq<nat>, n: nat) {
    forall i :: 0 <= i < |ms| ==> ms[i] < n
  }

  predicate AllBelow(routes: seq<seq<nat>>, n: nat) {
    forall i :: 0 <= i < |routes| ==> Below(routes[i], n)
  }

  /** Where a record entering the route goes: up to and including the first processor. */
  function RouteTargets(kinds: seq<Kind>, route: seq<nat>): (ts: seq<nat>)
    requires Below(route, |kinds|)
    ensures Below(ts, |kinds|)
  {
    if route == [] then []
    else match kinds[route[0]]
         case Processor => [route[0]]
         case Output => [route[0]] + RouteTargets(kinds, route[1..])
         case Input => RouteTargets(kinds, route[1..])
  }

  /** The route lets a record through to position `i`. */
  predicate Reaches(kinds: seq<Kind>, route: seq<nat>, i: nat)
    requires Below(route, |kinds|)
  {
    && i < |route| && kinds[route[i]] != Input
    && forall j :: 0 <= j < i ==> kinds[route[j]] != Processor
  }

  /** The destinations are the processors and outputs with no processor in front. */
  lemma {:induction false} TargetsAreReached(kinds: seq<Kind>, route: seq<nat>, m: nat)
    requires Below(route, |kinds|)
    ensures m in RouteTargets(kinds, route) <==> exists i: nat :: Reaches(kinds, route, i) && route[i] == m
    decreases |route|
  {
    if route != [] {
      TargetsAreReached(kinds, route[1..], m);
      if i: nat :| Reaches(kinds, route, i) && route[i] == m && i > 0 {
        assert Reaches(kinds, route[1..], i - 1) && route[1..][i - 1] == m;
      }
      if i: nat :| Reaches(kinds, route[1..], i) && route[1..][i] == m && kinds[route[0]] != Processor {
        assert Reaches(kinds, route, i + 1) && route[i + 1] == m;
      }
      assert kinds[route[0]] != Input ==> Reaches(kinds, route, 0);
    }
  }

  function Targets(kinds: seq<Kind>, routes: seq<seq<nat>>): (ts: seq<nat>)
    requires AllBelow(routes, |kinds|)
    ensures Below(ts, |kinds|)
  {
    if routes == [] then [] else RouteTargets(kinds, routes[0]) + Targets(kinds, routes[1..])
  }

  /** Position of the module in its route. */
  function Find(route: seq<nat>, id: nat): (k: nat)
    requires id in route
    ensures k < |route| && route[k] == id
    ensures forall i :: 0 <= i < k ==> route[i] != id
  {
    if route[0] == id then 0 else 1 + Find(route[1..], id)
  }

  /** Unless a processor follows `id`, only outputs do: what the code asserts as it goes along. */
  predicate OutputsFollow(kinds: seq<Kind>, route: seq<nat>, id: nat)
    requires id in route && Below(route, |kinds|)
  {
    var k := Find(route, id) + 1;
    k < |route| && kinds[route[k]] != Processor ==> forall i :: k <= i < |route| ==> kinds[route[i]] == Output
  }

  /** No processor before `a`, processors up to `b`, outputs from there on; without processors both
      stand at the end. */
  predicate Shape(kinds: seq<Kind>, route: seq<nat>, a: nat, b: nat)
    requires Below(route, |kinds|)
  {
    && a <= b <= |route|
    && (forall i :: 0 <= i < a ==> kinds[route[i]] != Processor)
    && (forall i :: a <= i < b ==> kinds[route[i]] == Processor)
    && (forall i :: b <= i < |route| ==> a < b && kinds[route[i]] == Output)
  }

  predicate Distinct(route: seq<nat>) {
    forall i, j :: 0 <= i < j < |route| ==> route[i] != route[j]
  }

  lemma FindAt(route: seq<nat>, k: nat)
    requires Distinct(route) && k < |route|
    ensures route[k] in route && Find(route, route[k]) == k
  {
  }

  /** The assertions hold for all processors of a route exactly if its processors stand together
      and only outputs follow them. */
  lemma RouteShape(kinds: seq<Kind>, route: seq<nat>)
    requires Distinct(route) && Below(route, |kinds|)
    ensures (forall id :: id in route && kinds[id] == Processor ==> OutputsFollow(kinds, route, id))
            <==> exists a: nat, b: nat :: Shape(kinds, route, a, b)
  {
    hide OutputsFollow, Shape;
    if a: nat, b: nat :| Shape(kinds, route, a, b) {
      forall id | id in route && kinds[id] == Processor
        ensures OutputsFollow(kinds, route, id)
      {
        ShapeSuffices(kinds, route, a, b, id);
      }
    }
    if forall id :: id in route && kinds[id] == Processor ==> OutputsFollow(kinds, route, id) {
      var a, b := Block(kinds, route);
      ShapeOfBlock(kinds, route, a, b);
    }
  }

  lemma ShapeSuffices(kinds: seq<Kind>, route: seq<nat>, a: nat, b: nat, id: nat)
    requires Below(route, |kinds|) && Shape(kinds, route, a, b) && id in route && kinds[id] == Processor
    ensures OutputsFollow(kinds, route, id)
  {
    var k := Find(route, id);
    assert kinds[route[k]] == Processor && a <= k < b;
  }

  lemma ShapeOfBlock(kinds: seq<Kind>, route: seq<nat>, a: nat, b: nat)
    requires Distinct(route) && Below(route, |kinds|) && a <= b <= |route|
    requires forall i :: 0 <= i < a ==> kinds[route[i]] != Processor
    requires forall i :: a <= i < b ==> kinds[route[i]] == Processor
    requires b < |route| ==> a < b && kinds[route[b]] != Processor
    requires a < b ==> route[b - 1] in route && OutputsFollow(kinds, route, route[b - 1])
    ensures Shape(kinds, route, a, b)
  {
    if a < b {
      FindAt(route, b - 1);
    }
  }

  /** The first block of processors. */
  lemma {:induction false} Block(kinds: seq<Kind>, route: seq<nat>) returns (a: nat, b: nat)
    requires Below(route, |kinds|)
    ensures a <= b <= |route|
    ensures forall i :: 0 <= i < a ==> kinds[route[i]] != Processor
    ensures forall i :: a <= i < b ==> kinds[route[i]] == Processor
    ensures b < |route| ==> a < b && kinds[route[b]] != Processor
  {
    a := 0;
    while a < |route| && kinds[route[a]] != Processor
      invariant a <= |route|
      invariant forall i :: 0 <= i < a ==> kinds[route[i]] != Processor
    {
      a := a + 1;
    }
    b := a;
    while b < |route| && kinds[route[b]] == Processor
      invariant a <= b <= |route|
      invariant forall i :: a <= i < b ==> kinds[route[i]] == Processor
      invariant a < |route| && b == a ==> kinds[route[a]] == Processor
    {
      b := b + 1;
    }
  }

  /** Where a processor's record goes: to the processor behind it, or else to all the outputs
      behind it.  A processor at the very end of its route is its own successor. */
  function Successors(kinds: seq<Kind>, route: seq<nat>, id: nat): (ts: seq<nat>)
    requires id in route && Below(route, |kinds|) && OutputsFollow(kinds, route, id)
    ensures Below(ts, |kinds|)
  {
    var k := Find(route, id) + 1;
    if k == |route| then [id]
    else if kinds[route[k]] == Processor then [route[k]]
    else route[k..]
  }

  // ----- What a delivery does

  /** Contents of the queues, the signals posted, and the destinations that were full. */
  datatype State = State(queues: seq<seq<Content>>, signals: seq<Signal>, dropped: seq<nat>)

  function Signals(s: Sender, kind: Kind, t: nat, full: bool): (r: seq<Signal>) {
    if !s.flow then [Available(t)]
    else if s.kind != Input then (if full then [Pause(s.id)] else [Available(t)])
    else (if full && s.running then [Pause(s.id)] else [])
         + (if kind == Processor then (if full && s.running then [] else [Available(t)])
            else if full then [] else [Available(t)])
  }

  function Deliver(kinds: seq<Kind>, limits: seq<nat>, s: Sender, st: State, t: nat, r: Content): (st': State)
    requires |kinds| == |limits| == |st.queues| && t < |kinds|
    ensures |st'.queues| == |st.queues|
  {
    var q := st.queues[t];
    if !s.flow && |q| >= limits[t] then
      State(st.queues, st.signals + [Available(t)], st.dropped + [t])
    else
      State(st.queues[t := q + [r]], st.signals + Signals(s, kinds[t], t, |q| + 1 >= limits[t]), st.dropped)
  }

  function DeliverAll(kinds: seq<Kind>, limits: seq<nat>, s: Sender, st: State, ts: seq<nat>, r: Content): (st': State)
    requires |kinds| == |limits| == |st.queues| && Below(ts, |kinds|)
    ensures |st'.queues| == |st.queues|
    decreases |ts|
  {
    if ts == [] then st
    else
      var n := |ts| - 1;
      Deliver(kinds, limits, s, DeliverAll(kinds, limits, s, st, ts[..n], r), ts[n], r)
  }

  /** The queues after the module has taken out the record it works on. */
  function Without(st: State, m: nat, needpop: bool): (st': State)
    requires m < |st.queues| && (needpop ==> st.queues[m] != [])
    ensures |st'.queues| == |st.queues|
  {
    if needpop then State(st.queues[m := st.queues[m][1..]], st.signals, st.dropped) else st
  }

  // ----- Records on the heap

  /** Who a record has been handed to. */
  datatype Home = Queue(m: nat) | Freed

  /** What becomes of the last of the records delivered. */
  function LastHome(kinds: seq<Kind>, limits: seq<nat>, s: Sender, st: State, ts: seq<nat>, r: Content): (h: Home)
    requires |kinds| == |limits| == |st.queues| && Below(ts, |kinds|) && ts != []
  {
    var n := |ts| - 1;
    if |DeliverAll(kinds, limits, s, st, ts, r).dropped| == |DeliverAll(kinds, limits, s, st, ts[..n], r).dropped|
    then Queue(ts[n]) else Freed
  }

  class Logdata {
    const content: Content

    constructor (content: Content)
      ensures this.content == content
    {
      this.content := content;
    }

    /** A field by field copy; the raw event of the copy is the copy of the raw event. */
    method Clone() returns (c: Logdata)
      requires content.raw < |content.fields|
      ensures fresh(c) && c.content == content
    {
      var fields := [];
      var raw := 0;
      for i := 0 to |content.fields|
        invariant fields == content.fields[..i]
        invariant i > content.raw ==> raw == content.raw
      {
        fields := fields + [content.fields[i]];
        if i == content.raw {
          raw := i;
        }
      }
      c := new Logdata(Content(fields, raw));
    }
  }

  function Contents(q: seq<Logdata>): (r: seq<Content>)
    ensures |r| == |q| && forall i :: 0 <= i < |q| ==> r[i] == q[i].content
  {
    seq(|q|, i requires 0 <= i < |q| => q[i].content)
  }

  function AllContents(qs: seq<seq<Logdata>>): (r: seq<seq<Content>>)
    ensures |r| == |qs| && forall m :: 0 <= m < |qs| ==> r[m] == Contents(qs[m])
  {
    seq(|qs|, m requires 0 <= m < |qs| => Contents(qs[m]))
  }

  /** The records of a queue have been handed to it, and are different ones. */
  ghost predicate Owns(m: nat, q: seq<Logdata>, home: map<Logdata, Home>) {
    && (forall i :: 0 <= i < |q| ==> q[i] in home && home[q[i]] == Queue(m))
    && (forall i, j :: 0 <= i < j < |q| ==> q[i] != q[j])
  }

  class Router {
    const kinds: seq<Kind>
    const limits: seq<nat>
    var queues: seq<seq<Logdata>>
    var signals: seq<Signal>
    var forwarded: nat
    ghost var dropped: seq<nat>
    /** The records the senders have given away and must not touch any more. */
    ghost var home: map<Logdata, Home>

    constructor (kinds: seq<Kind>, limits: seq<nat>)
      requires |kinds| == |limits|
      ensures Valid() && this.kinds == kinds && this.limits == limits && home == map[]
    {
      this.kinds, this.limits, queues, signals := kinds, limits, seq(|kinds|, _ => []), [];
      forwarded, dropped, home := 0, [], map[];
    }

    /** In particular no record is in two queues. */
    ghost predicate Valid()
      reads this`queues, this`home
    {
      && |kinds| == |limits| == |queues|
      && forall m :: 0 <= m < |queues| ==> Owns(m, queues[m], home)
    }

    ghost function View(): (st: State)
      reads this`queues, this`signals, this`dropped
      ensures |st.queues| == |queues| && st.signals == signals && st.dropped == dropped
    {
      State(AllContents(queues), signals, dropped)
    }

    method Push(t: nat, r: Logdata) returns (size: nat)
      requires Valid() && t < |queues| && r !in home
      modifies this`queues, this`home
      ensures Valid() && queues == old(queues[t := queues[t] + [r]]) && size == |queues[t]|
      ensures home == old(home)[r := Queue(t)]
      ensures View() == old(View()).(queues := old(View()).queues[t := old(View()).queues[t] + [r.content]])
    {
      ghost var was := View();
      queues := queues[t := queues[t] + [r]];
      home := home[r := Queue(t)];
      assert Contents(queues[t]) == was.queues[t] + [r.content];
      assert View().queues == was.queues[t := was.queues[t] + [r.content]];
      size := |queues[t]|;
    }

    method Free(t: nat, r: Logdata)
      requires Valid() && r !in home
      modifies this`dropped, this`home
      ensures Valid() && home == old(home)[r := Freed]
      ensures View() == old(View()).(dropped := old(View()).dropped + [t])
    {
      dropped := dropped + [t];
      home := home[r := Freed];
    }

    method Post(s: Signal)
      modifies this`signals
      ensures signals == old(signals) + [s]
      ensures View() == old(View()).(signals := signals)
    {
      signals := signals + [s];
    }

    /** The record reaches its queue unless the sender does not wait and the queue is full. */
    ghost predicate Accepts(s: Sender, t: nat)
      requires Valid() && t < |queues|
      reads this`queues, this`home
    {
      s.flow || |queues[t]| < limits[t]
    }

    /** An input hands `r` to the processor or output `t`. */
    method FromInput(s: Sender, t: nat, r: Logdata) returns (sent: bool)
      requires Valid() && s.kind == Input && t < |kinds| && r !in home
      modifies this`queues, this`signals, this`dropped, this`home
      ensures Valid() && sent == old(Accepts(s, t))
      ensures View() == Deliver(kinds, limits, s, old(View()), t, r.content)
      ensures home == old(home)[r := if sent then Queue(t) else Freed]
      ensures |dropped| == |old(dropped)| + if sent then 0 else 1
    {
      hide Owns;
      if !s.flow {
        if |queues[t]| >= limits[t] {
          Free(t, r);
          sent := false;
        } else {
          var _ := Push(t, r);
          sent := true;
        }
        Post(Available(t));
      } else {
        var size := Push(t, r);
        var pause := size >= limits[t] && s.running;
        if pause {
          Post(Pause(s.id));
        }
        if kinds[t] == Processor {
          if !pause {
            Post(Available(t));
          }
        } else if |queues[t]| < limits[t] {
          Post(Available(t));
        }
        sent := true;
      }
    }

    /** A processor hands `r` to `t`. */
    method FromProcessor(s: Sender, t: nat, r: Logdata) returns (sent: bool)
      requires Valid() && s.kind == Processor && t < |kinds| && r !in home
      modifies this`queues, this`signals, this`dropped, this`home
      ensures Valid() && sent == old(Accepts(s, t))
      ensures View() == Deliver(kinds, limits, s, old(View()), t, r.content)
      ensures home == old(home)[r := if sent then Queue(t) else Freed]
      ensures |dropped| == |old(dropped)| + if sent then 0 else 1
    {
      hide Owns;
      if !s.flow {
        if |queues[t]| >= limits[t] {
          Free(t, r);
          sent := false;
        } else {
          var _ := Push(t, r);
          sent := true;
        }
        Post(Available(t));
      } else {
        var size := Push(t, r);
        if size >= limits[t] {
          Post(Pause(s.id));
        } else {
          Post(Available(t));
        }
        sent := true;
      }
    }

    /** How many records an input has to hand on. */
    method CountTargets(routes: seq<seq<nat>>) returns (cnt: nat)
      requires AllBelow(routes, |kinds|)
      ensures cnt == |Targets(kinds, routes)|
    {
      cnt := 0;
      for i := 0 to |routes|
        invariant cnt + |Targets(kinds, routes[i..])| == |Targets(kinds, routes)|
      {
        var route := routes[i];
        assert routes[i..][0] == route && routes[i..][1..] == routes[i + 1..];
        ghost var before := cnt;
        var j := 0;
        while j < |route|
          invariant j <= |route|
          invariant cnt + |RouteTargets(kinds, route[j..])| == before + |RouteTargets(kinds, route)|
        {
          assert route[j..][1..] == route[j + 1..];
          if kinds[route[j]] == Processor {
            cnt := cnt + 1;
            break;
          }
          if kinds[route[j]] == Output {
            cnt := cnt + 1;
          }
          j := j + 1;
        }
        assert cnt == before + |RouteTargets(kinds, route)|;
      }
    }

    /** One of the `cnt` records still to hand on: a copy, or the original if it is the last. */
    method SendOne(s: Sender, t: nat, r: Logdata, cnt: nat) returns (sent: bool)
      requires Valid() && s.kind == Input && t < |kinds| && cnt > 0
      requires r !in home && r.content.raw < |r.content.fields|
      modifies this`queues, this`signals, this`dropped, this`home
      ensures Valid() && sent == old(Accepts(s, t))
      ensures View() == Deliver(kinds, limits, s, old(View()), t, r.content)
      ensures Extends(old(home), home) && (r in home <==> cnt == 1)
      ensures cnt == 1 ==> home[r] == if sent then Queue(t) else Freed
      ensures |dropped| == |old(dropped)| + if sent then 0 else 1
    {
      hide Owns;
      var tmp := r;
      if cnt > 1 {
        tmp := r.Clone();
      }
      sent := FromInput(s, t, tmp);
    }

    /** Where things stand when `r` has been delivered to `done` and `cnt` deliveries are to come:
        `st` and `was` are the state and the owners before. */
    ghost predicate Delivered(s: Sender, r: Logdata, st: State, was: map<Logdata, Home>, done: seq<nat>, cnt: nat,
                              sent: bool)
      reads this`queues, this`signals, this`dropped, this`home
    {
      && Valid() && |st.queues| == |kinds| && Below(done, |kinds|)
      && View() == DeliverAll(kinds, limits, s, st, done, r.content)
      && |dropped| <= |st.dropped| + |done| && (sent <==> |dropped| < |st.dropped| + |done|)
      && Extends(was, home) && (r in home <==> cnt == 0)
      && (cnt == 0 && done != [] ==> home[r] == LastHome(kinds, limits, s, st, done, r.content))
    }

    /** The next record after those delivered to `done`. */
    method SendNext(s: Sender, t: nat, r: Logdata, cnt: nat, sent: bool,
                    ghost st: State, ghost was: map<Logdata, Home>, ghost done: seq<nat>) returns (sent': bool)
      requires s.kind == Input && t < |kinds| && cnt > 0 && r.content.raw < |r.content.fields|
      requires Delivered(s, r, st, was, done, cnt, sent)
      modifies this`queues, this`signals, this`dropped, this`home
      ensures Delivered(s, r, st, was, done + [t], cnt - 1, sent')
    {
      hide View, Owns, Deliver, DeliverAll, LastHome, Extends;
      ghost var before := home;
      sent' := SendOne(s, t, r, cnt);
      sent' := sent || sent';
      ExtendsOn(was, before, home);
      DeliverNext(kinds, limits, s, st, done, t, r.content);
      LastOfNext(kinds, limits, s, st, done, t, r.content);
    }

    lemma NoneDelivered(s: Sender, r: Logdata, cnt: nat)
      requires Valid() && (r in home <==> cnt == 0)
      ensures Delivered(s, r, View(), home, [], cnt, false)
    {
      NothingDelivered(kinds, limits, s, View(), r.content);
    }

    /** One route, after those delivered to `done`. */
    method SendRoute(s: Sender, route: seq<nat>, r: Logdata, count: nat, sent0: bool,
                     ghost st: State, ghost was: map<Logdata, Home>, ghost done: seq<nat>)
      returns (cnt: nat, sent: bool)
      requires s.kind == Input && Below(route, |kinds|) && r.content.raw < |r.content.fields|
      requires count >= |RouteTargets(kinds, route)| && Delivered(s, r, st, was, done, count, sent0)
      modifies this`queues, this`signals, this`dropped, this`home
      ensures cnt == count - |RouteTargets(kinds, route)|
      ensures Delivered(s, r, st, was, done + RouteTargets(kinds, route), cnt, sent)
    {
      hide Delivered, RouteTargets;
      ghost var all, more := done + RouteTargets(kinds, route), done;
      cnt, sent := count, sent0;
      var j := 0;
      assert route[0..] == route;
      while j < |route|
        invariant j <= |route| && Delivered(s, r, st, was, more, cnt, sent)
        invariant all == more + RouteTargets(kinds, route[j..])
        invariant cnt == count - (|more| - |done|)
      {
        var t := route[j];
        RouteStep(kinds, route, j);
        if kinds[t] != Input {
          sent := SendNext(s, t, r, cnt, sent, st, was, more);
          more, cnt := more + [t], cnt - 1;
        }
        if kinds[t] == Processor {
          assert more == all;
          return;
        }
        j := j + 1;
      }
      RouteEnd(kinds);
      assert route[j..] == [];
      assert more == all;
    }

    /** All routes in turn. */
    method SendRoutes(s: Sender, routes: seq<seq<nat>>, r: Logdata, count: nat) returns (sent: bool)
      requires Valid() && s.kind == Input && AllBelow(routes, |kinds|)
      requires count == |Targets(kinds, routes)| > 0
      requires r !in home && r.content.raw < |r.content.fields|
      modifies this`queues, this`signals, this`dropped, this`home
      ensures Delivered(s, r, old(View()), old(home), Targets(kinds, routes), 0, sent)
    {
      hide Delivered, View, Targets, RouteTargets;
      ghost var all, st, was := Targets(kinds, routes), View(), home;
      ghost var done: seq<nat> := [];
      var cnt := count;
      sent := false;
      NoneDelivered(s, r, count);
      assert routes[0..] == routes;
      for i := 0 to |routes|
        invariant Delivered(s, r, st, was, done, cnt, sent)
        invariant all == done + Targets(kinds, routes[i..]) && cnt == |all| - |done|
      {
        TargetsStep(kinds, routes, i);
        cnt, sent := SendRoute(s, routes[i], r, cnt, sent, st, was, done);
        done := done + RouteTargets(kinds, routes[i]);
      }
      assert routes[|routes|..] == [];
      TargetsEnd(kinds);
      assert done == all;
    }

    /** A record enters the routes of an input. */
    method AddInput(s: Sender, routes: seq<seq<nat>>, r: Logdata)
      requires Valid() && s.kind == Input && AllBelow(routes, |kinds|)
      requires r !in home && r.content.raw < |r.content.fields|
      modifies this
      ensures Valid() && View() == DeliverAll(kinds, limits, s, old(View()), Targets(kinds, routes), r.content)
      ensures Extends(old(home), home) && (r in home <==> Targets(kinds, routes) != [])
      ensures Targets(kinds, routes) != [] ==>
        home[r] == LastHome(kinds, limits, s, old(View()), Targets(kinds, routes), r.content)
      ensures forwarded == old(forwarded) + if |dropped| < |old(dropped)| + |Targets(kinds, routes)| then 1 else 0
    {
      hide View, Owns, DeliverAll, Targets, LastHome;
      var cnt := CountTargets(routes);
      if cnt == 0 {
        NothingDelivered(kinds, limits, s, View(), r.content);
        return;
      }
      var sent := SendRoutes(s, routes, r, cnt);
      if sent {
        forwarded := forwarded + 1;
      }
    }

    /** Takes the record being worked on out of the module's own queue. */
    method Pop(m: nat, r: Logdata)
      requires Valid() && m < |queues| && queues[m] != [] && queues[m][0] == r
      modifies this`queues, this`home
      ensures Valid() && queues == old(queues[m := queues[m][1..]]) && home == old(home) - {r}
      ensures View() == old(View()).(queues := old(View()).queues[m := old(View()).queues[m][1..]])
    {
      ghost var was := View();
      OthersOwn(m, r);
      queues := queues[m := queues[m][1..]];
      home := home - {r};
      assert Contents(queues[m]) == was.queues[m][1..];
      assert View().queues == was.queues[m := was.queues[m][1..]];
    }

    lemma OthersOwn(m: nat, r: Logdata)
      requires Valid() && m < |queues| && queues[m] != [] && queues[m][0] == r
      ensures forall k :: 0 <= k < |queues| && k != m ==> Owns(k, queues[k], home - {r})
      ensures Owns(m, queues[m][1..], home - {r})
    {
      assert Owns(m, queues[m], home);
    }

    /** The module behind `id`; the last one of the route if there is none. */
    method FindNext(route: seq<nat>, id: nat) returns (i: nat, curr: nat)
      requires id in route
      ensures i == Find(route, id) + 1
      ensures curr == if i < |route| then route[i] else id
    {
      i, curr := 0, route[0];
      while i < |route|
        invariant i <= Find(route, id) + 1
        invariant curr == if i == 0 then route[0] else route[i - 1]
      {
        if i > 0 && curr == id {
          curr := route[i];
          break;
        }
        curr := route[i];
        i := i + 1;
      }
    }

    /** A processor's record goes to its successors. */
    method Forward(s: Sender, route: seq<nat>, r: Logdata) returns (sent: bool)
      requires Valid() && s.kind == Processor && Below(route, |kinds|) && s.id in route && kinds[s.id] == Processor
      requires OutputsFollow(kinds, route, s.id)
      requires r !in home && r.content.raw < |r.content.fields|
      modifies this`queues, this`signals, this`dropped, this`home
      ensures Valid() && View() == DeliverAll(kinds, limits, s, old(View()), Successors(kinds, route, s.id), r.content)
      ensures sent <==> |dropped| < |old(dropped)| + |Successors(kinds, route, s.id)|
      ensures r in home && home[r] == LastHome(kinds, limits, s, old(View()), Successors(kinds, route, s.id), r.content)
      ensures Extends(old(home), home)
    {
      hide View, Owns, Deliver, DeliverAll, LastHome;
      ghost var st := View();
      var i, curr := FindNext(route, s.id);
      if kinds[curr] == Processor {
        NothingDelivered(kinds, limits, s, st, r.content);
        DeliverNext(kinds, limits, s, st, [], curr, r.content);
        LastOfNext(kinds, limits, s, st, [], curr, r.content);
        assert [] + [curr] == [curr];
        sent := FromProcessor(s, curr, r);
      } else {
        sent := SendOutputs(s, route[i..], r);
      }
    }

    /** A processor hands on the record it has been working on. */
    method Progress(s: Sender, route: seq<nat>, needpop: bool, r: Logdata)
      requires Valid() && s.kind == Processor && Below(route, |kinds|) && s.id in route && kinds[s.id] == Processor
      requires OutputsFollow(kinds, route, s.id)
      requires needpop ==> queues[s.id] != [] && queues[s.id][0] == r
      requires !needpop ==> r !in home
      requires r.content.raw < |r.content.fields|
      modifies this
      ensures Valid()
      ensures var ts := Successors(kinds, route, s.id);
              var st := Without(old(View()), s.id, needpop);
              && View() == DeliverAll(kinds, limits, s, st, ts, r.content)
              && r in home && home[r] == LastHome(kinds, limits, s, st, ts, r.content)
              && forwarded == old(forwarded) + if |dropped| < |old(dropped)| + |ts| then 1 else 0
      ensures Extends(old(home) - {r}, home)
    {
      hide View, Owns, Deliver, DeliverAll, LastHome, Successors;
      if needpop {
        Pop(s.id, r);
      }
      var sent := Forward(s, route, r);
      if sent {
        forwarded := forwarded + 1;
      }
    }

    method SendOutputs(s: Sender, ts: seq<nat>, r: Logdata) returns (sent: bool)
      requires Valid() && s.kind == Processor && Below(ts, |kinds|) && ts != []
      requires r !in home && r.content.raw < |r.content.fields|
      modifies this`queues, this`signals, this`dropped, this`home
      ensures Valid() && View() == DeliverAll(kinds, limits, s, old(View()), ts, r.content)
      ensures sent <==> |dropped| < |old(dropped)| + |ts|
      ensures r in home && home[r] == LastHome(kinds, limits, s, old(View()), ts, r.content)
      ensures Extends(old(home), home)
    {
      hide View, Owns, Deliver, DeliverAll, LastHome;
      ghost var st := View();
      NothingDelivered(kinds, limits, s, st, r.content);
      sent := false;
      for i := 0 to |ts|
        invariant Valid() && View() == DeliverAll(kinds, limits, s, st, ts[..i], r.content)
        invariant |dropped| <= |old(dropped)| + i && (sent <==> |dropped| < |old(dropped)| + i)
        invariant Extends(old(home), home) && (r in home <==> i == |ts|)
        invariant i == |ts| ==> home[r] == LastHome(kinds, limits, s, st, ts[..i], r.content)
      {
        var tmp := r;
        if i < |ts| - 1 {
          tmp := r.Clone();
        }
        var ok := FromProcessor(s, ts[i], tmp);
        DeliverNext(kinds, limits, s, st, ts[..i], ts[i], r.content);
        LastOfNext(kinds, limits, s, st, ts[..i], ts[i], r.content);
        assert ts[..i] + [ts[i]] == ts[..i + 1];
        sent := sent || ok;
      }
      assert ts[..|ts|] == ts;
    }
  }

  ghost predicate Extends(before: map<Logdata, Home>, after: map<Logdata, Home>) {
    forall x :: x in before ==> x in after && after[x] == before[x]
  }

  lemma ExtendsOn(a: map<Logdata, Home>, b: map<Logdata, Home>, c: map<Logdata, Home>)
    requires Extends(a, b) && Extends(b, c)
    ensures Extends(a, c)
  {
  }

  // ----- Deliveries in a row

  lemma RouteStep(kinds: seq<Kind>, route: seq<nat>, j: nat)
    requires Below(route, |kinds|) && j < |route|
    ensures RouteTargets(kinds, route[j..]) ==
            match kinds[route[j]]
            case Processor => [route[j]]
            case Output => [route[j]] + RouteTargets(kinds, route[j + 1..])
            case Input => RouteTargets(kinds, route[j + 1..])
  {
    assert route[j..][1..] == route[j + 1..];
  }

  lemma TargetsStep(kinds: seq<Kind>, routes: seq<seq<nat>>, i: nat)
    requires AllBelow(routes, |kinds|) && i < |routes|
    ensures Targets(kinds, routes[i..]) == RouteTargets(kinds, routes[i]) + Targets(kinds, routes[i + 1..])
  {
    assert routes[i..][1..] == routes[i + 1..];
  }

  lemma TargetsEnd(kinds: seq<Kind>)
    ensures Targets(kinds, []) == []
  {
  }

  lemma RouteEnd(kinds: seq<Kind>)
    ensures RouteTargets(kinds, []) == []
  {
  }

  lemma NothingDelivered(kinds: seq<Kind>, limits: seq<nat>, s: Sender, st: State, r: Content)
    requires |kinds| == |limits| == |st.queues|
    ensures DeliverAll(kinds, limits, s, st, [], r) == st
  {
  }

  lemma DeliverNext(kinds: seq<Kind>, limits: seq<nat>, s: Sender, st: State, done: seq<nat>, t: nat, r: Content)
    requires |kinds| == |limits| == |st.queues| && Below(done, |kinds|) && t < |kinds|
    ensures Below(done + [t], |kinds|)
    ensures DeliverAll(kinds, limits, s, st, done + [t], r) ==
            Deliver(kinds, limits, s, DeliverAll(kinds, limits, s, st, done, r), t, r)
  {
    assert (done + [t])[..|done|] == done;
  }

  lemma LastOfNext(kinds: seq<Kind>, limits: seq<nat>, s: Sender, st: State, done: seq<nat>, t: nat, r: Content)
    requires |kinds| == |limits| == |st.queues| && Below(done, |kinds|) && t < |kinds|
    ensures var before, after := DeliverAll(kinds, limits, s, st, done, r),
                                 DeliverAll(kinds, limits, s, st, done + [t], r);
            LastHome(kinds, limits, s, st, done + [t], r) ==
            if |after.dropped| == |before.dropped| then Queue(t) else Freed
  {
    assert (done + [t])[..|done|] == done;
  }

  // ----- What the deliveries amount to

  function Count(ms: seq<nat>, m: nat): (n: nat)
    decreases |ms|
  {
    if ms == [] then 0
    else Count(ms[..|ms| - 1], m) + if ms[|ms| - 1] == m then 1 else 0
  }

  /** How many of `n` records a queue of this size takes. */
  function Copies(s: Sender, size: nat, limit: nat, n: nat): (k: nat)
    ensures k <= n
  {
    if s.flow || size + n <= limit then n
    else if size < limit then limit - size
    else 0
  }

  lemma CountNext(ms: seq<nat>, t: nat, m: nat)
    ensures Count(ms + [t], m) == Count(ms, m) + if t == m then 1 else 0
  {
    assert (ms + [t])[..|ms|] == ms;
  }

  /** Conservation: every queue keeps what it had and gets one equal copy for each time it is a
      destination, up to its limit when the sender does not wait; the rest, and only the rest,
      is thrown away. */
  lemma {:induction false} Conserved(kinds: seq<Kind>, limits: seq<nat>, s: Sender, st: State, ts: seq<nat>,
                                     r: Content, m: nat)
    requires |kinds| == |limits| == |st.queues| && Below(ts, |kinds|) && m < |kinds|
    ensures var st' := DeliverAll(kinds, limits, s, st, ts, r);
            var k := Copies(s, |st.queues[m]|, limits[m], Count(ts, m));
            && st'.queues[m] == st.queues[m] + seq(k, _ => r)
            && Count(st'.dropped, m) == Count(st.dropped, m) + Count(ts, m) - k
    decreases |ts|
  {
    hide DeliverAll, Deliver;
    if ts == [] {
      NothingDelivered(kinds, limits, s, st, r);
    } else {
      var n := |ts| - 1;
      var t := ts[n];
      var mid := DeliverAll(kinds, limits, s, st, ts[..n], r);
      Conserved(kinds, limits, s, st, ts[..n], r, m);
      assert ts[..n] + [t] == ts;
      DeliverNext(kinds, limits, s, st, ts[..n], t, r);
      CountNext(ts[..n], t, m);
      OneDelivered(kinds, limits, s, mid, t, r, m);
      var k := Copies(s, |st.queues[m]|, limits[m], Count(ts[..n], m));
      assert seq(k + 1, _ => r) == seq(k, _ => r) + [r];
    }
  }

  lemma OneDelivered(kinds: seq<Kind>, limits: seq<nat>, s: Sender, st: State, t: nat, r: Content, m: nat)
    requires |kinds| == |limits| == |st.queues| && t < |kinds| && m < |kinds|
    ensures var st' := Deliver(kinds, limits, s, st, t, r);
            var q := st.queues[m];
            && (t != m || (!s.flow && |q| >= limits[m]) ==> st'.queues[m] == q)
            && (t == m && (s.flow || |q| < limits[m]) ==> st'.queues[m] == q + [r])
            && Count(st'.dropped, m) == Count(st.dropped, m) + if t == m && !s.flow && |q| >= limits[m] then 1 else 0
  {
    hide Signals;
    CountNext(st.dropped, t, m);
  }

  /** A sender that does not wait never fills a queue above its limit. */
  lemma WithinLimit(kinds: seq<Kind>, limits: seq<nat>, s: Sender, st: State, ts: seq<nat>, r: Content, m: nat)
    requires |kinds| == |limits| == |st.queues| && Below(ts, |kinds|) && m < |kinds|
    requires !s.flow && |st.queues[m]| <= limits[m]
    ensures |DeliverAll(kinds, limits, s, st, ts, r).queues[m]| <= limits[m]
  {
    Conserved(kinds, limits, s, st, ts, r, m);
  }

  predicate Full(queues: seq<seq<Content>>, limits: seq<nat>, m: nat) {
    m < |queues| && m < |limits| && |queues[m]| >= limits[m]
  }

  /** Back pressure: a waiting sender is told to pause exactly when it has left a destination
      full, an input only while it runs; a sender that does not wait never is. */
  lemma {:induction false} BackPressure(kinds: seq<Kind>, limits: seq<nat>, s: Sender, st: State, ts: seq<nat>,
                                        r: Content)
    requires |kinds| == |limits| == |st.queues| && Below(ts, |kinds|) && Pause(s.id) !in st.signals
    ensures var st' := DeliverAll(kinds, limits, s, st, ts, r);
            Pause(s.id) in st'.signals <==>
            s.flow && (s.kind == Input ==> s.running) && exists i :: 0 <= i < |ts| && Full(st'.queues, limits, ts[i])
    decreases |ts|
  {
    if ts != [] {
      hide DeliverAll;
      var n := |ts| - 1;
      var t, mid := ts[n], DeliverAll(kinds, limits, s, st, ts[..n], r);
      BackPressure(kinds, limits, s, st, ts[..n], r);
      assert ts[..n] + [t] == ts;
      DeliverNext(kinds, limits, s, st, ts[..n], t, r);
      var st' := Deliver(kinds, limits, s, mid, t, r);
      FullAfter(kinds, limits, s, mid, t, r);
      if i :| 0 <= i < n && Full(mid.queues, limits, ts[..n][i]) {
        assert Full(st'.queues, limits, ts[i]);
      }
      if i :| 0 <= i < |ts| && Full(st'.queues, limits, ts[i]) {
        assert ts[i] == t || Full(mid.queues, limits, ts[..n][i]);
      }
      assert Full(st'.queues, limits, ts[n]) ==> exists i :: 0 <= i < |ts| && Full(st'.queues, limits, ts[i]);
    } else {
      NothingDelivered(kinds, limits, s, st, r);
    }
  }

  lemma FullAfter(kinds: seq<Kind>, limits: seq<nat>, s: Sender, st: State, t: nat, r: Content)
    requires |kinds| == |limits| == |st.queues| && t < |kinds|
    ensures var st' := Deliver(kinds, limits, s, st, t, r);
            && (forall m: nat :: m != t ==> Full(st'.queues, limits, m) == Full(st.queues, limits, m))
            && (Full(st.queues, limits, t) ==> Full(st'.queues, limits, t))
            && (s.flow ==> (Pause(s.id) in st'.signals <==>
                            || Pause(s.id) in st.signals
                            || (Full(st'.queues, limits, t) && (s.kind == Input ==> s.running))))
            && (!s.flow ==> (Pause(s.id) in st'.signals <==> Pause(s.id) in st.signals))
  {
  }

  /** No destination is left with a record and room for more without having been told. */
  lemma {:induction false} Informed(kinds: seq<Kind>, limits: seq<nat>, s: Sender, st: State, ts: seq<nat>,
                                    r: Content, i: nat)
    requires |kinds| == |limits| == |st.queues| && Below(ts, |kinds|) && i < |ts|
    ensures var st' := DeliverAll(kinds, limits, s, st, ts, r);
            Available(ts[i]) in st'.signals || (s.flow && Full(st'.queues, limits, ts[i]))
    decreases |ts|
  {
    hide DeliverAll;
    var n := |ts| - 1;
    var t, mid := ts[n], DeliverAll(kinds, limits, s, st, ts[..n], r);
    assert ts[..n] + [t] == ts;
    DeliverNext(kinds, limits, s, st, ts[..n], t, r);
    FullAfter(kinds, limits, s, mid, t, r);
    if i < n {
      Informed(kinds, limits, s, st, ts[..n], r, i);
      assert ts[..n][i] == ts[i];
    } else {
      var full := |mid.queues[t]| + 1 >= limits[t];
      assert !full || !s.flow ==> Available(t) in Signals(s, kinds[t], t, full);
    }
  }

  // ----- Who gets how many copies, in terms of the routes

  lemma {:induction false} CountCat(a: seq<nat>, b: seq<nat>, m: nat)
    ensures Count(a + b, m) == Count(a, m) + Count(b, m)
    decreases |b|
  {
    if b == [] {
      assert a + b == a;
    } else {
      var n := |b| - 1;
      CountCat(a, b[..n], m);
      assert a + b == a + b[..n] + [b[n]] && b == b[..n] + [b[n]];
      CountNext(a + b[..n], b[n], m);
      CountNext(b[..n], b[n], m);
    }
  }

  lemma {:induction false} CountDistinct(ms: seq<nat>, m: nat)
    requires Distinct(ms)
    ensures Count(ms, m) == if m in ms then 1 else 0
    decreases |ms|
  {
    if ms != [] {
      var n := |ms| - 1;
      CountDistinct(ms[..n], m);
      assert ms == ms[..n] + [ms[n]];
    }
  }

  lemma {:induction false} CountPositive(ms: seq<nat>, m: nat)
    ensures Count(ms, m) > 0 <==> m in ms
    decreases |ms|
  {
    if ms != [] {
      var n := |ms| - 1;
      CountPositive(ms[..n], m);
      assert ms == ms[..n] + [ms[n]];
    }
  }

  /** Position `j` is behind position `k` with no processor strictly between them. */
  predicate Behind(kinds: seq<Kind>, route: seq<nat>, k: nat, j: nat)
    requires Below(route, |kinds|)
  {
    k < j < |route| && forall i :: k < i < j ==> kinds[route[i]] != Processor
  }

  /** The module at some such position is `m`. */
  ghost predicate Follows(kinds: seq<Kind>, route: seq<nat>, id: nat, m: nat)
    requires Below(route, |kinds|) && id in route
  {
    exists j: nat :: Behind(kinds, route, Find(route, id), j) && route[j] == m
  }

  /** The successors of a processor that is not the last on its route: the modules behind it with no
      processor in between, each of them once. */
  lemma SuccessorsFollow(kinds: seq<Kind>, route: seq<nat>, id: nat, m: nat)
    requires Below(route, |kinds|) && Distinct(route) && id in route && OutputsFollow(kinds, route, id)
    requires Find(route, id) + 1 < |route|
    ensures Count(Successors(kinds, route, id), m) == if Follows(kinds, route, id, m) then 1 else 0
  {
    hide Count;
    var k := Find(route, id) + 1;
    var ts := Successors(kinds, route, id);
    CountDistinct(ts, m);
    if m in ts {
      var i :| 0 <= i < |ts| && ts[i] == m;
      assert Behind(kinds, route, k - 1, k + i) && route[k + i] == m;
    }
    if j: nat :| Behind(kinds, route, k - 1, j) && route[j] == m {
      assert ts[j - k] == m;
    }
  }

  /** A processor's record: every module behind it with no processor in between gets one copy, unless
      it is full and the processor does not wait; nobody else gets any. */
  lemma ProcessorDelivers(kinds: seq<Kind>, limits: seq<nat>, s: Sender, route: seq<nat>, st: State, r: Content, m: nat)
    requires |kinds| == |limits| == |st.queues| && m < |kinds|
    requires Below(route, |kinds|) && Distinct(route) && s.id in route && OutputsFollow(kinds, route, s.id)
    requires Find(route, s.id) + 1 < |route|
    ensures var st' := DeliverAll(kinds, limits, s, st, Successors(kinds, route, s.id), r);
            var gets := Follows(kinds, route, s.id, m) && (s.flow || |st.queues[m]| < limits[m]);
            && st'.queues[m] == st.queues[m] + (if gets then [r] else [])
            && (Follows(kinds, route, s.id, m) && !gets <==> Count(st'.dropped, m) > Count(st.dropped, m))
  {
    hide DeliverAll, Successors, Follows, Count;
    SuccessorsFollow(kinds, route, s.id, m);
    Conserved(kinds, limits, s, st, Successors(kinds, route, s.id), r, m);
  }

  /** One record more, or none. */
  predicate Gains(q: seq<Content>, r: Content, gets: bool, q': seq<Content>) {
    q' == if gets then q + [r] else q
  }

  lemma DeliveredGains(kinds: seq<Kind>, limits: seq<nat>, s: Sender, route: seq<nat>, st: State, r: Content, m: nat)
    requires |kinds| == |limits| == |st.queues| && m < |kinds|
    requires Below(route, |kinds|) && Distinct(route) && s.id in route && OutputsFollow(kinds, route, s.id)
    requires Find(route, s.id) + 1 < |route|
    ensures var st' := DeliverAll(kinds, limits, s, st, Successors(kinds, route, s.id), r);
            var gets := Follows(kinds, route, s.id, m) && (s.flow || |st.queues[m]| < limits[m]);
            Gains(st.queues[m], r, gets, st'.queues[m])
  {
    hide DeliverAll, Successors, Follows, OutputsFollow, Count;
    ProcessorDelivers(kinds, limits, s, route, st, r, m);
  }

  lemma TakenOut(st: State, id: nat, m: nat)
    requires id < |st.queues| && m < |st.queues| && st.queues[id] != []
    ensures |Without(st, id, true).queues| == |st.queues|
    ensures Without(st, id, true).queues[m] == if m == id then st.queues[m][1..] else st.queues[m]
  {
  }

  /** With the record taken out of the processor's own queue first: it moves on from there to every
      module that follows and has room, or is waited for. */
  lemma RecordMovesOn(kinds: seq<Kind>, limits: seq<nat>, s: Sender, route: seq<nat>, st: State, r: Content, m: nat)
    requires |kinds| == |limits| == |st.queues| && m < |kinds|
    requires Below(route, |kinds|) && Distinct(route) && s.id in route && OutputsFollow(kinds, route, s.id)
    requires Find(route, s.id) + 1 < |route|
    requires s.id < |kinds| && st.queues[s.id] != [] && r == st.queues[s.id][0]
    ensures var st' := DeliverAll(kinds, limits, s, Without(st, s.id, true), Successors(kinds, route, s.id), r);
            var gets := Follows(kinds, route, s.id, m) && (s.flow || |st.queues[m]| < limits[m]);
            if m == s.id then st'.queues[m] == st.queues[m][1..] else Gains(st.queues[m], r, gets, st'.queues[m])
  {
    hide *;
    TakenOut(st, s.id, m);
    NotBehindItself(kinds, route, s.id);
    DeliveredGains(kinds, limits, s, route, Without(st, s.id, true), r, m);
    GainsNothing(Without(st, s.id, true).queues[m], r,
                 DeliverAll(kinds, limits, s, Without(st, s.id, true), Successors(kinds, route, s.id), r).queues[m]);
  }

  lemma GainsNothing(q: seq<Content>, r: Content, q': seq<Content>)
    ensures Gains(q, r, false, q') ==> q' == q
  {
  }

  lemma NotBehindItself(kinds: seq<Kind>, route: seq<nat>, id: nat)
    requires Below(route, |kinds|) && Distinct(route) && id in route
    ensures !Follows(kinds, route, id, id)
  {
  }

  lemma SuccessorsDistinct(kinds: seq<Kind>, route: seq<nat>, id: nat)
    requires Below(route, |kinds|) && Distinct(route) && id in route && OutputsFollow(kinds, route, id)
    ensures Distinct(Successors(kinds, route, id))
  {
  }

  /** Deliveries to different destinations with room drop nothing. */
  lemma {:induction false} NoneDropped(kinds: seq<Kind>, limits: seq<nat>, s: Sender, st: State, ts: seq<nat>,
                                       r: Content)
    requires |kinds| == |limits| == |st.queues| && Below(ts, |kinds|) && Distinct(ts)
    requires forall i :: 0 <= i < |ts| ==> s.flow || |st.queues[ts[i]]| < limits[ts[i]]
    ensures DeliverAll(kinds, limits, s, st, ts, r).dropped == st.dropped
    decreases |ts|
  {
    hide DeliverAll, Count;
    if ts == [] {
      NothingDelivered(kinds, limits, s, st, r);
    } else {
      var n := |ts| - 1;
      NoneDropped(kinds, limits, s, st, ts[..n], r);
      assert ts[..n] + [ts[n]] == ts;
      DeliverNext(kinds, limits, s, st, ts[..n], ts[n], r);
      CountDistinct(ts[..n], ts[n]);
      Conserved(kinds, limits, s, st, ts[..n], r, ts[n]);
    }
  }

  lemma {:induction false} TargetsOnce(kinds: seq<Kind>, route: seq<nat>, m: nat)
    requires Below(route, |kinds|) && Distinct(route)
    ensures Distinct(RouteTargets(kinds, route))
    ensures m in RouteTargets(kinds, route) ==> m in route
    decreases |route|
  {
    if route != [] {
      TargetsOnce(kinds, route[1..], m);
      TargetsOnce(kinds, route[1..], route[0]);
      assert route[0] !in route[1..];
    }
  }

  /** Through how many of the routes a record comes to `m`. */
  ghost function RoutesTo(kinds: seq<Kind>, routes: seq<seq<nat>>, m: nat): (n: nat)
    requires AllBelow(routes, |kinds|)
  {
    if routes == [] then 0
    else (if exists i: nat :: Reaches(kinds, routes[0], i) && routes[0][i] == m then 1 else 0)
         + RoutesTo(kinds, routes[1..], m)
  }

  lemma {:induction false} TargetsCounted(kinds: seq<Kind>, routes: seq<seq<nat>>, m: nat)
    requires AllBelow(routes, |kinds|) && forall i :: 0 <= i < |routes| ==> Distinct(routes[i])
    ensures Count(Targets(kinds, routes), m) == RoutesTo(kinds, routes, m)
    decreases |routes|
  {
    hide Count, RouteTargets;
    if routes != [] {
      TargetsCounted(kinds, routes[1..], m);
      TargetsOnce(kinds, routes[0], m);
      TargetsAreReached(kinds, routes[0], m);
      CountDistinct(RouteTargets(kinds, routes[0]), m);
      CountCat(RouteTargets(kinds, routes[0]), Targets(kinds, routes[1..]), m);
    } else {
      CountNone(m);
    }
  }

  lemma CountNone(m: nat)
    ensures Count([], m) == 0
  {
  }

  /** An input's record: every module gets a copy for each of the input's routes that lets it through
      to this module, up to the module's limit if the input does not wait. */
  lemma InputDelivers(kinds: seq<Kind>, limits: seq<nat>, s: Sender, routes: seq<seq<nat>>, st: State,
                      r: Content, m: nat)
    requires |kinds| == |limits| == |st.queues| && m < |kinds|
    requires AllBelow(routes, |kinds|) && forall i :: 0 <= i < |routes| ==> Distinct(routes[i])
    ensures var st' := DeliverAll(kinds, limits, s, st, Targets(kinds, routes), r);
            var n, size := RoutesTo(kinds, routes, m), |st.queues[m]|;
            && st.queues[m] <= st'.queues[m]
            && |st'.queues[m]| ==
               (if s.flow || size + n <= limits[m] then size + n else if size < limits[m] then limits[m] else size)
            && (forall i :: size <= i < |st'.queues[m]| ==> st'.queues[m][i] == r)
  {
    hide DeliverAll, Targets, Count, RoutesTo;
    TargetsCounted(kinds, routes, m);
    Conserved(kinds, limits, s, st, Targets(kinds, routes), r, m);
  }

  // ----- Who is told

  /** Nothing but the sender's own pause and news for destinations is ever posted. */
  lemma {:induction false} OnlyTheseSignals(kinds: seq<Kind>, limits: seq<nat>, s: Sender, st: State, ts: seq<nat>,
                                            r: Content, x: Signal)
    requires |kinds| == |limits| == |st.queues| && Below(ts, |kinds|)
    requires x in DeliverAll(kinds, limits, s, st, ts, r).signals
    ensures x in st.signals || x == Pause(s.id) || (x.Available? && x.id in ts)
    decreases |ts|
  {
    hide DeliverAll;
    if ts == [] {
      NothingDelivered(kinds, limits, s, st, r);
    } else {
      var n := |ts| - 1;
      var mid := DeliverAll(kinds, limits, s, st, ts[..n], r);
      assert ts[..n] + [ts[n]] == ts;
      DeliverNext(kinds, limits, s, st, ts[..n], ts[n], r);
      if x in mid.signals {
        OnlyTheseSignals(kinds, limits, s, st, ts[..n], r, x);
      }
    }
  }

  /** What one delivery tells destination `m`: always without flow control, otherwise unless it is full
      then -- and a processor even if it is full, by an input that is not running. */
  predicate Tells(kinds: seq<Kind>, s: Sender, m: nat, size: nat, limit: nat)
    requires m < |kinds|
  {
    !s.flow || size + 1 < limit || (s.kind == Input && kinds[m] == Processor && !s.running)
  }

  lemma OneTold(kinds: seq<Kind>, limits: seq<nat>, s: Sender, st: State, t: nat, r: Content, m: nat)
    requires |kinds| == |limits| == |st.queues| && t < |kinds| && m < |kinds|
    ensures Available(m) in Deliver(kinds, limits, s, st, t, r).signals <==>
            Available(m) in st.signals || (t == m && Tells(kinds, s, m, |st.queues[m]|, limits[m]))
  {
  }

  /** Over all deliveries a destination is told if and only if the first one to it tells it. */
  lemma {:induction false} ToldIff(kinds: seq<Kind>, limits: seq<nat>, s: Sender, st: State, ts: seq<nat>,
                                   r: Content, m: nat)
    requires |kinds| == |limits| == |st.queues| && Below(ts, |kinds|) && m < |kinds|
    ensures Available(m) in DeliverAll(kinds, limits, s, st, ts, r).signals <==>
            Available(m) in st.signals || (m in ts && Tells(kinds, s, m, |st.queues[m]|, limits[m]))
    decreases |ts|
  {
    hide DeliverAll, Deliver, Count;
    if ts == [] {
      NothingDelivered(kinds, limits, s, st, r);
    } else {
      var n := |ts| - 1;
      var t, mid := ts[n], DeliverAll(kinds, limits, s, st, ts[..n], r);
      assert ts[..n] + [t] == ts;
      DeliverNext(kinds, limits, s, st, ts[..n], t, r);
      ToldIff(kinds, limits, s, st, ts[..n], r, m);
      OneTold(kinds, limits, s, mid, t, r, m);
      Conserved(kinds, limits, s, st, ts[..n], r, m);
      CountPositive(ts[..n], m);
    }
  }
}
