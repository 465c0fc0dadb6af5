/**
 Releasing back pressure (`nx_module_can_send` and `resume_senders` in `src/common/module.c`):
 whenever a module looks into its queue it resumes the senders in front of it that have room.
 */
module FlowControl {
  import opened Routing
  import EventQueue
  import Lifecycle

  /** Kinds, queue limits and sizes of all modules, and the routes each of them is on. */
  datatype Net = Net(kinds: seq<Kind>, limits: seq<nat>, sizes: seq<nat>, routes: seq<seq<seq<nat>>>)

  /** The queue of `m` is below `num`/`den` of its limit. */
  predicate Low(net: Net, m: nat, num: nat, den: nat) {
    m < |net.sizes| && m < |net.limits| && net.sizes[m] * den < net.limits[m] * num
  }

  predicate ValidNet(net: Net) {
    && |net.kinds| == |net.limits| == |net.sizes| == |net.routes|
    && forall m :: 0 <= m < |net.routes| ==> AllBelow(net.routes[m], |net.kinds|)
  }

  /** A processor is on its first route, with outputs behind the processors. */
  predicate OnRoute(net: Net, m: nat)
    requires ValidNet(net) && m < |net.kinds|
  {
    net.kinds[m] == Processor ==>
      net.routes[m] != [] && m in net.routes[m][0] && OutputsFollow(net.kinds, net.routes[m][0], m)
  }

  /** The queues looked at before `m` may send: its own for an output, those of its successors for
      a processor, all queues on its routes for an input. */
  ghost predicate Watched(net: Net, m: nat, t: nat)
    requires ValidNet(net) && m < |net.kinds| && OnRoute(net, m)
  {
    match net.kinds[m]
    case Output => t == m
    case Processor => t in Successors(net.kinds, net.routes[m][0], m)
    case Input => OnSome(net, net.routes[m], t)
  }

  ghost predicate OnSome(net: Net, routes: seq<seq<nat>>, t: nat) {
    t < |net.kinds| && net.kinds[t] != Input && exists r :: 0 <= r < |routes| && t in routes[r]
  }

  ghost predicate CanSend(net: Net, m: nat, num: nat, den: nat)
    requires ValidNet(net) && m < |net.kinds| && OnRoute(net, m)
  {
    forall t: nat :: Watched(net, m, t) ==> Low(net, t, num, den)
  }

  /** An input may send if and only if every processor and output of every one of its routes is below the
      threshold, near or far. */
  lemma InputWatchesAll(net: Net, m: nat, num: nat, den: nat)
    requires ValidNet(net) && m < |net.kinds| && net.kinds[m] == Input
    ensures OnRoute(net, m)
    ensures CanSend(net, m, num, den) <==>
            forall r, i :: 0 <= r < |net.routes[m]| && 0 <= i < |net.routes[m][r]| ==>
              Lets(net, net.routes[m][r][i], num, den)
  {
    hide Low;
    if CanSend(net, m, num, den) {
      forall r, i | 0 <= r < |net.routes[m]| && 0 <= i < |net.routes[m][r]|
        ensures Lets(net, net.routes[m][r][i], num, den)
      {
        var t := net.routes[m][r][i];
        assert Below(net.routes[m][r], |net.kinds|) && t in net.routes[m][r];
        assert net.kinds[t] != Input ==> Watched(net, m, t);
      }
    }
  }

  /** It is an input, or its queue is below `num`/`den` of its limit. */
  predicate Lets(net: Net, t: nat, num: nat, den: nat) {
    t < |net.kinds| && (net.kinds[t] != Input ==> Low(net, t, num, den))
  }

  // ----- The loops

  method AllLow(net: Net, ts: seq<nat>, num: nat, den: nat) returns (ok: bool)
    ensures ok <==> forall t :: t in ts ==> Low(net, t, num, den)
  {
    for i := 0 to |ts|
      invariant forall t :: t in ts[..i] ==> Low(net, t, num, den)
    {
      if !Low(net, ts[i], num, den) {
        return false;
      }
    }
    assert ts[..|ts|] == ts;
    ok := true;
  }

  /** The receivers of one route: everything but its inputs. */
  method RouteLow(net: Net, route: seq<nat>, num: nat, den: nat) returns (ok: bool)
    requires ValidNet(net) && Below(route, |net.kinds|)
    ensures ok <==> forall t :: t in route && net.kinds[t] != Input ==> Low(net, t, num, den)
  {
    for j := 0 to |route|
      invariant forall t :: t in route[..j] && net.kinds[t] != Input ==> Low(net, t, num, den)
    {
      if net.kinds[route[j]] != Input && !Low(net, route[j], num, den) {
        return false;
      }
    }
    assert route[..|route|] == route;
    ok := true;
  }

  method MaySend(net: Net, m: nat, num: nat, den: nat) returns (ok: bool)
    requires ValidNet(net) && m < |net.kinds| && OnRoute(net, m)
    ensures ok <==> CanSend(net, m, num, den)
  {
    match net.kinds[m] {
      case Output => ok := Low(net, m, num, den);
      case Processor => ok := AllLow(net, Successors(net.kinds, net.routes[m][0], m), num, den);
      case Input =>
        var routes := net.routes[m];
        for i := 0 to |routes|
          invariant forall t: nat :: OnSome(net, routes[..i], t) ==> Low(net, t, num, den)
        {
          assert Below(routes[i], |net.kinds|);
          ok := RouteLow(net, routes[i], num, den);
          if !ok {
            assert exists t :: t in routes[i] && net.kinds[t] != Input && !Low(net, t, num, den);
            return;
          }
          assert forall t: nat :: OnSome(net, routes[..i + 1], t) ==> OnSome(net, routes[..i], t) || t in routes[i];
        }
        assert routes[..|routes|] == routes;
        ok := true;
    }
  }

  // ----- Who is resumed

  /** What a module posts when it looks into its queue. */
  datatype Post = Resume(id: nat) | Notify(id: nat)

  /** Position of the module directly in front of position `k`; outputs share theirs. */
  function Before(kinds: seq<Kind>, route: seq<nat>, k: nat): (p: nat)
    requires Below(route, |kinds|) && k < |route|
    requires kinds[route[k]] == Processor ==> k > 0
    requires exists i :: 0 <= i <= k && kinds[route[i]] != Output
    ensures p <= k && (kinds[route[k]] == Processor ==> p + 1 == k)
    ensures kinds[route[k]] != Processor ==> kinds[route[p]] != Output
    ensures kinds[route[k]] != Processor ==> forall i :: p < i <= k ==> kinds[route[i]] == Output
    decreases k
  {
    if kinds[route[k]] == Processor then k - 1
    else if kinds[route[k]] != Output then k
    else if kinds[route[k - 1]] == Processor then k - 1
    else Before(kinds, route, k - 1)
  }

  /** The senders in front of `m` on a route: the processor before it, or all the inputs. */
  function Senders(kinds: seq<Kind>, route: seq<nat>, m: nat): (xs: seq<nat>)
    requires Below(route, |kinds|) && Receives(kinds, route, m)
    ensures Below(xs, |kinds|)
  {
    var p := Before(kinds, route, Find(route, m));
    if kinds[route[p]] == Processor then [route[p]] else route[..p + 1]
  }

  /** `m` has a sender on the route, and in front of the first processor there are only inputs. */
  predicate Receives(kinds: seq<Kind>, route: seq<nat>, m: nat)
    requires Below(route, |kinds|)
  {
    && m in route && kinds[m] != Input
    && (var k := Find(route, m);
        && k > 0 && (exists i :: 0 <= i < k && kinds[route[i]] != Output)
        && var p := Before(kinds, route, k);
           kinds[route[p]] != Processor ==> forall i :: 0 <= i <= p ==> kinds[route[i]] == Input)
  }

  /** `m` can be peeked at: it has senders on all its routes, and they are on routes themselves. */
  predicate HasSenders(net: Net, m: nat)
    requires ValidNet(net) && m < |net.kinds|
  {
    forall r :: 0 <= r < |net.routes[m]| ==>
      && Below(net.routes[m][r], |net.kinds|)
      && Receives(net.kinds, net.routes[m][r], m)
      && SendersOnRoute(net, Senders(net.kinds, net.routes[m][r], m))
  }

  predicate SendersOnRoute(net: Net, xs: seq<nat>)
    requires ValidNet(net)
  {
    forall i :: 0 <= i < |xs| ==> xs[i] < |net.kinds| && OnRoute(net, xs[i])
  }

  /** `x` is a sender in front of `m` on one of the first `n` routes, and has room everywhere. */
  ghost predicate Resumable(net: Net, m: nat, x: nat, n: nat)
    requires ValidNet(net) && m < |net.kinds| && HasSenders(net, m) && n <= |net.routes[m]|
  {
    exists r :: 0 <= r < n && IsSender(net, m, x, r)
  }

  ghost predicate IsSender(net: Net, m: nat, x: nat, r: nat)
    requires ValidNet(net) && m < |net.kinds| && HasSenders(net, m) && r < |net.routes[m]|
  {
    x in Senders(net.kinds, net.routes[m][r], m) && x < |net.kinds| && OnRoute(net, x) && CanSend(net, x, 7, 10)
  }

  /** The posts for the senders of one route: `xs` are tried in turn. */
  method ResumeAll(net: Net, running: seq<bool>, xs: seq<nat>) returns (posts: seq<Post>)
    requires ValidNet(net) && |running| == |net.kinds| && SendersOnRoute(net, xs)
    ensures forall x: nat :: Resume(x) in posts <==>
      x in xs && x < |net.kinds| && OnRoute(net, x) && CanSend(net, x, 7, 10)
    ensures forall x: nat :: Notify(x) in posts <==>
      Resume(x) in posts && x < |net.kinds| && net.kinds[x] == Processor && running[x]
  {
    hide CanSend, OnRoute, ValidNet;
    posts := [];
    for i := |xs| downto 0
      invariant forall x: nat :: Resume(x) in posts <==>
        x in xs[i..] && x < |net.kinds| && OnRoute(net, x) && CanSend(net, x, 7, 10)
      invariant forall x: nat :: Notify(x) in posts <==>
        Resume(x) in posts && x < |net.kinds| && net.kinds[x] == Processor && running[x]
    {
      assert xs[i..] == [xs[i]] + xs[i + 1..];
      var ok := MaySend(net, xs[i], 7, 10);
      if ok {
        posts := posts + [Resume(xs[i])];
        if net.kinds[xs[i]] == Processor && running[xs[i]] {
          posts := posts + [Notify(xs[i])];
        }
      }
    }
    assert xs[0..] == xs;
  }

  /** A look into the queue of `m` resumes exactly the senders in front of it that have room, and
      makes the processors among them that run look into their own queues. */
  method ResumeSenders(net: Net, running: seq<bool>, m: nat) returns (posts: seq<Post>)
    requires ValidNet(net) && |running| == |net.kinds| && m < |net.kinds| && HasSenders(net, m)
    ensures forall x: nat :: Resume(x) in posts <==> Resumable(net, m, x, |net.routes[m]|)
    ensures forall x: nat :: Notify(x) in posts <==>
      Resume(x) in posts && x < |net.kinds| && net.kinds[x] == Processor && running[x]
  {
    hide CanSend, OnRoute, Senders, Receives;
    posts := [];
    for r := 0 to |net.routes[m]|
      invariant forall x: nat :: Resume(x) in posts <==> Resumable(net, m, x, r)
      invariant forall x: nat :: Notify(x) in posts <==>
        Resume(x) in posts && x < |net.kinds| && net.kinds[x] == Processor && running[x]
    {
      var more := ResumeAll(net, running, Senders(net.kinds, net.routes[m][r], m));
      forall x: nat
        ensures Resume(x) in posts + more <==> Resumable(net, m, x, r + 1)
      {
        assert Resumable(net, m, x, r + 1) <==> Resumable(net, m, x, r) || IsSender(net, m, x, r);
      }
      posts := posts + more;
    }
  }

  // ----- Pause and resume do not fight

  /** While a destination is full its sender is not resumed: back pressure holds until the queue
      has drained to below seven tenths. */
  lemma NotResumedWhileFull(net: Net, m: nat, t: nat)
    requires ValidNet(net) && m < |net.kinds| && OnRoute(net, m) && t < |net.kinds|
    requires net.sizes[t] * 10 >= net.limits[t] * 7
    requires match net.kinds[m]
             case Input => t in Targets(net.kinds, net.routes[m])
             case Processor => t in Successors(net.kinds, net.routes[m][0], m)
             case Output => t == m
    ensures !CanSend(net, m, 7, 10)
  {
    if net.kinds[m] == Input {
      TargetsAreOnRoutes(net.kinds, net.routes[m], t);
    }
    assert Watched(net, m, t);
  }

  /** So no look resumes it, whoever looks. */
  lemma FullIsNotResumable(net: Net, m: nat, x: nat, t: nat, n: nat)
    requires ValidNet(net) && m < |net.kinds| && HasSenders(net, m) && n <= |net.routes[m]|
    requires x < |net.kinds| && OnRoute(net, x) && t < |net.kinds| && net.sizes[t] * 10 >= net.limits[t] * 7
    requires match net.kinds[x]
             case Input => t in Targets(net.kinds, net.routes[x])
             case Processor => t in Successors(net.kinds, net.routes[x][0], x)
             case Output => t == x
    ensures !Resumable(net, m, x, n)
  {
    NotResumedWhileFull(net, x, t);
  }

  /** A processor that may send at its destinations' full limits takes none of them over its limit
      with one record. */
  lemma MaySendFits(net: Net, s: Sender, st: State, r: Content, t: nat)
    requires ValidNet(net) && s.id < |net.kinds| && net.kinds[s.id] == Processor && OnRoute(net, s.id)
    requires Distinct(net.routes[s.id][0]) && Find(net.routes[s.id][0], s.id) + 1 < |net.routes[s.id][0]|
    requires |st.queues| == |net.kinds| && t < |net.kinds|
    requires forall i :: 0 <= i < |st.queues| ==> |st.queues[i]| == net.sizes[i] <= net.limits[i]
    requires CanSend(net, s.id, 1, 1)
    ensures var st' := DeliverAll(net.kinds, net.limits, s, st, Successors(net.kinds, net.routes[s.id][0], s.id), r);
            |st'.queues[t]| <= net.limits[t] && st'.dropped == st.dropped
  {
    hide Count, DeliverAll, Successors, Follows;
    var route := net.routes[s.id][0];
    var ts := Successors(net.kinds, route, s.id);
    assert Below(route, |net.kinds|);
    ProcessorDelivers(net.kinds, net.limits, s, route, st, r, t);
    SuccessorsFollow(net.kinds, route, s.id, t);
    CountPositive(ts, t);
    if t in ts {
      assert Watched(net, s.id, t);
    }
    forall i | 0 <= i < |ts|
      ensures s.flow || |st.queues[ts[i]]| < net.limits[ts[i]]
    {
      assert Watched(net, s.id, ts[i]);
    }
    SuccessorsDistinct(net.kinds, route, s.id);
    NoneDropped(net.kinds, net.limits, s, st, ts, r);
  }

  lemma {:induction false} TargetsAreOnRoutes(kinds: seq<Kind>, routes: seq<seq<nat>>, t: nat)
    requires AllBelow(routes, |kinds|) && t in Targets(kinds, routes)
    ensures t < |kinds| && kinds[t] != Input && exists r :: 0 <= r < |routes| && t in routes[r]
    decreases |routes|
  {
    if t in RouteTargets(kinds, routes[0]) {
      TargetsAreReached(kinds, routes[0], t);
      assert t in routes[0];
    } else {
      TargetsAreOnRoutes(kinds, routes[1..], t);
      var r :| 0 <= r < |routes[1..]| && t in routes[1..][r];
      assert t in routes[r + 1];
    }
  }

  // ----- How far one look reaches

  /** `a` inputs, at least one, then processors up to `b`, then outputs. */
  predicate Routed(kinds: seq<Kind>, route: seq<nat>, a: nat, b: nat) {
    && Below(route, |kinds|) && 0 < a <= b <= |route|
    && (forall i :: 0 <= i < a ==> kinds[route[i]] == Input)
    && (forall i :: a <= i < b ==> kinds[route[i]] == Processor)
    && (forall i :: b <= i < |route| ==> kinds[route[i]] == Output)
  }

  /** A route in working order: its processors are on no other route and on this one once, as the
      configuration demands. */
  ghost predicate GoodRoute(net: Net, route: seq<nat>)
    requires |net.kinds| == |net.routes|
  {
    && (exists a: nat, b: nat :: Routed(net.kinds, route, a, b))
    && (forall i :: 0 <= i < |route| ==> route[i] < |net.kinds|)
    && (forall i :: 0 <= i < |route| && net.kinds[route[i]] == Processor ==> net.routes[route[i]] == [route])
    && (forall i, j :: 0 <= i < j < |route| && net.kinds[route[i]] == Processor ==> route[i] != route[j])
  }

  ghost predicate WellRouted(net: Net) {
    && ValidNet(net)
    && forall m, r :: 0 <= m < |net.kinds| && 0 <= r < |net.routes[m]| ==>
         m in net.routes[m][r] && GoodRoute(net, net.routes[m][r])
  }

  /** Position of the last module in front of position `k` that is no output. */
  function Front(b: nat, k: nat): (p: int) { (if k < b then k else b) - 1 }

  lemma BeforeOnRoute(kinds: seq<Kind>, route: seq<nat>, a: nat, b: nat, k: nat)
    requires Routed(kinds, route, a, b) && a <= k < |route|
    ensures kinds[route[0]] != Output && Before(kinds, route, k) == Front(b, k)
  {
    assert kinds[route[0]] != Output;
    var q := Before(kinds, route, k);
    if k >= b {
      assert kinds[route[b - 1]] != Output;
      assert q < b ==> q == b - 1;
    }
  }

  /** The senders in front of `m`: the last processor before it, or all the inputs. */
  lemma SendersOnGoodRoute(kinds: seq<Kind>, route: seq<nat>, a: nat, b: nat, m: nat)
    requires Routed(kinds, route, a, b) && m in route && kinds[m] != Input
    ensures Receives(kinds, route, m)
    ensures var k := Find(route, m);
            a <= k && Senders(kinds, route, m) == if Front(b, k) >= a then [route[Front(b, k)]] else route[..a]
  {
    hide Before;
    var k := Find(route, m);
    assert k >= a;
    BeforeOnRoute(kinds, route, a, b, k);
  }

  /** The place of a processor on its one route. */
  lemma ProcessorOnRoute(net: Net, route: seq<nat>, q: nat)
    requires ValidNet(net) && GoodRoute(net, route) && q < |route| && net.kinds[route[q]] == Processor
    ensures Find(route, route[q]) == q && OnRoute(net, route[q])
  {
    var a: nat, b: nat :| Routed(net.kinds, route, a, b);
    assert Find(route, route[q]) == q;
  }

  /** In a net in working order every module behind the inputs can be looked at. */
  lemma AllHaveSenders(net: Net, m: nat)
    requires WellRouted(net) && m < |net.kinds| && net.kinds[m] != Input
    ensures HasSenders(net, m)
  {
    hide OnRoute, Senders, Receives;
    forall r | 0 <= r < |net.routes[m]|
      ensures var route := net.routes[m][r];
              && Below(route, |net.kinds|) && Receives(net.kinds, route, m)
              && SendersOnRoute(net, Senders(net.kinds, route, m))
    {
      var route := net.routes[m][r];
      var a: nat, b: nat :| Routed(net.kinds, route, a, b);
      SendersOnGoodRoute(net.kinds, route, a, b, m);
      forall i | 0 <= i < |route| && net.kinds[route[i]] != Output
        ensures OnRoute(net, route[i])
      {
        if net.kinds[route[i]] == Processor {
          ProcessorOnRoute(net, route, i);
        } else {
          InputsAreOnRoute(net, route[i]);
        }
      }
    }
  }

  lemma InputsAreOnRoute(net: Net, m: nat)
    requires ValidNet(net) && m < |net.kinds| && net.kinds[m] == Input
    ensures OnRoute(net, m)
  {
  }

  /** Handling RESUME makes a processor look: every processor has a queue. */
  predicate ResumeWakes(status: Lifecycle.Status, backlog: bool) {
    EventQueue.DataAvailable in Lifecycle.Handle(status, EventQueue.Resume, Lifecycle.Setup(true, backlog)).posts
  }

  /** Processor `q` looks into its queue because of what a look posted: it was notified, or it was
      resumed and its handler has it look. */
  predicate Woken(net: Net, status: seq<Lifecycle.Status>, posts: seq<Post>, q: nat)
    requires ValidNet(net) && |status| == |net.kinds|
  {
    && q < |net.kinds| && net.kinds[q] == Processor
    && (Notify(q) in posts || (Resume(q) in posts && ResumeWakes(status[q], net.sizes[q] > 0)))
  }

  /** A look into the queue of `m` leads to one of processor `q`. */
  ghost predicate LooksNext(net: Net, status: seq<Lifecycle.Status>, m: nat, q: nat)
    requires WellRouted(net) && |status| == |net.kinds| && m < |net.kinds| && net.kinds[m] != Input
  {
    AllHaveSenders(net, m);
    && q < |net.kinds| && net.kinds[q] == Processor && Resumable(net, m, q, |net.routes[m]|)
    && (status[q] == Lifecycle.Running || ResumeWakes(status[q], net.sizes[q] > 0))
  }

  /** What the loop posts is what wakes the next ones. */
  method Look(net: Net, status: seq<Lifecycle.Status>, m: nat) returns (posts: seq<Post>)
    requires WellRouted(net) && |status| == |net.kinds| && m < |net.kinds| && net.kinds[m] != Input
    ensures HasSenders(net, m)
    ensures forall x: nat :: Resume(x) in posts <==> Resumable(net, m, x, |net.routes[m]|)
    ensures forall q: nat :: Woken(net, status, posts, q) <==> LooksNext(net, status, m, q)
  {
    hide Resumable, HasSenders;
    AllHaveSenders(net, m);
    var running := seq(|status|, i requires 0 <= i < |status| => status[i] == Lifecycle.Running);
    posts := ResumeSenders(net, running, m);
  }

  /** A look into the queue of `m`, and `n` further ones it leads to, resume `x`. */
  ghost predicate ReachedIn(net: Net, status: seq<Lifecycle.Status>, m: nat, x: nat, n: nat)
    requires WellRouted(net) && |status| == |net.kinds| && m < |net.kinds| && net.kinds[m] != Input
    decreases n
  {
    AllHaveSenders(net, m);
    if n == 0 then Resumable(net, m, x, |net.routes[m]|)
    else exists q: nat :: LooksNext(net, status, m, q) && ReachedIn(net, status, q, x, n - 1)
  }

  /** Input `x` of the route has room, and every processor between it and `m` has room and runs or
      is paused. */
  ghost predicate ClearTo(net: Net, status: seq<Lifecycle.Status>, route: seq<nat>, m: nat, x: nat)
    requires ValidNet(net) && Below(route, |net.kinds|) && |status| == |net.kinds| && m in route
  {
    && x in route && net.kinds[x] == Input && OnRoute(net, x) && CanSend(net, x, 7, 10)
    && AllPass(net, status, route, Find(route, m))
  }

  ghost predicate AllPass(net: Net, status: seq<Lifecycle.Status>, route: seq<nat>, k: nat)
    requires ValidNet(net) && Below(route, |net.kinds|) && |status| == |net.kinds| && k <= |route|
  {
    forall i :: 0 <= i < k && net.kinds[route[i]] == Processor ==> Passes(net, status, route[i])
  }

  ghost predicate Passes(net: Net, status: seq<Lifecycle.Status>, q: nat)
    requires ValidNet(net) && |status| == |net.kinds|
  {
    && q < |net.kinds| && OnRoute(net, q) && CanSend(net, q, 7, 10)
    && (status[q] == Lifecycle.Running || status[q] == Lifecycle.Paused)
  }

  lemma WokenByResume(status: Lifecycle.Status, backlog: bool)
    ensures status == Lifecycle.Running || ResumeWakes(status, backlog)
      <==> status == Lifecycle.Running || status == Lifecycle.Paused
  {
  }

  lemma PassOneFurther(net: Net, status: seq<Lifecycle.Status>, route: seq<nat>, a: nat, b: nat, k: nat)
    requires ValidNet(net) && |status| == |net.kinds| && Routed(net.kinds, route, a, b) && a <= k < |route|
    ensures AllPass(net, status, route, k) <==>
            Front(b, k) < a || (AllPass(net, status, route, Front(b, k)) && Passes(net, status, route[Front(b, k)]))
  {
    hide Passes;
  }

  /** One sender on one route: an input directly in front, or the processor in front. */
  lemma SenderOfRoute(net: Net, m: nat, r: nat, x: nat, a: nat, b: nat)
    requires WellRouted(net) && m < |net.kinds| && net.kinds[m] != Input && r < |net.routes[m]|
    requires Routed(net.kinds, net.routes[m][r], a, b)
    ensures HasSenders(net, m)
    ensures var route := net.routes[m][r];
            var k := Find(route, m);
            var p := Front(b, k);
            && a <= k && (p >= a ==> net.kinds[route[p]] == Processor)
            && (IsSender(net, m, x, r) <==>
                (if p >= a then x == route[p] else x in route[..a]) && OnRoute(net, x) && CanSend(net, x, 7, 10))
  {
    hide OnRoute, CanSend, Senders, Receives;
    AllHaveSenders(net, m);
    SendersOnGoodRoute(net.kinds, net.routes[m][r], a, b, m);
  }

  lemma {:induction false} ReachedIsClear(net: Net, status: seq<Lifecycle.Status>, m: nat, x: nat, n: nat)
    requires WellRouted(net) && |status| == |net.kinds| && m < |net.kinds| && net.kinds[m] != Input
    requires x < |net.kinds| && net.kinds[x] == Input && ReachedIn(net, status, m, x, n)
    ensures exists r :: 0 <= r < |net.routes[m]| && ClearTo(net, status, net.routes[m][r], m, x)
    decreases n
  {
    hide OnRoute, CanSend, IsSender, HasSenders, ClearTo, Routed, GoodRoute;
    AllHaveSenders(net, m);
    if n == 0 {
      var r: nat :| r < |net.routes[m]| && IsSender(net, m, x, r);
      DirectlyClear(net, status, m, r, x);
    } else {
      var q: nat :| LooksNext(net, status, m, q) && ReachedIn(net, status, q, x, n - 1);
      ReachedIsClear(net, status, q, x, n - 1);
      var s: nat :| s < |net.routes[q]| && ClearTo(net, status, net.routes[q][s], q, x);
      var r: nat :| r < |net.routes[m]| && IsSender(net, m, q, r);
      ClearOneFurther(net, status, m, r, q, s, x);
    }
  }

  lemma DirectlyClear(net: Net, status: seq<Lifecycle.Status>, m: nat, r: nat, x: nat)
    requires WellRouted(net) && |status| == |net.kinds| && m < |net.kinds| && net.kinds[m] != Input
    requires r < |net.routes[m]| && HasSenders(net, m) && IsSender(net, m, x, r) && net.kinds[x] == Input
    ensures ClearTo(net, status, net.routes[m][r], m, x)
  {
    hide OnRoute, CanSend, IsSender, HasSenders, AllPass;
    var route := net.routes[m][r];
    var a: nat, b: nat :| Routed(net.kinds, route, a, b);
    SenderOfRoute(net, m, r, x, a, b);
    PassOneFurther(net, status, route, a, b, Find(route, m));
  }

  lemma ClearOneFurther(net: Net, status: seq<Lifecycle.Status>, m: nat, r: nat, q: nat, s: nat, x: nat)
    requires WellRouted(net) && |status| == |net.kinds| && m < |net.kinds| && net.kinds[m] != Input
    requires LooksNext(net, status, m, q) && r < |net.routes[m]| && HasSenders(net, m) && IsSender(net, m, q, r)
    requires s < |net.routes[q]| && ClearTo(net, status, net.routes[q][s], q, x)
    ensures ClearTo(net, status, net.routes[m][r], m, x)
  {
    hide OnRoute, CanSend, IsSender, HasSenders, ResumeWakes, AllPass, Resumable, Routed;
    var route := net.routes[m][r];
    var a: nat, b: nat :| Routed(net.kinds, route, a, b);
    SenderOfRoute(net, m, r, q, a, b);
    RoutedMeans(net.kinds, route, a, b);
    var k := Find(route, m);
    var p := Front(b, k);
    assert q == route[p];
    ProcessorOnRoute(net, route, p);
    WokenByResume(status[q], net.sizes[q] > 0);
    PassOneFurther(net, status, route, a, b, k);
  }

  lemma RoutedMeans(kinds: seq<Kind>, route: seq<nat>, a: nat, b: nat)
    requires Routed(kinds, route, a, b)
    ensures Below(route, |kinds|) && 0 < a <= b <= |route|
    ensures forall i :: 0 <= i < |route| ==> (kinds[route[i]] == Input <==> i < a)
  {
  }

  lemma ClearDirectly(net: Net, status: seq<Lifecycle.Status>, m: nat, r: nat, x: nat, a: nat, b: nat)
    requires WellRouted(net) && |status| == |net.kinds| && m < |net.kinds| && net.kinds[m] != Input
    requires r < |net.routes[m]| && ClearTo(net, status, net.routes[m][r], m, x)
    requires Routed(net.kinds, net.routes[m][r], a, b) && Front(b, Find(net.routes[m][r], m)) < a
    ensures ReachedIn(net, status, m, x, 0)
  {
    hide OnRoute, CanSend, IsSender, HasSenders, AllPass, Routed;
    AllHaveSenders(net, m);
    RoutedMeans(net.kinds, net.routes[m][r], a, b);
    SenderOfRoute(net, m, r, x, a, b);
    assert x in net.routes[m][r][..a];
  }

  /** The processor in front looks next, and the route is clear from there on. */
  lemma ClearFromNext(net: Net, status: seq<Lifecycle.Status>, m: nat, r: nat, x: nat, a: nat, b: nat)
    requires WellRouted(net) && |status| == |net.kinds| && m < |net.kinds| && net.kinds[m] != Input
    requires r < |net.routes[m]| && ClearTo(net, status, net.routes[m][r], m, x)
    requires Routed(net.kinds, net.routes[m][r], a, b) && Front(b, Find(net.routes[m][r], m)) >= a
    ensures var route := net.routes[m][r];
            var p := Front(b, Find(route, m));
            var q := route[p];
            && LooksNext(net, status, m, q) && net.routes[q] == [route]
            && Find(route, q) == p && ClearTo(net, status, route, q, x)
  {
    hide OnRoute, CanSend, IsSender, HasSenders, ResumeWakes, AllPass, Routed;
    var route := net.routes[m][r];
    var k := Find(route, m);
    var p := Front(b, k);
    var q := route[p];
    AllHaveSenders(net, m);
    RoutedMeans(net.kinds, route, a, b);
    SenderOfRoute(net, m, r, q, a, b);
    PassOneFurther(net, status, route, a, b, k);
    WokenByResume(status[q], net.sizes[q] > 0);
    ProcessorOnRoute(net, route, p);
  }

  lemma {:induction false} ClearIsReached(net: Net, status: seq<Lifecycle.Status>, m: nat, r: nat, x: nat)
    returns (n: nat)
    requires WellRouted(net) && |status| == |net.kinds| && m < |net.kinds| && net.kinds[m] != Input
    requires r < |net.routes[m]| && ClearTo(net, status, net.routes[m][r], m, x)
    ensures ReachedIn(net, status, m, x, n)
    decreases Find(net.routes[m][r], m)
  {
    hide OnRoute, CanSend, ClearTo, LooksNext, Routed;
    var route := net.routes[m][r];
    var a: nat, b: nat :| Routed(net.kinds, route, a, b);
    RoutedMeans(net.kinds, route, a, b);
    var p := Front(b, Find(route, m));
    if p < a {
      ClearDirectly(net, status, m, r, x, a, b);
      n := 0;
    } else {
      ClearFromNext(net, status, m, r, x, a, b);
      var before := ClearIsReached(net, status, route[p], 0, x);
      n := before + 1;
    }
  }

  /** With queue sizes fixed, the look of a module ends up resuming an input if and only if, on one
      of its routes, the input has room and every processor in between has room and runs or is
      paused.  Only a processor that is stopped or was never initialized breaks the chain. */
  lemma ChainReachesInputs(net: Net, status: seq<Lifecycle.Status>, m: nat, x: nat)
    requires WellRouted(net) && |status| == |net.kinds| && m < |net.kinds| && net.kinds[m] != Input
    requires x < |net.kinds| && net.kinds[x] == Input
    ensures (exists n :: ReachedIn(net, status, m, x, n)) <==>
            exists r :: 0 <= r < |net.routes[m]| && ClearTo(net, status, net.routes[m][r], m, x)
  {
    hide ReachedIn, ClearTo;
    if n :| ReachedIn(net, status, m, x, n) {
      ReachedIsClear(net, status, m, x, n);
    }
    if r :| 0 <= r < |net.routes[m]| && ClearTo(net, status, net.routes[m][r], m, x) {
      var n := ClearIsReached(net, status, m, r, x);
    }
  }

  /** Input, processor and output with empty queues. */
  function Line(): (net: Net) {
    var route := [0, 1, 2];
    Net([Input, Processor, Output], [100, 100, 100], [0, 0, 0], [[route], [route], [route]])
  }

  lemma LineIsRouted()
    ensures WellRouted(Line()) && GoodRoute(Line(), [0, 1, 2]) && Find([0, 1, 2], 2) == 2
  {
    var net := Line();
    assert Routed(net.kinds, [0, 1, 2], 1, 2);
    assert net.routes[1] == [[0, 1, 2]];
    assert Find([1, 2], 2) == 1;
  }

  lemma LineHasRoom()
    ensures ValidNet(Line()) && OnRoute(Line(), 1) && CanSend(Line(), 1, 7, 10)
    ensures OnRoute(Line(), 0) && CanSend(Line(), 0, 7, 10)
  {
    hide GoodRoute, Find, Successors, OutputsFollow;
    LineIsRouted();
    ProcessorOnRoute(Line(), [0, 1, 2], 1);
    assert forall t: nat :: t < 3 ==> Low(Line(), t, 7, 10);
  }

  /** The look of the output resumes the input exactly if the processor runs or is paused. */
  lemma StoppedProcessorBreaksTheChain(s: Lifecycle.Status)
    ensures var status := [Lifecycle.Paused, s, Lifecycle.Running];
            WellRouted(Line()) &&
            ((exists n :: ReachedIn(Line(), status, 2, 0, n)) <==> s == Lifecycle.Running || s == Lifecycle.Paused)
  {
    hide WellRouted, ReachedIn, OnRoute, CanSend;
    var net, status := Line(), [Lifecycle.Paused, s, Lifecycle.Running];
    LineIsRouted();
    LineHasRoom();
    ChainReachesInputs(net, status, 2, 0);
    assert ClearTo(net, status, net.routes[2][0], 2, 0) <==> Passes(net, status, 1);
  }
}
