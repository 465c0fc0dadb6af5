/**
 Pausing and resuming as they interleave (`src/common/module.c`): a sender that hands records to
 one receiver under flow control.  The sender pushes and only then posts PAUSE to itself; the
 receiver looks into its queue and posts RESUME to the sender.  Neither holds a lock across its
 steps.

 Every DATA_AVAILABLE makes the receiver look, and no other events reach either of the two.
 */
module Handshake {
  import opened EventQueue
  import opened Lifecycle

  /** An input looks at an output once more after it has paused; nobody else does. */
  datatype Hop = InputToOutput | InputToProcessor | FromProcessor

  /** Where the sender is: between records, behind a push that did or did not fill the queue, or
      about to look at the output once more. */
  datatype Phase = Between | Pushed(full: bool) | Telling

  /** `size`: records queued; `status`, `inbox`: status and queued events of the sender; `pending`:
      a DATA_AVAILABLE waits for the receiver; `looking`: it has peeked and not yet resumed its
      senders; `atHand`: it has a record it may pop.  `late` is history: the last PAUSE was posted
      with no look pending or under way, and nothing has been pushed since. */
  datatype Link = Link(size: nat, phase: Phase, status: Status, inbox: seq<Event>,
                       pending: bool, looking: bool, atHand: bool, late: bool)

  datatype Step = Push | Decide | Tell | Obey | Peek | Release | Pop

  const SETUP := Setup(true, true)

  function Initial(): (x: Link) { Link(0, Between, Running, [], false, false, false, false) }

  function Posting(q: seq<Event>, t: EventType): (r: seq<Event>) { Dedupe(q + [Event(0, t, 0, 1)]) }

  predicate Enabled(x: Link, s: Step) {
    match s
    case Push => x.phase == Between && x.status == Running
    case Decide => x.phase.Pushed?
    case Tell => x.phase == Telling
    case Obey => x.phase == Between && x.inbox != []
    case Peek => x.pending && !x.looking
    case Release => x.looking
    case Pop => x.atHand && !x.looking && x.size > 0
  }

  /** A step that is not enabled does nothing. */
  function Do(h: Hop, limit: nat, x: Link, s: Step): (y: Link) {
    if !Enabled(x, s) then x
    else match s
         case Push => x.(size := x.size + 1, phase := Pushed(x.size + 1 >= limit), late := false)
         case Decide =>
           var pause := x.phase.full && (h == FromProcessor || x.status == Running);
           var y := if pause then x.(inbox := Posting(x.inbox, Pause)) else x;
           if h == InputToOutput then y.(phase := Telling)
           else if pause then y.(phase := Between, late := !x.pending && !x.looking)
           else y.(phase := Between, pending := true)
         case Tell => x.(phase := Between, pending := x.pending || x.size < limit)
         case Obey => x.(status := Handle(x.status, x.inbox[0].typ, SETUP).status, inbox := x.inbox[1..])
         case Peek => x.(pending := x.size > 0, looking := true, atHand := x.size > 0)
         case Release =>
           x.(looking := false, inbox := if x.size * 10 < limit * 7 then Posting(x.inbox, Resume) else x.inbox)
         case Pop => x.(size := x.size - 1, atHand := false)
  }

  function Play(h: Hop, limit: nat, x: Link, steps: seq<Step>): (y: Link)
    decreases |steps|
  {
    if steps == [] then x else Do(h, limit, Play(h, limit, x, steps[..|steps| - 1]), steps[|steps| - 1])
  }

  // ----- What the sender's queue leads to

  predicate Toggles(q: seq<Event>) { forall i :: 0 <= i < |q| ==> q[i].typ == Pause || q[i].typ == Resume }

  /** The status the sender has once it has handled what is queued. */
  function Final(x: Link): (p: Progress) { HandleAll(Progress(x.status, false, false), x.inbox, SETUP) }

  predicate Toggled(p: Progress) { (p.status == Running || p.status == Paused) && !p.purged && !p.resume }

  /** Posting to the queue has the effect of handling the event last, deduplicated or not. */
  lemma PostingHandlesLast(p: Progress, q: seq<Event>, t: EventType)
    requires Toggles(q) && (t == Pause || t == Resume)
    ensures Toggles(Posting(q, t)) && Posting(q, t) != []
    ensures var f := HandleAll(p, q, SETUP);
            Toggled(f) ==> HandleAll(p, Posting(q, t), SETUP) == f.(status := if t == Pause then Paused else Running)
  {
    hide HandleAll, Dedupe;
    var more := q + [Event(0, t, 0, 1)];
    NoStartPreserved(p, more, SETUP);
    DedupeTail(more);
    assert more[..|more|] == more && more[..|q|] == q;
    LastHandled(p, more, |more|, SETUP);
  }

  lemma ObeyingKeepsFinal(x: Link)
    requires Toggles(x.inbox) && x.inbox != [] && (x.status == Running || x.status == Paused)
    ensures var s := Handle(x.status, x.inbox[0].typ, SETUP).status;
            && (s == Running || s == Paused)
            && HandleAll(Progress(s, false, false), x.inbox[1..], SETUP) == Final(x)
  {
    hide HandleAll;
    HandleFirst(Progress(x.status, false, false), x.inbox, SETUP);
  }

  // ----- The invariant

  /** Something is still to come that may make the receiver look or the sender push. */
  predicate Active(x: Link) { x.phase != Between || x.pending || x.looking }

  predicate Inv(h: Hop, limit: nat, x: Link) {
    && Toggles(x.inbox) && Toggled(Final(x))
    && (x.status == Running || x.status == Paused)
    && (x.phase != Between ==> x.status == Running)
    && (x.atHand ==> x.size > 0 && x.pending)
    && (x.size > 0 && !x.pending ==> x.size < limit && (x.phase == Pushed(false) || x.phase == Telling))
    && (x.phase == Telling ==> h == InputToOutput)
    && (x.late ==> !Active(x) && h != InputToOutput)
    && (!Active(x) ==> (Final(x).status == Paused <==> x.late))
  }

  lemma InitialInv(h: Hop, limit: nat)
    ensures Inv(h, limit, Initial())
  {
  }

  lemma SenderKeepsInv(h: Hop, limit: nat, x: Link, s: Step)
    requires limit >= 2 && Inv(h, limit, x) && (s == Push || s == Decide || s == Tell || s == Obey)
    ensures Inv(h, limit, Do(h, limit, x, s))
  {
    hide HandleAll, Dedupe, Posting, Toggles, Handle;
    if Enabled(x, s) {
      if s == Decide {
        PostingHandlesLast(Progress(x.status, false, false), x.inbox, Pause);
      } else if s == Obey {
        ObeyingKeepsFinal(x);
        TogglesRest(x.inbox);
      }
    }
  }

  lemma TogglesRest(q: seq<Event>)
    requires Toggles(q) && q != []
    ensures Toggles(q[1..])
  {
  }

  lemma ReceiverKeepsInv(h: Hop, limit: nat, x: Link, s: Step)
    requires limit >= 2 && Inv(h, limit, x) && (s == Peek || s == Release || s == Pop)
    ensures Inv(h, limit, Do(h, limit, x, s))
  {
    hide HandleAll, Dedupe, Posting, Toggles, Handle;
    if Enabled(x, s) && s == Release {
      PostingHandlesLast(Progress(x.status, false, false), x.inbox, Resume);
    }
  }

  lemma {:induction false} InvAlways(h: Hop, limit: nat, x: Link, steps: seq<Step>)
    requires limit >= 2 && Inv(h, limit, x)
    ensures Inv(h, limit, Play(h, limit, x, steps))
    decreases |steps|
  {
    hide Inv, Do;
    if steps != [] {
      var before, s := steps[..|steps| - 1], steps[|steps| - 1];
      InvAlways(h, limit, x, before);
      if s == Peek || s == Release || s == Pop {
        ReceiverKeepsInv(h, limit, Play(h, limit, x, before), s);
      } else {
        SenderKeepsInv(h, limit, Play(h, limit, x, before), s);
      }
    }
  }

  // ----- When the sender is stuck

  /** Nothing can happen any more. */
  ghost predicate Dead(x: Link) { forall s: Step :: !Enabled(x, s) }

  /** After every run: a sender whose queue leaves it paused has a look or a RESUME still to come
      if and only if its last PAUSE was not posted late; and the two stand still for good exactly
      when a late PAUSE has been handled.  From an input to an output no PAUSE is ever late. */
  lemma StuckIff(h: Hop, limit: nat, steps: seq<Step>)
    requires limit >= 2
    ensures var x := Play(h, limit, Initial(), steps);
            && (Final(x).status == Paused ==> (Active(x) <==> !x.late))
            && (Dead(x) <==> x.late && x.inbox == [])
            && (h == InputToOutput ==> !x.late && !Dead(x))
  {
    hide Play, HandleAll;
    InitialInv(h, limit);
    InvAlways(h, limit, Initial(), steps);
    var x := Play(h, limit, Initial(), steps);
    HandleNothing(Progress(x.status, false, false), SETUP);
    assert Dead(x) ==> !Enabled(x, Push) && !Enabled(x, Decide) && !Enabled(x, Tell) && !Enabled(x, Obey);
    assert Dead(x) ==> !Enabled(x, Peek) && !Enabled(x, Release);
  }

  /** A look settles that the sender goes on exactly if less than seven tenths of the limit are left;
      otherwise it changes nothing about it. */
  lemma LooksSettle(h: Hop, limit: nat, x: Link)
    requires limit >= 2 && Inv(h, limit, x) && x.looking
    ensures var y := Do(h, limit, x, Release);
            && (10 * x.size < 7 * limit ==> Final(y).status == Running)
            && (10 * x.size >= 7 * limit ==> y.inbox == x.inbox && Final(y) == Final(x))
  {
    hide HandleAll, Dedupe, Posting, Toggles;
    PostingHandlesLast(Progress(x.status, false, false), x.inbox, Resume);
  }

  // ----- Whether the receiver alone gets the sender going again

  predicate ByReceiver(steps: seq<Step>) {
    forall i :: 0 <= i < |steps| ==> steps[i] == Peek || steps[i] == Release || steps[i] == Pop
  }

  lemma {:induction false} PlayOn(h: Hop, limit: nat, x: Link, s: seq<Step>, t: seq<Step>)
    ensures Play(h, limit, x, s + t) == Play(h, limit, Play(h, limit, x, s), t)
    decreases |t|
  {
    if t == [] {
      assert s + t == s;
    } else {
      var n := |t| - 1;
      assert (s + t)[..|s + t| - 1] == s + t[..n];
      PlayOn(h, limit, x, s, t[..n]);
    }
  }

  lemma PlayOne(h: Hop, limit: nat, x: Link, s: Step)
    ensures Play(h, limit, x, [s]) == Do(h, limit, x, s)
  {
    assert [s][..0] == [];
  }

  /** One look and the record it takes. */
  lemma OneLook(h: Hop, limit: nat, x: Link)
    requires limit >= 2 && Inv(h, limit, x) && x.pending && !x.looking
    ensures var y := Play(h, limit, x, [Peek] + [Release] + [Pop]);
            && Inv(h, limit, y) && y.phase == x.phase && y.late == x.late && !y.looking
            && (y.pending <==> x.size > 0) && (x.size > 0 ==> y.size == x.size - 1)
  {
    hide Inv, Play, Posting;
    PlayOne(h, limit, x, Peek);
    ReceiverKeepsInv(h, limit, x, Peek);
    var y := Do(h, limit, x, Peek);
    PlayOne(h, limit, y, Release);
    PlayOn(h, limit, x, [Peek], [Release]);
    ReceiverKeepsInv(h, limit, y, Release);
    var z := Do(h, limit, y, Release);
    PlayOne(h, limit, z, Pop);
    PlayOn(h, limit, x, [Peek] + [Release], [Pop]);
    ReceiverKeepsInv(h, limit, z, Pop);
  }

  /** The looks that are coming empty the queue, and the last of them finds it empty. */
  lemma {:induction false} Drain(h: Hop, limit: nat, x: Link) returns (steps: seq<Step>)
    requires limit >= 2 && Inv(h, limit, x) && (x.pending || x.looking)
    ensures ByReceiver(steps)
    ensures var y := Play(h, limit, x, steps);
            Inv(h, limit, y) && y.phase == x.phase && y.late == x.late && !y.pending && !y.looking
    decreases x.size, x.looking
  {
    hide Inv, Play, Posting;
    if x.looking {
      steps := [Release];
      PlayOne(h, limit, x, Release);
      ReceiverKeepsInv(h, limit, x, Release);
    } else {
      steps := [Peek] + [Release] + [Pop];
      OneLook(h, limit, x);
    }
    var y := Play(h, limit, x, steps);
    if y.pending {
      var more := Drain(h, limit, y);
      PlayOn(h, limit, x, steps, more);
      steps := steps + more;
    }
  }

  /** With no look coming the receiver does nothing. */
  lemma {:induction false} NothingComes(h: Hop, limit: nat, x: Link, steps: seq<Step>)
    requires !x.pending && !x.looking && !x.atHand && ByReceiver(steps)
    ensures Play(h, limit, x, steps) == x
    decreases |steps|
  {
    if steps != [] {
      NothingComes(h, limit, x, steps[..|steps| - 1]);
    }
  }

  /** After every run that leaves the sender between two records: the receiver's steps alone lead to
      a queue of events that leaves the sender running if and only if its last PAUSE was not
      late. */
  lemma ReceiverReleasesIff(h: Hop, limit: nat, run: seq<Step>)
    requires limit >= 2 && Play(h, limit, Initial(), run).phase == Between
    ensures var x := Play(h, limit, Initial(), run);
            (exists steps :: ByReceiver(steps) && Final(Play(h, limit, x, steps)).status == Running) <==> !x.late
  {
    hide Play, HandleAll, ByReceiver;
    var x := Play(h, limit, Initial(), run);
    InitialInv(h, limit);
    InvAlways(h, limit, Initial(), run);
    if x.late {
      forall steps | ByReceiver(steps)
        ensures Final(Play(h, limit, x, steps)).status == Paused
      {
        NothingComes(h, limit, x, steps);
      }
    } else if Active(x) {
      var steps := Drain(h, limit, x);
      assert Final(Play(h, limit, x, steps)).status == Running;
    } else {
      NothingAtAll(h, limit, x);
      assert Final(Play(h, limit, x, [])).status == Running;
    }
  }

  lemma NothingAtAll(h: Hop, limit: nat, x: Link)
    ensures Play(h, limit, x, []) == x && ByReceiver([])
  {
  }

  // ----- A run that strands the sender

  lemma {:induction false} Fill(h: Hop, limit: nat, k: nat) returns (steps: seq<Step>)
    requires h != InputToOutput && k < limit
    ensures Play(h, limit, Initial(), steps) == Initial().(size := k, pending := k > 0)
    decreases k
  {
    if k == 0 {
      steps := [];
    } else {
      var before := Fill(h, limit, k - 1);
      var x := Initial().(size := k - 1, pending := k - 1 > 0);
      PlayOne(h, limit, x, Push);
      var y := Do(h, limit, x, Push);
      PlayOne(h, limit, y, Decide);
      PlayOn(h, limit, x, [Push], [Decide]);
      PlayOn(h, limit, Initial(), before, [Push] + [Decide]);
      steps := before + ([Push] + [Decide]);
    }
  }

  /** A sender that has posted a late PAUSE and goes on to handle its events stops for good. */
  lemma {:induction false} ObeyAll(h: Hop, limit: nat, x: Link) returns (steps: seq<Step>)
    requires limit >= 2 && Inv(h, limit, x) && x.late
    ensures Dead(Play(h, limit, x, steps))
    decreases |x.inbox|
  {
    hide HandleAll, Play, Inv;
    if x.inbox == [] {
      steps := [];
      NothingAtAll(h, limit, x);
      LateIsDead(h, limit, x);
    } else {
      LateIsQuiet(h, limit, x);
      SenderKeepsInv(h, limit, x, Obey);
      var y := Do(h, limit, x, Obey);
      PlayOne(h, limit, x, Obey);
      var more := ObeyAll(h, limit, y);
      PlayOn(h, limit, x, [Obey], more);
      steps := [Obey] + more;
    }
  }

  lemma LateIsQuiet(h: Hop, limit: nat, x: Link)
    requires Inv(h, limit, x) && x.late
    ensures !Active(x)
  {
  }

  lemma LateIsDead(h: Hop, limit: nat, x: Link)
    requires Inv(h, limit, x) && x.late && x.inbox == []
    ensures Dead(x)
  {
    HandleNothing(Progress(x.status, false, false), SETUP);
  }

  /** For every limit: the queue is filled, emptied before the sender gets to post its PAUSE, and
      the sender stays paused in front of an empty queue. */
  lemma Stranded(h: Hop, limit: nat) returns (run: seq<Step>)
    requires h != InputToOutput && limit >= 2
    ensures var x := Play(h, limit, Initial(), run); Dead(x) && x.size == 0 && x.status == Paused
  {
    hide Play, Inv, Posting, HandleAll;
    var fill := Fill(h, limit, limit - 1);
    var x := Play(h, limit, Initial(), fill);
    var y := Do(h, limit, x, Push);
    PlayOne(h, limit, x, Push);
    PlayOn(h, limit, Initial(), fill, [Push]);
    InitialInv(h, limit);
    InvAlways(h, limit, Initial(), fill + [Push]);
    var drain := Drain(h, limit, y);
    var z := Play(h, limit, y, drain);
    PlayOn(h, limit, Initial(), fill + [Push], drain);
    SenderKeepsInv(h, limit, z, Decide);
    PlayOne(h, limit, z, Decide);
    PlayOn(h, limit, Initial(), fill + [Push] + drain, [Decide]);
    PushedRuns(h, limit, z);
    var w := Do(h, limit, z, Decide);
    var obey := ObeyAll(h, limit, w);
    run := fill + [Push] + drain + [Decide] + obey;
    PlayOn(h, limit, Initial(), fill + [Push] + drain + [Decide], obey);
    InvAlways(h, limit, Initial(), run);
    DeadMeans(h, limit, Play(h, limit, Initial(), run));
  }

  lemma PushedRuns(h: Hop, limit: nat, x: Link)
    requires Inv(h, limit, x) && x.phase != Between
    ensures x.status == Running
  {
  }

  lemma DeadMeans(h: Hop, limit: nat, x: Link)
    requires Inv(h, limit, x) && Dead(x)
    ensures x.size == 0 && x.status == Paused
  {
    assert !Enabled(x, Push) && !Enabled(x, Decide) && !Enabled(x, Tell);
    assert !Enabled(x, Peek) && !Enabled(x, Release);
  }

  /** With room for one record the first push is the end: the receiver is never told. */
  lemma LimitOneIsTooLow(h: Hop)
    ensures var x := Play(h, 1, Initial(), [Push, Decide, Tell, Obey]); Dead(x) && x.size == 1
  {
    hide Play, Dedupe;
    var x := Do(h, 1, Initial(), Push);
    var y := Do(h, 1, x, Decide);
    AloneInTheQueue([] + [Event(0, Pause, 0, 1)]);
    assert [Push, Decide, Tell, Obey] == [Push] + [Decide] + [Tell] + [Obey];
    PlayOne(h, 1, Initial(), Push);
    PlayOne(h, 1, x, Decide);
    PlayOne(h, 1, y, Tell);
    PlayOne(h, 1, Do(h, 1, y, Tell), Obey);
    PlayOn(h, 1, Initial(), [Push], [Decide]);
    PlayOn(h, 1, Initial(), [Push] + [Decide], [Tell]);
    PlayOn(h, 1, Initial(), [Push] + [Decide] + [Tell], [Obey]);
  }

  lemma AloneInTheQueue(q: seq<Event>)
    requires |q| == 1
    ensures Dedupe(q) == q
  {
    assert Drop(q) == 0;
  }
}
