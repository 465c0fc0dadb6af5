/**
 A job as the program keeps it, a linked event queue, a counter and a busy flag, does to the job of
 the engine's state machine what the engine's steps say.
 */
module LinkedJobs {
  import opened DList
  import opened EventQueue
  import opened Scheduler
  import opened Engine

  class LinkedJob {
    const queue: JobQueue
    var busy: bool

    constructor ()
      ensures Valid() && View() == Job(false, [], 0)
    {
      queue := new JobQueue();
      busy := false;
    }

    ghost predicate Valid()
      reads this, queue, queue.events, queue.events.nodes
    {
      queue.Valid()
    }

    ghost function View(): (j: Job)
      reads this, queue, queue.events
    {
      Job(busy, queue.Contents(), queue.eventCnt)
    }

    /** The engine's `Enqueue` on this job; a worker is signalled exactly when the event is kept. */
    method Add(n: Node<Event>) returns (signalled: bool)
      requires Valid() && n !in queue.events.nodes && n.Unlinked()
      modifies queue, queue.events, queue.events.nodes, n
      ensures Valid()
      ensures var was := old(View());
              var full := was.events + [n.value];
              var kept := Dedupe(full);
              && View() == Job(was.busy, kept, was.cnt + 1 - (|full| - |kept|))
              && (signalled <==> kept == full)
    {
      ghost var full := View().events + [n.value];
      signalled := queue.ToJobQueue(n);
      KeptIff(full);
    }

    /** A worker takes the head event and the job. */
    method Take() returns (n: Node<Event>)
      requires Valid() && !busy && View().events != []
      modifies this, queue, queue.events, queue.events.nodes
      ensures Valid() && n.value == old(View()).events[0]
      ensures View() == Popped(old(View())).(busy := true)
    {
      n := queue.PickHead();
      busy := true;
    }

    method Release()
      requires Valid()
      modifies this
      ensures Valid() && View() == old(View()).(busy := false)
    {
      busy := false;
    }

    method Cancel(n: Node<Event>, ghost k: nat)
      requires Valid() && k < |queue.events.nodes| && queue.events.nodes[k] == n
      modifies queue, queue.events, queue.events.nodes
      ensures Valid()
      ensures View() == Job(old(View()).busy, Without(old(View()).events, k), old(View()).cnt - 1)
    {
      queue.RemoveEvent(n, k);
    }
  }
}
