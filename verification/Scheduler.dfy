/**
 Priority groups of jobs and the choice of the next one (`src/core/ctx.c`).

 `Pick` is the meaning of one scheduling call on values.  `Context` holds the group list and the
 job table and updates them in place; its methods are proved against `Pick`.
 */
module Scheduler {
  import opened EventQueue
  import opened Options

  type JobId = nat

  datatype Job = Job(busy: bool, events: seq<Event>, cnt: int)

  /** `last` is the position in `jobs` the previous visit started from, -1 before the first. */
  datatype Group = Group(priority: int, last: int, jobs: seq<JobId>)

  type Table = map<JobId, Job>

  predicate Eligible(jobs: Table, j: JobId) {
    j in jobs && !jobs[j].busy && jobs[j].events != []
  }

  predicate ProperGroup(g: Group) {
    g.jobs != [] && -1 <= g.last < |g.jobs|
  }

  predicate Proper(groups: seq<Group>) {
    forall i :: 0 <= i < |groups| ==> ProperGroup(groups[i])
  }

  /** Strictly increasing priorities, hence one group per priority. */
  predicate Sorted(groups: seq<Group>) {
    forall i, j :: 0 <= i < j < |groups| ==> groups[i].priority < groups[j].priority
  }

  // ----- One call, on values

  /** Where the next visit of the group starts. */
  function StartOf(g: Group): (s: nat)
    requires ProperGroup(g)
    ensures s < |g.jobs|
  {
    if g.last == |g.jobs| - 1 then 0 else g.last + 1
  }

  /** The jobs of a group in the order one visit looks at them. */
  function Rotation(g: Group): (r: seq<JobId>)
    requires ProperGroup(g)
    ensures |r| == |g.jobs|
  {
    g.jobs[StartOf(g)..] + g.jobs[..StartOf(g)]
  }

  /** Position of the first eligible job, or the length when there is none. */
  function Find(order: seq<JobId>, jobs: Table): (k: nat)
    ensures k <= |order|
    ensures forall i :: 0 <= i < k ==> !Eligible(jobs, order[i])
    ensures k < |order| ==> Eligible(jobs, order[k])
    decreases |order|
  {
    if order == [] then 0
    else if Eligible(jobs, order[0]) then 0
    else Find(order[1..], jobs) + 1
  }

  datatype Choice = NoJob | Chosen(job: JobId, group: nat)

  function Pick(groups: seq<Group>, jobs: Table): (c: Choice)
    requires Proper(groups)
    ensures c.Chosen? ==> c.group < |groups|
    decreases |groups|
  {
    if groups == [] then NoJob
    else
      var order := Rotation(groups[0]);
      var k := Find(order, jobs);
      if k < |order| then Chosen(order[k], 0)
      else Shift(Pick(groups[1..], jobs), 1)
  }

  /** A choice among the groups from `g` on, as a choice among all. */
  function Shift(c: Choice, g: nat): (r: Choice) {
    match c
    case NoJob => NoJob
    case Chosen(j, h) => Chosen(j, h + g)
  }

  /** How many groups, from the front, a call visits. */
  function Visited(groups: seq<Group>, jobs: Table): (n: nat)
    requires Proper(groups)
    ensures n <= |groups|
  {
    match Pick(groups, jobs)
    case NoJob => |groups|
    case Chosen(_, g) => g + 1
  }

  /** The first `n` groups moved their starting point on by one. */
  function Advance(groups: seq<Group>, n: nat): (r: seq<Group>)
    requires Proper(groups) && n <= |groups|
    ensures |r| == |groups| && Proper(r)
    ensures forall i :: 0 <= i < |groups| ==>
      r[i] == if i < n then groups[i].(last := StartOf(groups[i])) else groups[i]
  {
    seq(|groups|, i requires 0 <= i < |groups| =>
      if i < n then groups[i].(last := StartOf(groups[i])) else groups[i])
  }

  function Popped(job: Job): (r: Job)
    requires job.events != []
  {
    Job(job.busy, job.events[1..], job.cnt - 1)
  }

  // ----- What a call guarantees

  lemma RotationMembers(g: Group, j: JobId)
    requires ProperGroup(g)
    ensures j in Rotation(g) <==> j in g.jobs
  {
    assert g.jobs == g.jobs[..StartOf(g)] + g.jobs[StartOf(g)..];
  }

  ghost predicate InSomeGroup(groups: seq<Group>, j: JobId) {
    exists g :: 0 <= g < |groups| && j in groups[g].jobs
  }

  /** A call finds nothing only if no job of any group is eligible; otherwise it chooses an
      eligible job, and every group in front of the chosen one has none. */
  lemma {:induction false} PickCorrect(groups: seq<Group>, jobs: Table)
    requires Proper(groups)
    ensures Pick(groups, jobs).NoJob? <==>
      forall g, j :: 0 <= g < |groups| && j in groups[g].jobs ==> !Eligible(jobs, j)
    ensures Pick(groups, jobs).Chosen? ==>
      var Chosen(j, g) := Pick(groups, jobs);
      && j in groups[g].jobs && Eligible(jobs, j)
      && forall h, i :: 0 <= h < g && i in groups[h].jobs ==> !Eligible(jobs, i)
    decreases |groups|
  {
    if groups != [] {
      var order := Rotation(groups[0]);
      var k := Find(order, jobs);
      forall j ensures j in order <==> j in groups[0].jobs { RotationMembers(groups[0], j); }
      if k == |order| {
        assert forall j :: j in order ==> !Eligible(jobs, j);
        PickCorrect(groups[1..], jobs);
        forall h, i | 0 <= h < Visited(groups, jobs) - 1 && i in groups[h].jobs
          ensures !Eligible(jobs, i)
        {
          if h > 0 { assert groups[h] == groups[1..][h - 1]; }
        }
        if Pick(groups, jobs).NoJob? {
          forall g, j | 0 <= g < |groups| && j in groups[g].jobs
            ensures !Eligible(jobs, j)
          {
            if g > 0 { assert groups[g] == groups[1..][g - 1]; }
          }
        }
      } else {
        assert order[k] in order;
      }
    }
  }

  /** Strict priority: the chosen job's group has the smallest priority number of all groups
      that hold an eligible job. */
  lemma PickIsMostUrgent(groups: seq<Group>, jobs: Table, h: nat, i: JobId)
    requires Proper(groups) && Sorted(groups)
    requires h < |groups| && i in groups[h].jobs && Eligible(jobs, i)
    ensures Pick(groups, jobs).Chosen?
    ensures groups[Pick(groups, jobs).group].priority <= groups[h].priority
  {
    PickCorrect(groups, jobs);
  }

  /** All jobs of all groups in the order one call looks at them. */
  function ScanOrder(groups: seq<Group>): (r: seq<JobId>)
    requires Proper(groups)
    decreases |groups|
  {
    if groups == [] then [] else Rotation(groups[0]) + ScanOrder(groups[1..])
  }

  lemma {:induction false} FindAppend(a: seq<JobId>, b: seq<JobId>, jobs: Table)
    ensures Find(a + b, jobs) == if Find(a, jobs) < |a| then Find(a, jobs) else |a| + Find(b, jobs)
    decreases |a|
  {
    if a == [] {
      assert a + b == b;
    } else {
      assert (a + b)[1..] == a[1..] + b;
      FindAppend(a[1..], b, jobs);
    }
  }

  /** Group by group or in one sweep over the scan order: the same choice. */
  lemma {:induction false} PickIsFirstInScanOrder(groups: seq<Group>, jobs: Table)
    requires Proper(groups)
    ensures var order := ScanOrder(groups);
            var k := Find(order, jobs);
            && (Pick(groups, jobs).NoJob? <==> k == |order|)
            && (k < |order| ==> Pick(groups, jobs).job == order[k])
    decreases |groups|
  {
    if groups != [] {
      PickIsFirstInScanOrder(groups[1..], jobs);
      FindAppend(Rotation(groups[0]), ScanOrder(groups[1..]), jobs);
    }
  }

  lemma {:induction false} ScanOrderCovers(groups: seq<Group>, j: JobId)
    requires Proper(groups)
    ensures j in ScanOrder(groups) <==> InSomeGroup(groups, j)
    decreases |groups|
  {
    if groups != [] {
      RotationMembers(groups[0], j);
      ScanOrderCovers(groups[1..], j);
      if InSomeGroup(groups[1..], j) {
        var g :| 0 <= g < |groups[1..]| && j in groups[1..][g].jobs;
        assert j in groups[g + 1].jobs;
      }
      if InSomeGroup(groups, j) {
        var g :| 0 <= g < |groups| && j in groups[g].jobs;
        if g > 0 { assert j in groups[1..][g - 1].jobs; }
      }
    }
  }

  // ----- Bounded waiting, over every run of calls

  /** Group list before call `k`, when the calls see the job tables `seen` one after the other.
      Between calls the table may change in any way. */
  function GroupsAt(groups: seq<Group>, seen: seq<Table>, k: nat): (r: seq<Group>)
    requires Proper(groups) && k <= |seen|
    ensures Proper(r) && |r| == |groups|
    decreases k
  {
    if k == 0 then groups
    else
      var before := GroupsAt(groups, seen, k - 1);
      Advance(before, Visited(before, seen[k - 1]))
  }

  /** The number of calls among the first `k` that visit group `g`. */
  function Visits(groups: seq<Group>, seen: seq<Table>, g: nat, k: nat): (n: nat)
    requires Proper(groups) && k <= |seen|
    decreases k
  {
    if k == 0 then 0
    else Visits(groups, seen, g, k - 1)
         + if g < Visited(GroupsAt(groups, seen, k - 1), seen[k - 1]) then 1 else 0
  }

  /** How many more visits until the scan of a group with `n` jobs starts at position `i`. */
  function Distance(g: Group, i: nat): (d: nat)
    requires ProperGroup(g) && i < |g.jobs|
    ensures d < |g.jobs|
  {
    if i >= StartOf(g) then i - StartOf(g) else i + |g.jobs| - StartOf(g)
  }

  /** A visit looks at the jobs in the order of their distance from its start. */
  lemma RotationAt(g: Group, i: nat)
    requires ProperGroup(g) && i < |g.jobs|
    ensures Rotation(g)[Distance(g, i)] == g.jobs[i]
  {
  }

  /** Within its group the chosen job is the nearest eligible one, going round from where the visit
      starts. */
  lemma {:induction false} PickIsNearest(groups: seq<Group>, jobs: Table, i: nat) returns (k: nat)
    requires Proper(groups) && Pick(groups, jobs).Chosen?
    requires var g := groups[Pick(groups, jobs).group]; i < |g.jobs| && Eligible(jobs, g.jobs[i])
    ensures var Chosen(j, n) := Pick(groups, jobs);
            k < |groups[n].jobs| && groups[n].jobs[k] == j && Distance(groups[n], k) <= Distance(groups[n], i)
    decreases |groups|
  {
    var g := groups[0];
    var order := Rotation(g);
    var at := Find(order, jobs);
    if at < |order| {
      RotationAt(g, i);
      var s := StartOf(g);
      k := if s + at < |order| then s + at else s + at - |order|;
      RotationAt(g, k);
    } else {
      k := PickIsNearest(groups[1..], jobs, i);
    }
  }

  lemma {:induction false} ChosenWhenFirst(groups: seq<Group>, jobs: Table, g: nat)
    requires Proper(groups) && g < Visited(groups, jobs)
    requires Eligible(jobs, groups[g].jobs[StartOf(groups[g])])
    ensures Pick(groups, jobs) == Chosen(groups[g].jobs[StartOf(groups[g])], g)
    decreases g
  {
    if g == 0 {
      assert Rotation(groups[0])[0] == groups[0].jobs[StartOf(groups[0])];
    } else {
      ChosenWhenFirst(groups[1..], jobs, g - 1);
    }
  }

  lemma DistanceShrinks(g: Group, i: nat)
    requires ProperGroup(g) && i < |g.jobs| && StartOf(g) != i
    ensures Distance(g.(last := StartOf(g)), i) == Distance(g, i) - 1
  {
  }

  /** One call that passes over an eligible job brings the next start one closer to it, if the
      call visits the job's group at all. */
  lemma PassedOver(groups: seq<Group>, jobs: Table, g: nat, i: nat)
    requires Proper(groups) && g < |groups| && i < |groups[g].jobs|
    requires Eligible(jobs, groups[g].jobs[i])
    requires Pick(groups, jobs) != Chosen(groups[g].jobs[i], g)
    ensures var n := Visited(groups, jobs);
            var after := Advance(groups, n)[g];
            && after.jobs == groups[g].jobs
            && Distance(after, i) == Distance(groups[g], i) - if g < n then 1 else 0
  {
    if g < Visited(groups, jobs) {
      if StartOf(groups[g]) == i {
        ChosenWhenFirst(groups, jobs, g);
      }
      DistanceShrinks(groups[g], i);
    }
  }

  /** The first `k` calls all find job `i` of group `g` eligible and choose another one. */
  ghost predicate Missed(groups: seq<Group>, seen: seq<Table>, g: nat, i: nat, k: nat)
    requires Proper(groups) && g < |groups| && i < |groups[g].jobs| && k <= |seen|
    decreases k
  {
    k == 0 || (&& Missed(groups, seen, g, i, k - 1)
               && Eligible(seen[k - 1], groups[g].jobs[i])
               && Pick(GroupsAt(groups, seen, k - 1), seen[k - 1]) != Chosen(groups[g].jobs[i], g))
  }

  lemma {:induction false} Approaches(groups: seq<Group>, seen: seq<Table>, g: nat, i: nat, k: nat)
    requires Proper(groups) && g < |groups| && i < |groups[g].jobs| && k <= |seen|
    requires Missed(groups, seen, g, i, k)
    ensures GroupsAt(groups, seen, k)[g].jobs == groups[g].jobs
    ensures Distance(GroupsAt(groups, seen, k)[g], i) ==
            Distance(groups[g], i) - Visits(groups, seen, g, k)
    decreases k
  {
    if k > 0 {
      Approaches(groups, seen, g, i, k - 1);
      PassedOver(GroupsAt(groups, seen, k - 1), seen[k - 1], g, i);
    }
  }

  ghost predicate ChosenAt(groups: seq<Group>, seen: seq<Table>, g: nat, i: nat, m: nat)
    requires Proper(groups) && g < |groups| && i < |groups[g].jobs| && m < |seen|
  {
    Pick(GroupsAt(groups, seen, m), seen[m]) == Chosen(groups[g].jobs[i], g)
  }

  lemma {:induction false} MissedIfNeverChosen(groups: seq<Group>, seen: seq<Table>, g: nat, i: nat, k: nat)
    requires Proper(groups) && g < |groups| && i < |groups[g].jobs| && k <= |seen|
    requires forall m :: 0 <= m < |seen| ==> Eligible(seen[m], groups[g].jobs[i])
    requires forall m :: 0 <= m < |seen| ==> !ChosenAt(groups, seen, g, i, m)
    ensures Missed(groups, seen, g, i, k)
    decreases k
  {
    if k > 0 {
      MissedIfNeverChosen(groups, seen, g, i, k - 1);
      assert !ChosenAt(groups, seen, g, i, k - 1);
    }
  }

  /** A job that is eligible at every call is chosen by the time its group has been visited as
      often as it has jobs, whatever the other jobs do in between. */
  lemma BoundedWaiting(groups: seq<Group>, seen: seq<Table>, g: nat, i: nat)
    requires Proper(groups) && g < |groups| && i < |groups[g].jobs|
    requires forall m :: 0 <= m < |seen| ==> Eligible(seen[m], groups[g].jobs[i])
    requires Visits(groups, seen, g, |seen|) >= |groups[g].jobs|
    ensures exists m :: 0 <= m < |seen| && ChosenAt(groups, seen, g, i, m)
  {
    if forall m :: 0 <= m < |seen| ==> !ChosenAt(groups, seen, g, i, m) {
      MissedIfNeverChosen(groups, seen, g, i, |seen|);
      Approaches(groups, seen, g, i, |seen|);
      assert false;
    }
  }

  // ----- The context, updated in place

  /** Sorted non-empty groups, the jobs of the table exactly those of the groups, and every
      counter equal to its queue's length. */
  ghost predicate Consistent(groups: seq<Group>, jobs: Table) {
    && Proper(groups) && Sorted(groups)
    && (forall g, j :: 0 <= g < |groups| && j in groups[g].jobs ==> j in jobs)
    && (forall j :: j in jobs ==> InSomeGroup(groups, j))
    && (forall j :: j in jobs ==> jobs[j].cnt == |jobs[j].events|)
  }

  lemma ConsistentTurn(groups: seq<Group>, jobs: Table, g: nat)
    requires Consistent(groups, jobs) && g < |groups|
    ensures Consistent(groups[g := groups[g].(last := StartOf(groups[g]))], jobs)
  {
    var r := groups[g := groups[g].(last := StartOf(groups[g]))];
    forall j | j in jobs ensures InSomeGroup(r, j) {
      var h :| 0 <= h < |groups| && j in groups[h].jobs;
      assert j in r[h].jobs;
    }
  }

  lemma AdvanceOne(groups: seq<Group>, g: nat)
    requires Proper(groups) && g < |groups|
    ensures var before := Advance(groups, g);
            before[g] == groups[g]
            && Advance(groups, g + 1) == before[g := before[g].(last := StartOf(before[g]))]
  {
  }

  lemma ConsistentPop(groups: seq<Group>, jobs: Table, j: JobId)
    requires Consistent(groups, jobs) && Eligible(jobs, j)
    ensures Consistent(groups, jobs[j := Popped(jobs[j])])
  {
  }

  lemma PickFrom(groups: seq<Group>, jobs: Table, g: nat)
    requires Proper(groups) && g < |groups|
    ensures var order := Rotation(groups[g]);
            var k := Find(order, jobs);
            Pick(groups[g..], jobs) ==
            if k < |order| then Chosen(order[k], 0) else Shift(Pick(groups[g + 1..], jobs), 1)
  {
    assert groups[g..][1..] == groups[g + 1..];
  }

  lemma PickNothing(jobs: Table)
    ensures Pick([], jobs) == NoJob
  {
  }

  lemma ConsistentIsProper(groups: seq<Group>, jobs: Table)
    requires Consistent(groups, jobs)
    ensures Proper(groups)
  {
  }

  lemma FindIs(order: seq<JobId>, jobs: Table, k: nat)
    requires k <= |order|
    requires forall i :: 0 <= i < k ==> !Eligible(jobs, order[i])
    requires k < |order| ==> Eligible(jobs, order[k])
    ensures Find(order, jobs) == k
  {
  }

  /** Every member is a job below `k` of the group's priority, listed once, in creation order. */
  ghost predicate Members(g: Group, priorities: seq<int>, k: nat)
    requires k <= |priorities|
  {
    && (forall a, b :: 0 <= a < b < |g.jobs| ==> g.jobs[a] < g.jobs[b])
    && (forall a :: 0 <= a < |g.jobs| ==> g.jobs[a] < k && priorities[g.jobs[a]] == g.priority)
  }

  /** Jobs 0..k-1 stand in the groups: job `j` in the group of priority `priorities[j]` and in
      no other. */
  ghost predicate Placed(groups: seq<Group>, priorities: seq<int>, k: nat) {
    && k <= |priorities|
    && Sorted(groups)
    && (forall g :: 0 <= g < |groups| ==> Members(groups[g], priorities, k))
    && (forall j :: 0 <= j < k ==> InSomeGroup(groups, j))
  }

  /** `r` is `groups`, or `groups` with one new empty group. */
  ghost predicate Extends(groups: seq<Group>, r: seq<Group>, i: nat, priority: int) {
    && i < |r|
    && r[i].priority == priority
    && (r == groups || (i <= |groups| && r == groups[..i] + [Group(priority, -1, [])] + groups[i..]))
  }

  lemma ExtendKeeps(groups: seq<Group>, r: seq<Group>, i: nat, priority: int, priorities: seq<int>, k: nat)
    requires Placed(groups, priorities, k) && Extends(groups, r, i, priority) && Sorted(r)
    ensures Placed(r, priorities, k)
  {
    forall j | 0 <= j < k ensures InSomeGroup(r, j) {
      assert InSomeGroup(groups, j);
      var g :| 0 <= g < |groups| && j in groups[g].jobs;
      assert j in r[if r == groups || g < i then g else g + 1].jobs;
    }
  }

  lemma PlaceOne(groups: seq<Group>, i: nat, priorities: seq<int>, k: nat)
    requires Placed(groups, priorities, k) && k < |priorities| && i < |groups|
    requires groups[i].priority == priorities[k]
    ensures Placed(groups[i := groups[i].(jobs := groups[i].jobs + [k])], priorities, k + 1)
  {
    var r := groups[i := groups[i].(jobs := groups[i].jobs + [k])];
    forall g | 0 <= g < |r| ensures Members(r[g], priorities, k + 1) {
      assert Members(groups[g], priorities, k);
    }
    forall j | 0 <= j < k + 1 ensures InSomeGroup(r, j) {
      if j == k {
        assert k in r[i].jobs;
      } else {
        assert InSomeGroup(groups, j);
        var g :| 0 <= g < |groups| && j in groups[g].jobs;
        assert j in r[g].jobs;
      }
    }
  }

  lemma NothingPlaced(priorities: seq<int>)
    ensures Placed([], priorities, 0) && Proper([])
  {
  }

  lemma PlacedIsSorted(groups: seq<Group>, priorities: seq<int>, k: nat)
    requires Placed(groups, priorities, k)
    ensures Sorted(groups)
  {
  }

  /** A new group is proper as soon as it has its first job. */
  lemma ExtendProper(groups: seq<Group>, r: seq<Group>, i: nat, priority: int, k: nat)
    requires Proper(groups) && Extends(groups, r, i, priority)
    ensures Proper(r[i := r[i].(jobs := r[i].jobs + [k])])
  {
  }

  lemma PlacedIsConsistent(groups: seq<Group>, priorities: seq<int>, k: nat, jobs: Table)
    requires Placed(groups, priorities, k) && Proper(groups)
    requires forall j: nat :: j in jobs <==> j < k
    requires forall j :: j in jobs ==> jobs[j] == Job(false, [], 0)
    ensures Consistent(groups, jobs)
  {
    forall g, j | 0 <= g < |groups| && j in groups[g].jobs
      ensures j in jobs
    {
      assert Members(groups[g], priorities, k);
    }
  }

  class Context {
    var groups: seq<Group>
    var jobs: Table

    ghost predicate Valid()
      reads this
    {
      Consistent(groups, jobs)
    }

    constructor ()
      ensures groups == [] && jobs == map[]
    {
      groups, jobs := [], map[];
    }

    /** The group of the given priority, created in its place in the order if there is none. */
    method GetJobGroup(priority: int) returns (i: nat)
      requires Sorted(groups) && priority > 0
      modifies this`groups
      ensures Sorted(groups) && Extends(old(groups), groups, i, priority)
    {
      i := 0;
      while i < |groups|
        invariant i <= |groups|
        invariant forall g :: 0 <= g < i ==> groups[g].priority != priority
      {
        if groups[i].priority == priority {
          return;
        }
        i := i + 1;
      }
      i := 0;
      while i < |groups| && groups[i].priority < priority
        invariant i <= |groups|
        invariant forall g :: 0 <= g < i ==> groups[g].priority < priority
      {
        i := i + 1;
      }
      groups := groups[..i] + [Group(priority, -1, [])] + groups[i..];
    }

    /** One job per module, in the group of the module's priority; the core module's job joins
        the group used last. */
    method InitJobs(priorities: seq<int>) returns (core: Option<JobId>)
      requires forall p :: p in priorities ==> p > 0
      modifies this
      ensures Valid()
      ensures priorities == [] ==> core == None && groups == [] && jobs == map[]
      ensures priorities != [] ==>
        var n := |priorities|;
        && core == Some(n)
        && (forall j: nat :: j in jobs <==> j <= n)
        && Placed(groups, priorities + [priorities[n - 1]], n + 1)
      ensures forall j :: j in jobs ==> jobs[j] == Job(false, [], 0)
    {
      hide Placed, Proper, Sorted, Consistent;
      groups, jobs, core := [], map[], None;
      var n := |priorities|;
      ghost var all := if n == 0 then [] else priorities + [priorities[n - 1]];
      NothingPlaced(all);
      var g := 0;
      for k := 0 to n
        invariant Placed(groups, all, k) && Proper(groups)
        invariant k > 0 ==> g < |groups| && groups[g].priority == priorities[k - 1]
        invariant k == 0 ==> groups == []
        invariant forall j: nat :: j in jobs <==> j < k
        invariant forall j :: j in jobs ==> jobs[j] == Job(false, [], 0)
      {
        ghost var before := groups;
        assert priorities[k] in priorities;
        PlacedIsSorted(groups, all, k);
        g := GetJobGroup(priorities[k]);
        ExtendKeeps(before, groups, g, priorities[k], all, k);
        PlaceOne(groups, g, all, k);
        ExtendProper(before, groups, g, priorities[k], k);
        groups := groups[g := groups[g].(jobs := groups[g].jobs + [k])];
        jobs := jobs[k := Job(false, [], 0)];
      }
      if n > 0 {
        PlaceOne(groups, g, all, n);
        ExtendProper(groups, groups, g, priorities[n - 1], n);
        groups := groups[g := groups[g].(jobs := groups[g].jobs + [n])];
        jobs := jobs[n := Job(false, [], 0)];
        core := Some(n);
      }
      PlacedIsConsistent(groups, all, if n == 0 then 0 else n + 1, jobs);
    }

    /** Looks at the jobs of a group in a circle, beginning at `start`. */
    method ScanGroup(members: seq<JobId>, start: nat) returns (found: Option<JobId>)
      requires start < |members|
      requires forall j :: j in members ==> j in jobs
      ensures var order := members[start..] + members[..start];
              var k := Find(order, jobs);
              found == if k == |order| then None else Some(order[k])
    {
      ghost var order := members[start..] + members[..start];
      var n := |members|;
      var at := start;
      ghost var looked := 0;
      while true
        invariant at < n && looked < n
        invariant at == if start + looked < n then start + looked else start + looked - n
        invariant forall i :: 0 <= i < looked ==> !Eligible(jobs, order[i])
        decreases n - looked
      {
        var j := members[at];
        assert j == order[looked];
        if !jobs[j].busy && jobs[j].events != [] {
          FindIs(order, jobs, looked);
          return Some(j);
        }
        looked := looked + 1;
        at := if at == n - 1 then 0 else at + 1;
        if at == start {
          break;
        }
      }
      FindIs(order, jobs, n);
      found := None;
    }

    /** One visit of group `g`: its starting point moves on, and the first eligible job of the
        rotation, if there is one, loses its head event. */
    method VisitGroup(g: nat) returns (found: Option<(JobId, Event)>)
      requires Valid() && g < |groups|
      modifies this
      ensures Valid()
      ensures groups == old(groups)[g := old(groups)[g].(last := StartOf(old(groups)[g]))]
      ensures var order := Rotation(old(groups)[g]);
              var k := Find(order, old(jobs));
              && found == (if k == |order| then None else Some((order[k], old(jobs)[order[k]].events[0])))
              && jobs == (if k == |order| then old(jobs) else old(jobs)[order[k] := Popped(old(jobs)[order[k]])])
    {
      var group := groups[g];
      var start: nat;
      if group.last == -1 {
        start := 0;
      } else if group.last == |group.jobs| - 1 {
        start := 0;
      } else {
        start := group.last + 1;
      }
      assert start == StartOf(group);
      var job := ScanGroup(group.jobs, start);
      ConsistentTurn(groups, jobs, g);
      groups := groups[g := group.(last := start)];
      found := None;
      if job.Some? {
        ConsistentPop(groups, jobs, job.value);
        found := Some((job.value, jobs[job.value].events[0]));
        jobs := jobs[job.value := Popped(jobs[job.value])];
      }
    }

    /** The next event to work on: what `Pick` chooses, taken off the head of its queue, and
        every visited group's starting point moved on by one. */
    method NextJob() returns (r: Option<(JobId, Event)>)
      requires Valid()
      modifies this
      ensures Valid()
      ensures groups == Advance(old(groups), Visited(old(groups), old(jobs)))
      ensures match Pick(old(groups), old(jobs))
              case NoJob => r == None && jobs == old(jobs)
              case Chosen(j, _) =>
                && Eligible(old(jobs), j)
                && r == Some((j, old(jobs)[j].events[0]))
                && jobs == old(jobs)[j := Popped(old(jobs)[j])]
    {
      hide Pick, Find, Rotation, Consistent, Sorted;
      ghost var gs, js := groups, jobs;
      ConsistentIsProper(gs, js);
      assert gs[0..] == gs;
      PickNothing(js);
      var g := 0;
      r := None;
      while g < |groups|
        invariant Valid() && jobs == js && r == None
        invariant g <= |groups| == |gs|
        invariant groups == Advance(gs, g)
        invariant Pick(gs, js) == Shift(Pick(gs[g..], js), g)
      {
        PickFrom(gs, js, g);
        AdvanceOne(gs, g);
        r := VisitGroup(g);
        if r.Some? {
          return;
        }
        g := g + 1;
      }
    }

    method HasJobs() returns (b: bool)
      requires Valid()
      ensures b <==> exists j :: j in jobs && Eligible(jobs, j)
      ensures b <==> Pick(groups, jobs).Chosen?
    {
      PickCorrect(groups, jobs);
      for g := 0 to |groups|
        invariant forall h, j :: 0 <= h < g && j in groups[h].jobs ==> !Eligible(jobs, j)
      {
        for i := 0 to |groups[g].jobs|
          invariant forall m :: 0 <= m < i ==> !Eligible(jobs, groups[g].jobs[m])
        {
          var j := groups[g].jobs[i];
          if !jobs[j].busy && jobs[j].events != [] {
            return true;
          }
        }
      }
      forall j | j in jobs ensures !Eligible(jobs, j) {
        var h :| 0 <= h < |groups| && j in groups[h].jobs;
      }
      b := false;
    }
  }
}
