/** util/work_queue.go in its running phase: jobs are handed out once, in arrival order. */
module Dispatchers {
  import opened Lists
  import opened Slices

  const MAX_QUEUE: nat := 2048

  type Job = nat

  datatype Worker =
    | Waiting // receives on its channel
    | Busy(job: nat) // works on the job handed out as number `job`
    | Returning // has finished it and is about to send its channel back

  datatype Phase = Select | Assigning(next: nat)

  /** done: the numbers of the jobs that have been finished. */
  datatype State = State(
    count: nat, jobQueue: seq<Job>, jobSlice: seq<Job>, workerQueue: seq<nat>, workerPool: seq<nat>,
    phase: Phase, workers: seq<Worker>, arrived: seq<Job>, handed: seq<Job>, done: set<nat>)

  datatype Step =
    | Submit(job: Job) // a caller's send to JobQueue
    | TakeWorker | TakeJob | AssignStart | Hand | AssignEnd // the dispatcher
    | Finish(w: nat) | Return(w: nat) // a worker

  // ---------- who gets which job ----------

  function Min(a: nat, b: nat): nat {
    if a <= b then a else b
  }

  /** How many jobs one assignmentTask hands out. */
  function Rounds(jobSlice: seq<Job>, workerPool: seq<nat>): nat {
    Min(|jobSlice|, |workerPool|)
  }

  /** The worker of round i: from the front of the pool if the jobs are enough for it, else from its end. */
  function Target(jobSlice: seq<Job>, workerPool: seq<nat>, i: nat): nat
    requires i < Rounds(jobSlice, workerPool)
  {
    if |jobSlice| >= |workerPool| then workerPool[i] else workerPool[|workerPool| - 1 - i]
  }

  /** The workers of the pool that are left after i rounds. */
  function Left(jobSlice: seq<Job>, workerPool: seq<nat>, i: nat): seq<nat>
    requires i <= Rounds(jobSlice, workerPool)
  {
    if |jobSlice| >= |workerPool| then workerPool[i..] else workerPool[..|workerPool| - i]
  }

  /** A round takes one end off the pool. */
  lemma LeftStep(jobSlice: seq<Job>, workerPool: seq<nat>, i: nat)
    requires i < Rounds(jobSlice, workerPool)
    ensures var w := Target(jobSlice, workerPool, i);
            || Left(jobSlice, workerPool, i) == [w] + Left(jobSlice, workerPool, i + 1)
            || Left(jobSlice, workerPool, i) == Left(jobSlice, workerPool, i + 1) + [w]
  {
  }

  /** The sends of the first i rounds. */
  function Sends(jobSlice: seq<Job>, workerPool: seq<nat>, i: nat): seq<(nat, Job)>
    requires i <= Rounds(jobSlice, workerPool)
  {
    if i == 0 then []
    else Sends(jobSlice, workerPool, i - 1) + [(Target(jobSlice, workerPool, i - 1), jobSlice[i - 1])]
  }

  lemma {:induction false} SendsAt(jobSlice: seq<Job>, workerPool: seq<nat>, i: nat)
    requires i <= Rounds(jobSlice, workerPool)
    ensures var sends := Sends(jobSlice, workerPool, i);
            |sends| == i && forall k :: 0 <= k < i ==> sends[k] == (Target(jobSlice, workerPool, k), jobSlice[k])
  {
    if i > 0 {
      SendsAt(jobSlice, workerPool, i - 1);
    }
  }

  /** No two of the sends go to the same worker. */
  ghost predicate OtherWorkers(sends: seq<(nat, Job)>) {
    forall i, j :: 0 <= i < j < |sends| ==> sends[i].0 != sends[j].0
  }

  lemma SendsDiffer(jobSlice: seq<Job>, workerPool: seq<nat>)
    requires Distinct(workerPool)
    ensures var n := Rounds(jobSlice, workerPool);
            OtherWorkers(Sends(jobSlice, workerPool, n)) && Distinct(Left(jobSlice, workerPool, n))
  {
    SendsAt(jobSlice, workerPool, Rounds(jobSlice, workerPool));
  }

  /**
   What an assignment does, by its first and last lists: it goes on until the jobs or the workers run out, the
   k-th job goes to the k-th worker from the front, or from the end if there are more workers than jobs, and
   the other jobs and workers stay.
   */
  ghost predicate Assigned(jobs: seq<Job>, pool: seq<nat>, jobs': seq<Job>, pool': seq<nat>, sends: seq<(nat, Job)>) {
    && (jobs' == [] || pool' == [])
    && |jobs| == |sends| + |jobs'| && |pool| == |sends| + |pool'|
    && jobs' == jobs[|sends|..] && pool' == pool[..|pool'|]
    && forall k :: 0 <= k < |sends| ==>
         sends[k].1 == jobs[k] && sends[k].0 == if |jobs| >= |pool| then pool[k] else pool[|pool| - 1 - k]
  }

  lemma RoundsAssign(jobSlice: seq<Job>, workerPool: seq<nat>)
    ensures var n := Rounds(jobSlice, workerPool);
            Assigned(jobSlice, workerPool, jobSlice[n..], Left(jobSlice, workerPool, n), Sends(jobSlice, workerPool, n))
  {
    SendsAt(jobSlice, workerPool, Rounds(jobSlice, workerPool));
  }

  /** The sends behind those there were before. */
  lemma SentBehind(before: seq<(nat, Job)>, jobSlice: seq<Job>, workerPool: seq<nat>)
    requires Distinct(workerPool)
    ensures var n := Rounds(jobSlice, workerPool);
            var sent := before + Sends(jobSlice, workerPool, n);
            && before <= sent && OtherWorkers(sent[|before|..]) && Distinct(Left(jobSlice, workerPool, n))
            && Assigned(jobSlice, workerPool, jobSlice[n..], Left(jobSlice, workerPool, n), sent[|before|..])
  {
    var sends := Sends(jobSlice, workerPool, Rounds(jobSlice, workerPool));
    assert (before + sends)[|before|..] == sends;
    SendsDiffer(jobSlice, workerPool);
    RoundsAssign(jobSlice, workerPool);
  }

  class Dispatcher {
    var jobSlice: seq<Job>
    var workerPool: seq<nat>
    var sent: seq<(nat, Job)> // the sends to workers so far

    /** A worker is in the pool once. */
    ghost predicate Valid()
      reads this
    {
      Distinct(workerPool)
    }

    constructor (count: nat)
      ensures Valid() && jobSlice == [] && sent == [] && workerPool == seq(count, i => i)
    {
      jobSlice := [];
      sent := [];
      workerPool := seq(count, i => i);
    }

    /** As many jobs as possible are sent, in their order, each to another worker of the pool. */
    method AssignmentTask()
      requires Valid()
      modifies this
      ensures Valid() && old(sent) <= sent && OtherWorkers(sent[|old(sent)|..])
      ensures Assigned(old(jobSlice), old(workerPool), jobSlice, workerPool, sent[|old(sent)|..])
    {
      SentBehind(sent, jobSlice, workerPool);
      var js := |jobSlice|;
      if js > 0 {
        var wp := |workerPool|;
        if js >= wp {
          SendToAll(wp);
          jobSlice := jobSlice[wp..];
          workerPool := workerPool[..0];
        } else {
          SendToLast(wp, js);
          jobSlice := jobSlice[..0];
          workerPool := workerPool[..wp - js];
        }
      }
    }

    /** The loop for at least as many jobs as workers. */
    method SendToAll(wp: nat)
      requires wp == |workerPool| <= |jobSlice|
      modifies this`sent
      ensures sent == old(sent) + Sends(jobSlice, workerPool, Rounds(jobSlice, workerPool))
    {
      ghost var before := sent;
      for i := 0 to wp
        invariant sent == before + Sends(jobSlice, workerPool, i)
      {
        Send(before, i, workerPool[i], jobSlice[i]);
      }
    }

    /** The loop for fewer jobs than workers. */
    method SendToLast(wp: nat, js: nat)
      requires wp == |workerPool| > js == |jobSlice|
      modifies this`sent
      ensures sent == old(sent) + Sends(jobSlice, workerPool, Rounds(jobSlice, workerPool))
    {
      ghost var before := sent;
      for i := 0 to js
        invariant sent == before + Sends(jobSlice, workerPool, i)
      {
        Send(before, i, workerPool[wp - 1 - i], jobSlice[i]);
      }
    }

    method Send(ghost before: seq<(nat, Job)>, ghost i: nat, w: nat, job: Job)
      requires i < Rounds(jobSlice, workerPool) && sent == before + Sends(jobSlice, workerPool, i)
      requires w == Target(jobSlice, workerPool, i) && job == jobSlice[i]
      modifies this`sent
      ensures sent == before + Sends(jobSlice, workerPool, i + 1)
    {
      Regroup(before, Sends(jobSlice, workerPool, i), [(w, job)]);
      sent := sent + [(w, job)];
    }
  }

  // ---------- steps ----------

  ghost predicate Init(s: State) {
    && s.workerPool == seq(s.count, i => i) && s.workers == seq(s.count, _ => Waiting)
    && s.jobQueue == s.jobSlice == s.arrived == s.handed == [] && s.workerQueue == []
    && s.phase == Select && s.done == {}
  }

  predicate Enabled(s: State, step: Step) {
    match step
    case Submit(_) => |s.jobQueue| < MAX_QUEUE
    case TakeWorker => s.phase == Select && s.workerQueue != []
    case TakeJob => s.phase == Select && s.jobQueue != []
    case AssignStart => s.phase == Select && s.jobSlice != []
    case Hand =>
      && s.phase.Assigning? && s.phase.next < Rounds(s.jobSlice, s.workerPool)
      && Target(s.jobSlice, s.workerPool, s.phase.next) < |s.workers|
      && s.workers[Target(s.jobSlice, s.workerPool, s.phase.next)] == Waiting
    case AssignEnd => s.phase == Assigning(Rounds(s.jobSlice, s.workerPool))
    case Finish(w) => w < |s.workers| && s.workers[w].Busy?
    case Return(w) => w < |s.workers| && s.workers[w] == Returning && |s.workerQueue| < s.count
  }

  function Apply(s: State, step: Step): State
    requires Enabled(s, step)
  {
    match step
    case Submit(job) => s.(jobQueue := s.jobQueue + [job], arrived := s.arrived + [job])
    case TakeWorker =>
      s.(workerPool := s.workerPool + [s.workerQueue[0]], workerQueue := s.workerQueue[1..])
    case TakeJob =>
      s.(jobSlice := s.jobSlice + [s.jobQueue[0]], jobQueue := s.jobQueue[1..])
    case AssignStart => s.(phase := Assigning(0))
    case Hand =>
      var i := s.phase.next;
      s.(workers := s.workers[Target(s.jobSlice, s.workerPool, i) := Busy(|s.handed|)],
         handed := s.handed + [s.jobSlice[i]], phase := Assigning(i + 1))
    case AssignEnd =>
      var n := Rounds(s.jobSlice, s.workerPool);
      s.(jobSlice := s.jobSlice[n..], workerPool := Left(s.jobSlice, s.workerPool, n), phase := Select)
    case Finish(w) => s.(workers := s.workers[w := Returning], done := s.done + {s.workers[w].job})
    case Return(w) => s.(workers := s.workers[w := Waiting], workerQueue := s.workerQueue + [w])
  }

  ghost predicate Path(s: State, steps: seq<Step>, t: State)
    decreases |steps|
  {
    if steps == [] then s == t
    else Enabled(s, steps[0]) && Path(Apply(s, steps[0]), steps[1..], t)
  }

  ghost predicate Reachable(t: State) {
    exists s, steps :: Init(s) && Path(s, steps, t)
  }

  // ---------- invariants ----------

  function Handing(s: State): nat {
    if s.phase.Assigning? then s.phase.next else 0
  }

  /** The workers of the pool that have not been given a job of the assignment under way. */
  function IdlePool(s: State): seq<nat>
    requires Handing(s) <= Rounds(s.jobSlice, s.workerPool)
  {
    if s.phase.Assigning? then Left(s.jobSlice, s.workerPool, s.phase.next) else s.workerPool
  }

  /** The list names every waiting worker once and no other. */
  ghost predicate Idle(idle: seq<nat>, workers: seq<Worker>) {
    && Distinct(idle) && (forall w :: w in idle ==> w < |workers|)
    && forall w: nat :: w < |workers| ==> (w in idle <==> workers[w] == Waiting)
  }

  /** Every worker is in exactly one of the pool, the queue and work. */
  ghost predicate WorkersOk(s: State) {
    && |s.workers| == s.count && Handing(s) <= Rounds(s.jobSlice, s.workerPool)
    && Idle(IdlePool(s) + s.workerQueue, s.workers)
  }

  /** Every job is in exactly one place, and the jobs are handed out in the order of their arrival. */
  ghost predicate JobsOk(s: State) {
    && Handing(s) <= |s.jobSlice|
    && s.arrived == s.handed + s.jobSlice[Handing(s)..] + s.jobQueue
    && |s.jobQueue| <= MAX_QUEUE
    && (forall k :: k in s.done ==> k < |s.handed|)
    && (forall w :: 0 <= w < |s.workers| && s.workers[w].Busy? ==>
          s.workers[w].job < |s.handed| && s.workers[w].job !in s.done)
    && (forall v, w :: 0 <= v < w < |s.workers| && s.workers[v].Busy? && s.workers[w].Busy? ==>
          s.workers[v].job != s.workers[w].job)
    && forall k: nat :: k < |s.handed| && k !in s.done ==> AtWork(s, k)
  }

  ghost predicate AtWork(s: State, k: nat) {
    exists w :: 0 <= w < |s.workers| && s.workers[w] == Busy(k)
  }

  ghost predicate Inv(s: State) {
    WorkersOk(s) && JobsOk(s)
  }

  lemma InitInv(s: State)
    requires Init(s)
    ensures Inv(s)
  {
    assert s.workerPool + s.workerQueue == s.workerPool;
    forall w: nat | w < s.count
      ensures w in s.workerPool
    {
      assert s.workerPool[w] == w;
    }
  }

  // ---------- every step keeps them ----------

  lemma StepInv(s: State, step: Step)
    requires Inv(s) && Enabled(s, step)
    ensures Inv(Apply(s, step))
  {
    StepWorkers(s, step);
    StepJobs(s, step);
  }

  lemma StepWorkers(s: State, step: Step)
    requires WorkersOk(s) && Enabled(s, step)
    ensures WorkersOk(Apply(s, step))
  {
    var t := Apply(s, step);
    match step
    case TakeWorker =>
      assert IdlePool(t) + t.workerQueue == IdlePool(s) + s.workerQueue;
    case Hand =>
      LeftStep(s.jobSlice, s.workerPool, s.phase.next);
      HandKeepsWorkers(s);
    case Return(w) =>
      assert IdlePool(t) + t.workerQueue == (IdlePool(s) + s.workerQueue) + [w];
    case _ =>
      assert IdlePool(t) == IdlePool(s);
  }

  /** A worker on the list gets a job. */
  lemma IdleTake(a: seq<nat>, w: nat, b: seq<nat>, workers: seq<Worker>, k: nat)
    requires Idle(a + [w] + b, workers) && w < |workers|
    ensures Idle(a + b, workers[w := Busy(k)])
  {
    var c := a + [w] + b;
    assert c[|a|] == w;
    assert forall i :: 0 <= i < |a| ==> (a + b)[i] == c[i];
    assert forall i :: |a| <= i < |a + b| ==> (a + b)[i] == c[i + 1];
    assert forall v :: v in c <==> v in a || v == w || v in b;
    assert forall v :: v in a + b <==> v in a || v in b;
    assert w !in a && w !in b;
  }

  lemma HandKeepsWorkers(s: State)
    requires WorkersOk(s) && Enabled(s, Hand)
    ensures WorkersOk(Apply(s, Hand))
  {
    var i := s.phase.next;
    var w, left := Target(s.jobSlice, s.workerPool, i), Left(s.jobSlice, s.workerPool, i + 1);
    LeftStep(s.jobSlice, s.workerPool, i);
    IdleTakeEnd(IdlePool(s), w, left, s.workerQueue, s.workers, |s.handed|);
    assert IdlePool(Apply(s, Hand)) == left;
  }

  lemma IdleTakeEnd(pool: seq<nat>, w: nat, left: seq<nat>, queue: seq<nat>, workers: seq<Worker>, k: nat)
    requires Idle(pool + queue, workers) && w < |workers|
    requires pool == [w] + left || pool == left + [w]
    ensures Idle(left + queue, workers[w := Busy(k)])
  {
    if pool == [w] + left {
      assert pool + queue == [] + [w] + (left + queue);
      IdleTake([], w, left + queue, workers, k);
      assert [] + (left + queue) == left + queue;
    } else {
      IdleTake(left, w, queue, workers, k);
    }
  }

  lemma StepJobs(s: State, step: Step)
    requires WorkersOk(s) && JobsOk(s) && Enabled(s, step)
    ensures JobsOk(Apply(s, step))
  {
    var t := Apply(s, step);
    match step
    case Submit(job) =>
      Regroup(s.handed + s.jobSlice[Handing(s)..], s.jobQueue, [job]);
      SameWork(s, t);
    case TakeJob =>
      assert t.jobSlice[0..] + t.jobQueue == s.jobSlice[0..] + s.jobQueue;
      Regroup(s.handed, s.jobSlice[0..], s.jobQueue);
      Regroup(t.handed, t.jobSlice[0..], t.jobQueue);
      SameWork(s, t);
    case Hand =>
      HandKeepsJobs(s);
    case Finish(w) =>
      forall k: nat | k < |t.handed| && k !in t.done
        ensures AtWork(t, k)
      {
        assert AtWork(s, k);
        var v :| 0 <= v < |s.workers| && s.workers[v] == Busy(k);
        assert t.workers[v] == Busy(k);
      }
    case Return(w) =>
      SameWork(s, t);
    case _ =>
      assert t.jobSlice[Handing(t)..] == s.jobSlice[Handing(s)..];
      SameWork(s, t);
  }

  /** Steps that change no work under way. */
  lemma SameWork(s: State, t: State)
    requires JobsOk(s) && |t.workers| == |s.workers| && t.done == s.done && t.handed == s.handed
    requires forall w, k :: 0 <= w < |s.workers| ==> (s.workers[w] == Busy(k) <==> t.workers[w] == Busy(k))
    ensures forall k: nat :: k < |t.handed| && k !in t.done ==> AtWork(t, k)
  {
    forall k: nat | k < |t.handed| && k !in t.done
      ensures AtWork(t, k)
    {
      assert AtWork(s, k);
      var w :| 0 <= w < |s.workers| && s.workers[w] == Busy(k);
      assert t.workers[w] == Busy(k);
    }
  }

  lemma HandKeepsJobs(s: State)
    requires WorkersOk(s) && JobsOk(s) && Enabled(s, Hand)
    ensures JobsOk(Apply(s, Hand))
  {
    var t := Apply(s, Hand);
    var i := s.phase.next;
    var w := Target(s.jobSlice, s.workerPool, i);
    assert s.jobSlice[i..] == [s.jobSlice[i]] + t.jobSlice[i + 1..];
    Regroup(s.handed, [s.jobSlice[i]], t.jobSlice[i + 1..]);
    forall k: nat | k < |t.handed| && k !in t.done
      ensures AtWork(t, k)
    {
      if k < |s.handed| {
        assert AtWork(s, k);
        var v :| 0 <= v < |s.workers| && s.workers[v] == Busy(k);
        assert t.workers[v] == Busy(k);
      } else {
        assert t.workers[w] == Busy(k);
      }
    }
  }

  // ---------- whole runs ----------

  lemma {:induction false} PathInv(s: State, steps: seq<Step>, t: State)
    requires Inv(s) && Path(s, steps, t)
    ensures Inv(t) && t.count == s.count
    decreases |steps|
  {
    if steps != [] {
      StepInv(s, steps[0]);
      PathInv(Apply(s, steps[0]), steps[1..], t);
    }
  }

  lemma ReachableInv(t: State)
    requires Reachable(t)
    ensures Inv(t)
  {
    var s, steps :| Init(s) && Path(s, steps, t);
    InitInv(s);
    PathInv(s, steps, t);
  }

  /** Jobs are handed out in the order of their arrival; the others wait in jobSlice and JobQueue. */
  lemma HandedInOrder(t: State)
    requires Reachable(t)
    ensures Handing(t) <= |t.jobSlice| && t.arrived == t.handed + t.jobSlice[Handing(t)..] + t.jobQueue
  {
    ReachableInv(t);
  }

  /** Every job handed out is either done or with exactly one worker. */
  lemma HandedOnce(t: State, k: nat)
    requires Reachable(t) && k < |t.handed|
    ensures k in t.done <==> !AtWork(t, k)
    ensures forall v, w ::
              0 <= v < w < |t.workers| ==> t.workers[v] != Busy(k) || t.workers[w] != Busy(k)
  {
    ReachableInv(t);
  }

  /** Each worker is in exactly one of the pool, the queue and work. */
  lemma WorkersPartition(t: State, w: nat)
    requires Reachable(t) && w < t.count
    ensures |t.workers| == t.count && Handing(t) <= Rounds(t.jobSlice, t.workerPool)
    ensures t.workers[w] == Waiting <==> (w in IdlePool(t) || w in t.workerQueue)
    ensures !(w in IdlePool(t) && w in t.workerQueue)
    ensures Distinct(IdlePool(t)) && Distinct(t.workerQueue)
  {
    ReachableInv(t);
    var all, p := IdlePool(t) + t.workerQueue, |IdlePool(t)|;
    assert w in all <==> w in IdlePool(t) || w in t.workerQueue;
    assert forall i :: 0 <= i < p ==> all[i] == IdlePool(t)[i];
    assert forall j :: 0 <= j < |t.workerQueue| ==> all[p + j] == t.workerQueue[j];
  }

  /** A worker's send back to workerQueue always finds room. */
  lemma ReturnNeverBlocks(t: State, w: nat)
    requires Reachable(t) && w < |t.workers| && t.workers[w] == Returning
    ensures Enabled(t, Return(w))
  {
    ReachableInv(t);
    WorkersPartition(t, w);
    var others := Below(t.count) - {w};
    forall v | v in t.workerQueue
      ensures v in others
    {
      assert v in IdlePool(t) + t.workerQueue;
      WorkersPartition(t, v);
    }
    DistinctFits(t.workerQueue, others);
  }

  lemma HandEnabled(t: State)
    requires WorkersOk(t) && t.phase.Assigning? && t.phase.next < Rounds(t.jobSlice, t.workerPool)
    ensures Enabled(t, Hand)
  {
    var i := t.phase.next;
    LeftStep(t.jobSlice, t.workerPool, i);
    var w := Target(t.jobSlice, t.workerPool, i);
    assert w in IdlePool(t);
    assert w in IdlePool(t) + t.workerQueue;
  }

  /** Nor does the dispatcher's send to a worker wait for anything but that worker's receive. */
  lemma HandNeverBlocks(t: State)
    requires Reachable(t) && t.phase.Assigning?
    ensures Enabled(t, Hand) || Enabled(t, AssignEnd)
  {
    ReachableInv(t);
    if t.phase.next < Rounds(t.jobSlice, t.workerPool) {
      HandEnabled(t);
    }
  }

  lemma {:induction false} PathSnoc(s: State, steps: seq<Step>, u: State, step: Step)
    requires Path(s, steps, u) && Enabled(u, step)
    ensures Path(s, steps + [step], Apply(u, step))
    decreases |steps|
  {
    if steps == [] {
      assert Path(Apply(u, step), [], Apply(u, step));
      assert ([] + [step])[1..] == [];
    } else {
      PathSnoc(Apply(s, steps[0]), steps[1..], u, step);
      assert (steps + [step])[1..] == steps[1..] + [step];
    }
  }

  /** The worker of round k works on the k-th job of the slice. */
  ghost predicate Served(s: State, t: State, k: nat)
    requires k < Rounds(s.jobSlice, s.workerPool)
  {
    var w := Target(s.jobSlice, s.workerPool, k);
    w < |t.workers| && t.workers[w] == Busy(|s.handed| + k)
  }

  /** From s on, i rounds of an assignment have been done and nothing else. */
  ghost predicate AfterRounds(s: State, t: State, i: nat) {
    && i <= Rounds(s.jobSlice, s.workerPool) && t.phase == Assigning(i)
    && t.jobSlice == s.jobSlice && t.workerPool == s.workerPool
    && t.handed == s.handed + s.jobSlice[..i]
    && forall k :: 0 <= k < i ==> Served(s, t, k)
  }

  lemma NextRound(s: State, u: State, i: nat)
    requires Inv(u) && AfterRounds(s, u, i) && i < Rounds(s.jobSlice, s.workerPool)
    ensures Enabled(u, Hand) && AfterRounds(s, Apply(u, Hand), i + 1)
  {
    HandEnabled(u);
    var t := Apply(u, Hand);
    assert s.jobSlice[..i + 1] == s.jobSlice[..i] + [s.jobSlice[i]];
    Regroup(s.handed, s.jobSlice[..i], [s.jobSlice[i]]);
    forall k | 0 <= k < i + 1
      ensures Served(s, t, k)
    {
      if k < i {
        assert Served(s, u, k);
      }
    }
  }

  /** The first i rounds of an assignment. */
  lemma {:induction false} AssignRounds(s: State, i: nat) returns (steps: seq<Step>, t: State)
    requires Inv(s) && s.phase == Select && s.jobSlice != [] && i <= Rounds(s.jobSlice, s.workerPool)
    ensures Path(s, steps, t) && Inv(t) && AfterRounds(s, t, i)
    decreases i
  {
    if i == 0 {
      steps, t := [AssignStart], Apply(s, AssignStart);
      StepInv(s, AssignStart);
      assert Path(t, [], t);
    } else {
      var before, u := AssignRounds(s, i - 1);
      NextRound(s, u, i - 1);
      StepInv(u, Hand);
      PathSnoc(s, before, u, Hand);
      steps, t := before + [Hand], Apply(u, Hand);
    }
  }

  /**
   An assignment undisturbed by other steps does what the method AssignmentTask does, until the jobs or the
   workers run out: each of its sends reaches the worker it is addressed to, and is a job of the record.
   */
  lemma AssignmentRuns(s: State) returns (steps: seq<Step>, t: State, sends: seq<(nat, Job)>)
    requires Inv(s) && s.phase == Select && s.jobSlice != []
    ensures Path(s, steps, t) && t.phase == Select
    ensures Assigned(s.jobSlice, s.workerPool, t.jobSlice, t.workerPool, sends) && OtherWorkers(sends)
    ensures |t.handed| == |s.handed| + |sends| && s.handed <= t.handed
    ensures forall k :: 0 <= k < |sends| ==> Reaches(s, t, k, sends[k])
  {
    var n := Rounds(s.jobSlice, s.workerPool);
    var before, u := AssignRounds(s, n);
    PathSnoc(s, before, u, AssignEnd);
    steps, t, sends := before + [AssignEnd], Apply(u, AssignEnd), Sends(s.jobSlice, s.workerPool, n);
    SendsAt(s.jobSlice, s.workerPool, n);
    RoundsAssign(s.jobSlice, s.workerPool);
    PoolDistinct(s);
    SendsDiffer(s.jobSlice, s.workerPool);
    forall k: nat | k < n
      ensures Reaches(s, u, k, sends[k])
    {
      RoundReaches(s, u, n, k);
    }
    assert forall k :: 0 <= k < n ==> Reaches(s, u, k, sends[k]);
  }

  /** The k-th send of an assignment from s on is recorded, and its worker works on it. */
  ghost predicate Reaches(s: State, t: State, k: nat, send: (nat, Job)) {
    && |s.handed| + k < |t.handed| && t.handed[|s.handed| + k] == send.1
    && send.0 < |t.workers| && t.workers[send.0] == Busy(|s.handed| + k)
  }

  lemma RoundReaches(s: State, u: State, n: nat, k: nat)
    requires AfterRounds(s, u, n) && k < n
    ensures Reaches(s, u, k, (Target(s.jobSlice, s.workerPool, k), s.jobSlice[k]))
  {
    assert Served(s, u, k);
    assert u.handed[|s.handed| + k] == s.jobSlice[..n][k];
  }

  lemma PoolDistinct(s: State)
    requires Inv(s) && s.phase == Select
    ensures Distinct(s.workerPool)
  {
    var all := s.workerPool + s.workerQueue;
    assert forall i :: 0 <= i < |s.workerPool| ==> all[i] == s.workerPool[i];
  }

  // ---------- every job can be done ----------

  /** A run without further submissions hands out every job that has arrived, and every job gets done. */
  ghost predicate Finishes(s: State) {
    exists steps, t :: Path(s, steps, t) && t.arrived == s.arrived && AllDone(t)
  }

  ghost predicate AllDone(t: State) {
    t.handed == t.arrived && forall k: nat :: k < |t.handed| ==> k in t.done
  }

  lemma Before(s: State, step: Step)
    requires Enabled(s, step) && !step.Submit? && Finishes(Apply(s, step))
    ensures Finishes(s)
  {
    var u := Apply(s, step);
    var steps, t :| Path(u, steps, t) && t.arrived == u.arrived && AllDone(t);
    assert ([step] + steps)[1..] == steps;
    assert Path(s, [step] + steps, t);
  }

  lemma StepReachable(s: State, step: Step)
    requires Reachable(s) && Enabled(s, step)
    ensures Reachable(Apply(s, step))
  {
    var s0, steps :| Init(s0) && Path(s0, steps, s);
    PathSnoc(s0, steps, s, step);
  }

  function BusyOnes(workers: seq<Worker>): set<nat> {
    set w | 0 <= w < |workers| && workers[w].Busy?
  }

  function ReturningOnes(workers: seq<Worker>): set<nat> {
    set w | 0 <= w < |workers| && workers[w] == Returning
  }

  /** With no worker at work or on its way back, and nothing to assign, everything is done. */
  lemma AtRest(s: State)
    requires Reachable(s) && s.phase == Select && BusyOnes(s.workers) == {} && s.jobQueue == s.jobSlice == []
    ensures AllDone(s)
  {
    ReachableInv(s);
    forall w | 0 <= w < |s.workers|
      ensures !s.workers[w].Busy?
    {
      assert w in BusyOnes(s.workers) <==> s.workers[w].Busy?;
    }
    assert forall k: nat :: k < |s.handed| ==> k in s.done || AtWork(s, k);
  }

  /** With no worker elsewhere the pool has one, so an assignment hands out a job. */
  lemma PoolReady(s: State)
    requires Reachable(s) && s.phase == Select && s.count > 0 && s.workerQueue == [] && s.jobSlice != []
    requires BusyOnes(s.workers) == {} && ReturningOnes(s.workers) == {}
    ensures Enabled(s, AssignStart) && Enabled(Apply(s, AssignStart), Hand)
  {
    WorkersPartition(s, 0);
    assert 0 in BusyOnes(s.workers) <==> s.workers[0].Busy?;
    assert 0 in ReturningOnes(s.workers) <==> s.workers[0] == Returning;
    StepReachable(s, AssignStart);
    HandNeverBlocks(Apply(s, AssignStart));
  }

  lemma OneLess(workers: seq<Worker>, w: nat, to: Worker)
    requires w < |workers| && !to.Busy? && workers[w] != to
    ensures workers[w].Busy? ==> |BusyOnes(workers[w := to])| < |BusyOnes(workers)|
    ensures !workers[w].Busy? ==> BusyOnes(workers[w := to]) == BusyOnes(workers)
    ensures workers[w] == Returning ==> |ReturningOnes(workers[w := to])| < |ReturningOnes(workers)|
  {
    var busy, back := BusyOnes(workers), ReturningOnes(workers);
    if workers[w].Busy? {
      assert BusyOnes(workers[w := to]) == busy - {w} && w in busy;
    }
    if workers[w] == Returning {
      assert ReturningOnes(workers[w := to]) == back - {w} && w in back;
    }
  }

  /** What happens next, when no caller submits anything. */
  ghost function NextStep(s: State): Step
    requires s.phase.Assigning? || s.jobQueue != [] || BusyOnes(s.workers) != {} || ReturningOnes(s.workers) != {} ||
             s.workerQueue != []
  {
    if s.phase.Assigning? then if s.phase.next < Rounds(s.jobSlice, s.workerPool) then Hand else AssignEnd
    else if s.jobQueue != [] then TakeJob
    else if BusyOnes(s.workers) != {} then var w :| w in BusyOnes(s.workers); Finish(w)
    else if ReturningOnes(s.workers) != {} then var w :| w in ReturningOnes(s.workers); Return(w)
    else TakeWorker
  }

  lemma NextEnabled(s: State)
    requires Reachable(s)
    requires s.phase.Assigning? || s.jobQueue != [] || BusyOnes(s.workers) != {} || ReturningOnes(s.workers) != {} ||
             s.workerQueue != []
    ensures Enabled(s, NextStep(s))
  {
    ReachableInv(s);
    var step := NextStep(s);
    if s.phase.Assigning? {
      HandNeverBlocks(s);
    } else if step.Return? {
      ReturnNeverBlocks(s, step.w);
    }
  }

  /** With at least one worker, every job that has arrived can be handed out and done. */
  lemma {:induction false} AllCanBeDone(s: State)
    requires Reachable(s) && s.count > 0
    ensures |s.handed| <= |s.arrived| && Finishes(s)
    decreases |s.arrived| - |s.handed|, |s.jobQueue|, |BusyOnes(s.workers)|, |ReturningOnes(s.workers)|,
              |s.workerQueue|, if s.phase.Assigning? then 1 else 0
  {
    HandedInOrder(s);
    if s.phase.Assigning? || s.jobQueue != [] || BusyOnes(s.workers) != {} || ReturningOnes(s.workers) != {} ||
       s.workerQueue != []
    {
      var step := NextStep(s);
      NextEnabled(s);
      StepReachable(s, step);
      if step.Finish? {
        OneLess(s.workers, step.w, Returning);
      } else if step.Return? {
        OneLess(s.workers, step.w, Waiting);
      }
      AllCanBeDone(Apply(s, step));
      Before(s, step);
    } else if s.jobSlice == [] {
      AtRest(s);
      assert Path(s, [], s);
    } else {
      PoolReady(s);
      var u := Apply(s, AssignStart);
      StepReachable(s, AssignStart);
      StepReachable(u, Hand);
      AllCanBeDone(Apply(u, Hand));
      Before(u, Hand);
      Before(s, AssignStart);
    }
  }

  lemma {:induction false} PathJoin(s: State, a: seq<Step>, u: State, b: seq<Step>, t: State)
    requires Path(s, a, u) && Path(u, b, t)
    ensures Path(s, a + b, t)
    decreases |a|
  {
    if a == [] {
      assert a + b == b;
    } else {
      assert (a + b)[1..] == a[1..] + b;
      PathJoin(Apply(s, a[0]), a[1..], u, b, t);
    }
  }

  /** Any further jobs can be submitted, handed out and done as well, in their order. */
  lemma {:induction false} JobsCanBeDone(s: State, jobs: seq<Job>) returns (steps: seq<Step>, t: State)
    requires Reachable(s) && s.count > 0
    ensures Path(s, steps, t) && t.handed == t.arrived == s.arrived + jobs && AllDone(t)
    decreases |jobs|
  {
    AllCanBeDone(s);
    var first, u :| Path(s, first, u) && u.arrived == s.arrived && AllDone(u);
    if jobs == [] {
      steps, t := first, u;
    } else {
      StillReachable(s, first, u);
      HandedInOrder(u);
      var submit := Submit(jobs[0]);
      var v := Apply(u, submit);
      StepReachable(u, submit);
      var rest, w := JobsCanBeDone(v, jobs[1..]);
      PathSnoc(s, first, u, submit);
      PathJoin(s, first + [submit], v, rest, w);
      steps, t := first + [submit] + rest, w;
      Regroup(s.arrived, [jobs[0]], jobs[1..]);
      assert [jobs[0]] + jobs[1..] == jobs;
    }
  }

  lemma {:induction false} StillReachable(s: State, steps: seq<Step>, t: State)
    requires Reachable(s) && Path(s, steps, t)
    ensures Reachable(t) && t.count == s.count
    decreases |steps|
  {
    if steps != [] {
      StepReachable(s, steps[0]);
      StillReachable(Apply(s, steps[0]), steps[1..], t);
    }
  }

  /** The submissions of a burst, with nothing in between. */
  function Burst(jobs: seq<Job>): seq<Step> {
    if jobs == [] then [] else [Submit(jobs[0])] + Burst(jobs[1..])
  }

  function Queued(s: State, jobs: seq<Job>): State {
    s.(jobQueue := s.jobQueue + jobs, arrived := s.arrived + jobs)
  }

  lemma QueuedMore(s: State, jobs: seq<Job>)
    ensures jobs == [] ==> Queued(s, jobs) == s
    ensures jobs != [] ==> Queued(Queued(s, [jobs[0]]), jobs[1..]) == Queued(s, jobs)
  {
    if jobs != [] {
      assert [jobs[0]] + jobs[1..] == jobs;
      Regroup(s.jobQueue, [jobs[0]], jobs[1..]);
      Regroup(s.arrived, [jobs[0]], jobs[1..]);
    }
  }

  lemma {:induction false} BurstFits(s: State, jobs: seq<Job>)
    requires |s.jobQueue| + |jobs| <= MAX_QUEUE
    ensures Path(s, Burst(jobs), Queued(s, jobs))
    decreases |jobs|
  {
    QueuedMore(s, jobs);
    if jobs != [] {
      assert Burst(jobs)[1..] == Burst(jobs[1..]);
      BurstFits(Queued(s, [jobs[0]]), jobs[1..]);
    }
  }

  lemma {:induction false} BurstIs(s: State, jobs: seq<Job>, t: State)
    requires Path(s, Burst(jobs), t) && |s.jobQueue| <= MAX_QUEUE
    ensures t == Queued(s, jobs) && |s.jobQueue| + |jobs| <= MAX_QUEUE
    decreases |jobs|
  {
    QueuedMore(s, jobs);
    if jobs != [] {
      assert Burst(jobs)[1..] == Burst(jobs[1..]);
      BurstIs(Queued(s, [jobs[0]]), jobs[1..], t);
    }
  }

  /** A burst goes through without the dispatcher, whatever it is doing, if and only if it fits into JobQueue. */
  lemma BurstFitsIff(s: State, jobs: seq<Job>, t: State)
    requires Reachable(s)
    ensures Path(s, Burst(jobs), t) <==> t == Queued(s, jobs) && |s.jobQueue| + |jobs| <= MAX_QUEUE
  {
    ReachableInv(s);
    if Path(s, Burst(jobs), t) {
      BurstIs(s, jobs, t);
    } else if |s.jobQueue| + |jobs| <= MAX_QUEUE {
      BurstFits(s, jobs);
    }
  }
}
