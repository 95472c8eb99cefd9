/** No accepted frame has to stay in a slot: from every reachable state some run puts all of them on the wire. */
module SlotProgress {
  import opened Conver
  import opened SlotProtocol
  import opened SlotInvariant
  import opened SlotSafety
  import opened SlotTheorems
  import opened SlotLateLock

  /** Call c has returned nil, and a batch on the wire carries its frame. */
  ghost predicate OnWire(t: State, c: nat) {
    && c in t.returned && |t.wire| == |t.sent|
    && exists n: nat, k: nat ::
         n < |t.sent| && FrameAt(t, c, t.sent[n], k) && Carries(t.wire[n], t.slots[t.sent[n]].claims[k])
  }

  /** The calls whose frame has a place in a batch. */
  function Accepted(s: State): set<nat> {
    set c | c in s.place && s.place[c].InBatch?
  }

  /** Some run of fair steps, without further calls, puts the frames of these calls on the wire. */
  ghost predicate Sends(s: State, calls: set<nat>) {
    exists steps, t :: Path(s, steps, t) && t.calls == s.calls && forall c :: c in calls ==> OnWire(t, c)
  }

  lemma Before(s: State, step: Step, calls: set<nat>)
    requires Enabled(s, step) && Fair(s, step) && !step.Call? && Sends(Apply(s, step), calls)
    ensures Sends(s, calls)
  {
    var u := Apply(s, step);
    var steps, t :| Path(u, steps, t) && t.calls == u.calls && forall c :: c in calls ==> OnWire(t, c);
    assert ([step] + steps)[1..] == steps;
    assert Path(s, [step] + steps, t);
  }

  /** A frame that has a place keeps it. */
  lemma StepAccepted(s: State, step: Step)
    requires PlacesOk(s.slots, s.writers, s.place, s.calls, s.returned) && Enabled(s, step)
    ensures Accepted(s) <= Accepted(Apply(s, step))
  {
    if step.Allot? || step.Bounce? {
      assert WriterPlaced(s.place, s.calls, step.p, s.writers[step.p]);
    }
  }

  // ---------- workers ----------

  /** The writer has taken the lock, and has neither returned nor come back to the head of the loop. */
  predicate Busy(w: Writer) {
    w.pc != AtLoop && w.pc != SlotLoaded
  }

  function BusyOnes(writers: map<nat, Writer>): set<nat> {
    set p | p in writers && Busy(writers[p])
  }

  lemma NobodyHolds(s: State, i: nat)
    requires Inv(s) && i < |s.slots| && BusyOnes(s.writers) == {}
    ensures s.slots[i].lock == 0 && forall c :: !ClaimOwned(s.writers, i, c)
  {
    forall p | p in s.writers
      ensures !Busy(s.writers[p])
    {
      assert p in BusyOnes(s.writers) <==> Busy(s.writers[p]);
    }
    assert Holders(s.writers, i) == {};
  }

  /** What a worker does next with a slot. */
  function NextOfJob(job: Job, k: nat): Step
    requires job.phase != Sent
  {
    match job.phase
    case Queued => Detach(k)
    case Detached => Drain(k)
    case Drained => Send(k)
  }

  function JobRank(phase: Phase): nat {
    match phase
    case Queued => 3
    case Detached => 2
    case Drained => 1
    case Sent => 0
  }

  ghost predicate SentBelow(jobs: seq<Job>, k: nat) {
    k <= |jobs| && forall j :: 0 <= j < k ==> jobs[j].phase == Sent
  }

  /** With nobody inside the lock, a worker is never held up. */
  lemma JobEnabled(s: State, k: nat)
    requires Inv(s) && BusyOnes(s.writers) == {} && k < |s.jobs| && s.jobs[k].phase != Sent
    ensures Enabled(s, NextOfJob(s.jobs[k], k))
  {
    QueuedHasClaim(s, k);
    NobodyHolds(s, s.jobs[k].slot);
    if s.jobs[k].phase == Drained {
      PastIsSettled(s, k);
      BatchOf(s.slots[s.jobs[k].slot]);
    }
  }

  lemma JobMoves(s: State, k: nat)
    requires k < |s.jobs| && s.jobs[k].phase != Sent && Enabled(s, NextOfJob(s.jobs[k], k))
    ensures var u := Apply(s, NextOfJob(s.jobs[k], k));
            && u.writers == s.writers && |u.jobs| == |s.jobs|
            && (forall j :: 0 <= j < k ==> u.jobs[j] == s.jobs[j])
            && JobRank(u.jobs[k].phase) < JobRank(s.jobs[k].phase)
  {
  }

  /** With every job done, every slot that has a claim is sent. */
  lemma AllSlotsSent(s: State, i: nat)
    requires Inv(s) && BusyOnes(s.writers) == {} && SentBelow(s.jobs, |s.jobs|)
    requires i < |s.slots| && s.slots[i].claims != []
    ensures i in s.sent
  {
    NobodyHolds(s, i);
    assert QueueOk(s.writers, s.jobs, i, s.slots[i]);
  }

  /** And every accepted frame is on the wire. */
  lemma AllSent(s: State, c: nat)
    requires Inv(s) && BusyOnes(s.writers) == {} && SentBelow(s.jobs, |s.jobs|) && c in Accepted(s)
    ensures OnWire(s, c)
  {
    assert PlaceTrue(s.slots, s.writers, c, s.place[c]);
    var i, k := s.place[c].slot, s.place[c].position;
    AllSlotsSent(s, i);
    IdleReturned(s, c);
    NothingLost(s, c);
    var n :| 0 <= n < |s.sent| && s.sent[n] == i;
    assert FrameAt(s, c, s.sent[n], k);
  }

  /** Its call has returned. */
  lemma IdleReturned(s: State, c: nat)
    requires Inv(s) && BusyOnes(s.writers) == {} && c in Accepted(s)
    ensures c in s.returned
  {
    forall p | p in s.writers
      ensures s.writers[p].ticket != c
    {
      assert p in BusyOnes(s.writers) <==> Busy(s.writers[p]);
      assert WriterPlaced(s.place, s.calls, p, s.writers[p]);
    }
    assert c in s.returned || AtWork(s.writers, c);
  }

  lemma {:induction false} SendJobs(s: State, k: nat, calls: set<nat>)
    requires Inv(s) && BusyOnes(s.writers) == {} && SentBelow(s.jobs, k) && calls <= Accepted(s)
    ensures Sends(s, calls)
    decreases |s.jobs| - k, if k < |s.jobs| then JobRank(s.jobs[k].phase) else 0
  {
    if k == |s.jobs| {
      forall c | c in calls
        ensures OnWire(s, c)
      {
        AllSent(s, c);
      }
      assert Path(s, [], s);
    } else if s.jobs[k].phase == Sent {
      SendJobs(s, k + 1, calls);
    } else {
      var step := NextOfJob(s.jobs[k], k);
      JobEnabled(s, k);
      JobMoves(s, k);
      StepInv(s, step);
      StepAccepted(s, step);
      SendJobs(Apply(s, step), k, calls);
      Before(s, step, calls);
    }
  }

  // ---------- writers ----------

  /** The writers about to take a range. */
  function Allotting(writers: map<nat, Writer>): set<nat> {
    set p | p in writers && writers[p].pc == LockTaken
  }

  /** However these writers go on, no allotCursor passes 2^32. */
  ghost predicate Room(s: State) {
    forall i :: 0 <= i < |s.slots| ==> s.slots[i].allot + BUFFER * |Allotting(s.writers)| <= TWO32
  }

  /** The next step of a writer inside the lock. */
  function NextOfWriter(w: Writer, p: nat): Step
    requires Busy(w)
  {
    match w.pc
    case LockTaken => Allot(p)
    case RangeTaken =>
      if Fits(w) then CopyFrame(p) else if RangeStart(w) > BUFFER then Bounce(p) else Swap(p)
    case FrameCopied => Commit(p)
    case RangeCommitted => Unlock(p)
    case LockReleased => Finish(p)
    case SlotSwapped => AfterSwap(p)
  }

  function Rank(pc: Pc): nat {
    match pc
    case LockTaken => 5
    case RangeTaken => 4
    case FrameCopied => 3
    case RangeCommitted => 2
    case LockReleased => 1
    case SlotSwapped => 1
    case AtLoop => 0
    case SlotLoaded => 0
  }

  lemma WriterEnabled(s: State, p: nat)
    requires Inv(s) && p in s.writers && Busy(s.writers[p])
    ensures Enabled(s, NextOfWriter(s.writers[p], p))
  {
    assert WriterOk(s.slots, p, s.writers[p]);
    assert SlotOk(s.slots[s.writers[p].slot]);
  }

  /** Only writer p has moved, one step closer to the end of its round. */
  ghost predicate OneMoved(before: map<nat, Writer>, after: map<nat, Writer>, p: nat) {
    && p in before
    && (p !in after ==> after == before - {p})
    && (p in after ==>
          && after == before[p := after[p]]
          && Rank(after[p].pc) < Rank(before[p].pc) && after[p].pc != LockTaken)
  }

  lemma WriterMoves(s: State, p: nat)
    requires p in s.writers && Busy(s.writers[p]) && Enabled(s, NextOfWriter(s.writers[p], p))
    ensures OneMoved(s.writers, Apply(s, NextOfWriter(s.writers[p], p)).writers, p)
  {
    if s.writers[p].pc == RangeTaken {
      RangeMoves(s, p);
    }
  }

  lemma RangeMoves(s: State, p: nat)
    requires p in s.writers && s.writers[p].pc == RangeTaken && Enabled(s, NextOfWriter(s.writers[p], p))
    ensures OneMoved(s.writers, Apply(s, NextOfWriter(s.writers[p], p)).writers, p)
  {
  }

  lemma WriterSets(before: map<nat, Writer>, after: map<nat, Writer>, p: nat)
    requires OneMoved(before, after, p) && Busy(before[p])
    ensures Allotting(after) == Allotting(before) - {p}
    ensures BusyOnes(after) ==
              if p in after && Busy(after[p]) then BusyOnes(before) else BusyOnes(before) - {p}
  {
  }

  /** Cursors only move by the frame of a writer that takes its range; new ones start at 0. */
  lemma WriterAllots(s: State, p: nat)
    requires p in s.writers && Busy(s.writers[p]) && Enabled(s, NextOfWriter(s.writers[p], p))
    ensures var w := s.writers[p];
            var u := Apply(s, NextOfWriter(w, p));
            forall i :: 0 <= i < |u.slots| ==>
              u.slots[i].allot <= (if i < |s.slots| then s.slots[i].allot else 0)
                                  + if w.pc == LockTaken then |w.frame| else 0
  {
  }

  lemma WriterFair(s: State, p: nat)
    requires Room(s) && p in s.writers && Busy(s.writers[p]) && |s.writers[p].frame| < BUFFER
    ensures Fair(s, NextOfWriter(s.writers[p], p))
  {
    if s.writers[p].pc == LockTaken {
      Without(Allotting(s.writers), p);
    }
  }

  lemma WriterRoom(s: State, p: nat)
    requires Room(s) && p in s.writers && Busy(s.writers[p]) && |s.writers[p].frame| < BUFFER
    requires Enabled(s, NextOfWriter(s.writers[p], p))
    ensures Room(Apply(s, NextOfWriter(s.writers[p], p)))
  {
    var u := Apply(s, NextOfWriter(s.writers[p], p));
    var n, m := |Allotting(s.writers)|, |Allotting(u.writers)|;
    WriterMoves(s, p);
    WriterSets(s.writers, u.writers, p);
    Without(Allotting(s.writers), p);
    assert m == n - if s.writers[p].pc == LockTaken then 1 else 0;
    forall i | 0 <= i < |u.slots|
      ensures u.slots[i].allot + BUFFER * m <= TWO32
    {
      WriterAllots(s, p);
      assert s.slots[if i < |s.slots| then i else s.current].allot + BUFFER * n <= TWO32;
    }
  }

  /** The round of a writer comes closer to its end, and everything else stays in order. */
  lemma SettleStep(s: State, p: nat)
    requires Inv(s) && Room(s) && p in BusyOnes(s.writers)
    ensures var step := NextOfWriter(s.writers[p], p);
            && Enabled(s, step) && Fair(s, step) && Inv(Apply(s, step)) && Room(Apply(s, step))
            && Accepted(s) <= Accepted(Apply(s, step))
            && OneMoved(s.writers, Apply(s, step).writers, p)
  {
    var step := NextOfWriter(s.writers[p], p);
    assert WriterOk(s.slots, p, s.writers[p]);
    WriterEnabled(s, p);
    WriterFair(s, p);
    WriterRoom(s, p);
    WriterMoves(s, p);
    StepInv(s, step);
    StepAccepted(s, step);
  }

  lemma Closer(before: map<nat, Writer>, after: map<nat, Writer>, p: nat)
    requires OneMoved(before, after, p) && p in BusyOnes(before)
    ensures if p in BusyOnes(after) then
              |BusyOnes(after)| == |BusyOnes(before)| && Rank(after[p].pc) < Rank(before[p].pc)
            else
              |BusyOnes(after)| < |BusyOnes(before)|
  {
    WriterSets(before, after, p);
    Without(BusyOnes(before), p);
  }

  /** Writers inside the lock can go on until they are out of it. */
  lemma {:induction false} SettleWriters(s: State, p: nat, calls: set<nat>)
    requires Inv(s) && Room(s) && calls <= Accepted(s)
    requires p in BusyOnes(s.writers) || BusyOnes(s.writers) == {}
    ensures Sends(s, calls)
    decreases |BusyOnes(s.writers)|, if p in s.writers then Rank(s.writers[p].pc) else 0
  {
    if BusyOnes(s.writers) == {} {
      SendJobs(s, 0, calls);
    } else {
      var step := NextOfWriter(s.writers[p], p);
      SettleStep(s, p);
      var u := Apply(s, step);
      Closer(s.writers, u.writers, p);
      var q := if p in BusyOnes(u.writers) then p else OneOf(BusyOnes(u.writers));
      SettleWriters(u, q, calls);
      Before(s, step, calls);
    }
  }

  ghost function OneOf(ps: set<nat>): (p: nat)
    ensures p in ps || ps == {}
  {
    if ps == {} then 0 else var p :| p in ps; p
  }

  lemma {:induction false} StillReachable(s: State, steps: seq<Step>, t: State)
    requires Reachable(s) && Path(s, steps, t)
    ensures Reachable(t)
    decreases |steps|
  {
    if steps != [] {
      var s0, before :| Init(s0) && Path(s0, before, s);
      PathExtend(s0, before, s, steps[0]);
      StillReachable(Apply(s, steps[0]), steps[1..], t);
    }
  }

  /**
   From every reachable state with allotCursor away from 2^32 some fair run returns nil to every call that has
   its range, and puts all of their frames on the wire.
   */
  lemma AcceptedCanBeSent(t: State)
    requires Reachable(t) && Room(t)
    ensures Sends(t, Accepted(t)) && t.returned <= Accepted(t)
  {
    ReachableInv(t);
    assert forall c :: c in t.returned ==> ReturnedPlaced(t.writers, t.place, c);
    SettleWriters(t, OneOf(BusyOnes(t.writers)), Accepted(t));
  }
}
