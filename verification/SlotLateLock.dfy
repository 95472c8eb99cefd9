/**
 What the gap between loading wSlot and incrementing writeLock costs. A frame that was accepted can be
 missing from its batch exactly if a count is incremented unsafely: after the worker has seen it at 0,
 on a slot that still has space for the frame.
 */
module SlotLateLock {
  import opened Bits
  import opened Slices
  import opened FrameCodec
  import opened SlotProtocol
  import opened SlotInvariant
  import opened SlotSafety
  import opened SlotTheorems

  // ---------- lost frames ----------

  /** The batch has the frame of the claim in the claim's range. */
  predicate Carries(batch: Bytes, c: Claim) {
    c.End() <= |batch| && batch[c.start..c.End()] == c.frame
  }

  /** Call c returned nil, its slot has been sent, and the batch that was sent does not carry its frame. */
  ghost predicate Lost(t: State, c: nat) {
    c in t.returned && |t.wire| == |t.sent| &&
    exists n: nat, k: nat ::
      n < |t.sent| && FrameAt(t, c, t.sent[n], k) && !Carries(t.wire[n], t.slots[t.sent[n]].claims[k])
  }

  /** The frames of tiling claims lie in their concatenation where the claims say. */
  lemma {:induction false} FrameInBatch(claims: seq<Claim>, from: nat, to: nat, k: nat)
    requires Tiled(claims, from, to) && k < |claims|
    ensures from <= claims[k].start && claims[k].End() <= to && |Flatten(Frames(claims))| == to - from
    ensures Flatten(Frames(claims))[claims[k].start - from..claims[k].End() - from] == claims[k].frame
    decreases |claims|
  {
    BatchLength(claims, from, to);
    var c, rest := claims[0], claims[1..];
    BatchLength(rest, c.End(), to);
    assert Frames(claims)[1..] == Frames(rest);
    if k > 0 {
      FrameInBatch(rest, c.End(), to, k - 1);
      SliceBehind(c.frame, Flatten(Frames(rest)), claims[k].start - c.End(), claims[k].End() - c.End());
    }
  }

  lemma SliceBehind(a: Bytes, b: Bytes, lo: nat, hi: nat)
    requires lo <= hi <= |b|
    ensures (a + b)[|a| + lo..|a| + hi] == b[lo..hi]
  {
  }

  lemma {:induction false} BatchLength(claims: seq<Claim>, from: nat, to: nat)
    requires Tiled(claims, from, to)
    ensures from <= to && |Flatten(Frames(claims))| == to - from
    decreases |claims|
  {
    if claims != [] {
      BatchLength(claims[1..], claims[0].End(), to);
      assert Frames(claims)[1..] == Frames(claims[1..]);
    }
  }

  /** As long as every lock is safe, no frame is lost. */
  lemma NothingLost(t: State, c: nat)
    requires Inv(t)
    ensures !Lost(t, c)
  {
    forall n: nat, k: nat | n < |t.sent| && FrameAt(t, c, t.sent[n], k)
      ensures Carries(t.wire[n], t.slots[t.sent[n]].claims[k])
    {
      var slot := t.slots[t.sent[n]];
      assert SlotOk(slot);
      FrameInBatch(slot.claims, 0, Total(slot.claims), k);
    }
  }

  // ---------- one writer to its end ----------

  /** Writer p, at pc, works on the last claim c of its slot, above the claims before it. */
  ghost predicate Working(s: State, p: nat, pc: Pc, claims: seq<Claim>, c: Claim) {
    && s.current < |s.slots| && At(s, p, pc) && HEAD <= |c.frame| && c.End() <= BUFFER
    && (forall k :: 0 <= k < |claims| ==> claims[k].End() <= c.start)
    && (var w := s.writers[p];
        && w.ticket == c.ticket && w.frame == c.frame && w.end == c.End()
        && |s.slots[w.slot].buf| == BUFFER && s.slots[w.slot].claims == claims + [c])
  }

  /** Nothing a reader of the wire can see has changed. */
  ghost predicate Unsent(s: State, t: State) {
    t.wire == s.wire && t.sent == s.sent && t.returned == s.returned && |t.slots| == |s.slots|
  }

  lemma StageLast(claims: seq<Claim>, c: Claim, stage: Stage)
    requires HEAD <= |c.frame| && forall k :: 0 <= k < |claims| ==> claims[k].End() <= c.start
    ensures Staged(claims + [c], c.End(), stage) == claims + [c.(stage := stage)]
  {
  }

  lemma WorkCopy(s: State, p: nat, claims: seq<Claim>, c: Claim)
    requires Working(s, p, RangeTaken, claims, c)
    ensures Enabled(s, CopyFrame(p))
    ensures var t := Apply(s, CopyFrame(p));
            && Working(t, p, FrameCopied, claims, c.(stage := Written)) && Unsent(s, t)
            && t.writers[p].slot == s.writers[p].slot
  {
    StageLast(claims, c, Written);
  }

  lemma WorkCommit(s: State, p: nat, claims: seq<Claim>, c: Claim)
    requires Working(s, p, FrameCopied, claims, c)
    ensures Enabled(s, Commit(p))
    ensures var t := Apply(s, Commit(p));
            && Working(t, p, RangeCommitted, claims, c.(stage := Committed)) && Unsent(s, t)
            && t.writers[p].slot == s.writers[p].slot
  {
    StageLast(claims, c, Committed);
  }

  lemma WorkUnlock(s: State, p: nat, claims: seq<Claim>, c: Claim)
    requires Working(s, p, RangeCommitted, claims, c)
    ensures Enabled(s, Unlock(p))
    ensures var t := Apply(s, Unlock(p));
            && Working(t, p, LockReleased, claims, c) && Unsent(s, t)
            && t.writers[p].slot == s.writers[p].slot
  {
  }

  /** Whatever the lock, a writer with a range returns nil with its frame committed. */
  lemma WorkThrough(s0: State, s: State, p: nat, claims: seq<Claim>, c: Claim) returns (t: State)
    requires Leads(s0, s) && Working(s, p, RangeTaken, claims, c)
    ensures Leads(s0, t) && t.wire == s.wire && t.sent == s.sent && |t.slots| == |s.slots|
    ensures t.returned == s.returned + {c.ticket}
    ensures t.slots[s.writers[p].slot].claims == claims + [c.(stage := Committed)]
  {
    WorkCopy(s, p, claims, c);
    var s1 := Advance(s0, s, CopyFrame(p));
    WorkCommit(s1, p, claims, c.(stage := Written));
    var s2 := Advance(s0, s1, Commit(p));
    WorkUnlock(s2, p, claims, c.(stage := Committed));
    var s3 := Advance(s0, s2, Unlock(p));
    t := Advance(s0, s3, Finish(p));
  }

  // ---------- runs ----------

  ghost predicate Leads(s: State, t: State) {
    exists steps :: Path(s, steps, t)
  }

  lemma {:induction false} PathExtend(s: State, steps: seq<Step>, t: State, step: Step)
    requires Path(s, steps, t) && Enabled(t, step) && Fair(t, step)
    ensures Path(s, steps + [step], Apply(t, step))
    decreases |steps|
  {
    if steps == [] {
      assert ([] + [step])[1..] == [];
    } else {
      PathExtend(Apply(s, steps[0]), steps[1..], t, step);
      assert (steps + [step])[1..] == steps[1..] + [step];
    }
  }

  lemma Stay(s: State)
    ensures Leads(s, s)
  {
    assert Path(s, [], s);
  }

  lemma Advance(s0: State, s: State, step: Step) returns (t: State)
    requires Leads(s0, s) && Enabled(s, step) && Fair(s, step)
    ensures Leads(s0, t) && t == Apply(s, step)
  {
    var steps :| Path(s0, steps, s);
    PathExtend(s0, steps, s, step);
    t := Apply(s, step);
  }

  // ---------- the exact condition ----------

  /** The claim an allotment inside the buffer makes. */
  function NewClaim(s: State, p: nat): Claim
    requires p in s.writers && s.writers[p].slot < |s.slots|
  {
    Claim(s.writers[p].ticket, s.slots[s.writers[p].slot].allot, s.writers[p].frame, p, Allotted)
  }

  /** Slot i has been sent, and its batch is as long as all of its claims so far. */
  ghost predicate SentWhole(t: State, i: nat, length: nat) {
    |t.wire| == |t.sent| && exists n :: 0 <= n < |t.sent| && t.sent[n] == i && |t.wire[n]| == length
  }

  /** With the count incremented too late, the worker can still have the slot sent before anything else. */
  lemma SendFirst(s: State, p: nat, k: nat) returns (u: State)
    requires Inv(s) && Enabled(s, Lock(p)) && k < |s.jobs| && Past(s.jobs[k]) && s.jobs[k].slot == s.writers[p].slot
    ensures var s1 := Apply(s, Lock(p));
            && Leads(s1, u) && u.current < |u.slots| && At(u, p, LockTaken) && u.writers == s1.writers
            && u.slots == s1.slots && u.returned == s1.returned
    ensures var slot := s.slots[s.writers[p].slot];
            SentWhole(u, s.writers[p].slot, Total(slot.claims)) && SlotOk(slot)
  {
    var s1 := Apply(s, Lock(p));
    PastIsSettled(s, k);
    if s.jobs[k].phase == Drained {
      BatchOf(s.slots[s.jobs[k].slot]);
      QueuedHasClaim(s, k);
      u := SendNow(s1, k);
    } else {
      Stay(s1);
      u := s1;
      WasSent(s, k);
    }
  }

  lemma SendNow(s: State, k: nat) returns (u: State)
    requires s.current < |s.slots| && k < |s.jobs| && s.jobs[k].phase == Drained && s.jobs[k].slot < |s.slots|
    requires var slot := s.slots[s.jobs[k].slot]; HEAD <= slot.avail <= |slot.buf| && |s.wire| == |s.sent|
    ensures Leads(s, u) && u.current < |u.slots| && u.writers == s.writers && u.slots == s.slots
    ensures u.returned == s.returned && SentWhole(u, s.jobs[k].slot, s.slots[s.jobs[k].slot].avail)
  {
    Stay(s);
    u := Advance(s, s, Send(k));
    assert u.sent[|s.sent|] == s.jobs[k].slot && |u.wire[|s.sent|]| == s.slots[s.jobs[k].slot].avail;
  }

  lemma WasSent(s: State, k: nat)
    requires Inv(s) && k < |s.jobs| && s.jobs[k].phase == Sent
    ensures s.jobs[k].slot < |s.slots|
    ensures SentWhole(s, s.jobs[k].slot, Total(s.slots[s.jobs[k].slot].claims))
  {
    var i := s.jobs[k].slot;
    assert i in s.sent;
    var n :| 0 <= n < |s.sent| && s.sent[n] == i;
    assert SlotOk(s.slots[i]);
    BatchLength(s.slots[i].claims, 0, Total(s.slots[i].claims));
  }

  /** The late writer's range. */
  lemma LateRange(u: State, p: nat)
    requires u.current < |u.slots| && At(u, p, LockTaken) && HEAD <= |u.writers[p].frame|
    requires var slot := u.slots[u.writers[p].slot];
             && |slot.buf| == BUFFER && slot.allot + |u.writers[p].frame| <= BUFFER
             && Tiled(slot.claims, 0, slot.allot)
    ensures Enabled(u, Allot(p)) && Fair(u, Allot(p))
    ensures var t := Apply(u, Allot(p));
            && Working(t, p, RangeTaken, u.slots[u.writers[p].slot].claims, NewClaim(u, p)) && Unsent(u, t)
            && t.writers[p].slot == u.writers[p].slot
  {
    var w := u.writers[p];
    RangeOf(w, u.slots[w.slot].allot);
    TiledOrdered(u.slots[w.slot].claims, 0, u.slots[w.slot].allot);
  }

  /** An unsafe lock: fair steps then return nil for a frame that is not in the batch of its slot. */
  lemma UnsafeLoses(s: State, p: nat) returns (t: State)
    requires Inv(s) && Enabled(s, Lock(p)) && !LockSafe(s, p)
    ensures Leads(Apply(s, Lock(p)), t) && Lost(t, s.writers[p].ticket)
  {
    var w := s.writers[p];
    assert WriterOk(s.slots, p, w);
    var k :| 0 <= k < |s.jobs| && s.jobs[k].slot == w.slot && Past(s.jobs[k]);
    var claims := s.slots[w.slot].claims;
    var s1 := Apply(s, Lock(p));
    var u := SendFirst(s, p, k);
    LateRange(u, p);
    var v := Advance(s1, u, Allot(p));
    t := WorkThrough(s1, v, p, claims, NewClaim(u, p));
    LateIsLost(t, w.slot, Total(claims), |claims|, w.ticket);
  }

  /** A claim that ends behind the batch of its slot is not in it. */
  lemma LateIsLost(t: State, i: nat, length: nat, x: nat, c: nat)
    requires SentWhole(t, i, length) && FrameAt(t, c, i, x) && t.slots[i].claims[x].End() > length
    requires c in t.returned
    ensures Lost(t, c)
  {
    var n :| 0 <= n < |t.sent| && t.sent[n] == i && |t.wire[n]| == length;
    assert FrameAt(t, c, t.sent[n], x) && !Carries(t.wire[n], t.slots[t.sent[n]].claims[x]);
  }

  /**
   Incrementing the count is safe if and only if, whatever fair steps follow, every accepted frame of a slot
   that was sent is in its batch.
   */
  lemma LockSafeIff(s: State, p: nat)
    requires Inv(s) && Enabled(s, Lock(p))
    ensures LockSafe(s, p) <==>
            forall t, c :: Leads(Apply(s, Lock(p)), t) ==> !Lost(t, c)
  {
    if LockSafe(s, p) {
      LockInv(s, p);
      forall t, c | Leads(Apply(s, Lock(p)), t)
        ensures !Lost(t, c)
      {
        var steps :| Path(Apply(s, Lock(p)), steps, t);
        PathInv(Apply(s, Lock(p)), steps, t);
        NothingLost(t, c);
      }
    } else {
      var t := UnsafeLoses(s, p);
    }
  }

  // ---------- an unsafe lock can happen ----------

  /** The only slot, with nothing on the wire. */
  ghost predicate OneSlot(s: State, slot: Slot, jobs: seq<Job>) {
    && |s.slots| == 1 && s.current == 0 && s.slots[0].(claims := []) == slot.(claims := [])
    && s.jobs == jobs && s.wire == [] && s.sent == []
  }

  /** A slot whose buffer begins with the given bytes and is untouched behind them. */
  function Filled(b: Bytes, allot: nat, avail: nat, lock: int): Slot
    requires |b| <= BUFFER
  {
    Slot(b + Zeros(BUFFER - |b|), allot, avail, lock, [], 0)
  }

  lemma FirstLocks(s: State, f: Bytes) returns (t: State)
    requires Init(s) && HEAD <= |f| < BUFFER
    ensures Leads(s, t) && OneSlot(t, Filled([], 0, 0, 1), []) && t.calls == [f]
    ensures t.writers.Keys == {1} && t.writers[1] == Writer(LockTaken, 0, f, 0, 0, 0)
  {
    assert [] + Zeros(BUFFER) == Zeros(BUFFER);
    Stay(s);
    var a := Advance(s, s, Call(1, f));
    assert a.writers[1] == Writer(AtLoop, 0, f, 0, 0, 0);
    var b := Advance(s, a, Load(1));
    assert b.writers[1] == Writer(SlotLoaded, 0, f, 0, 0, 0);
    t := Advance(s, b, Lock(1));
  }

  lemma FirstClaims(s: State, u: State, f: Bytes) returns (t: State)
    requires Leads(s, u) && OneSlot(u, Filled([], 0, 0, 1), []) && u.calls == [f] && HEAD <= |f| < BUFFER
    requires u.writers.Keys == {1} && u.writers[1] == Writer(LockTaken, 0, f, 0, 0, 0)
    ensures Leads(s, t) && OneSlot(t, Filled([], |f|, 0, 1), []) && t.calls == [f]
    ensures t.writers.Keys == {1} && t.writers[1] == Writer(RangeTaken, 0, f, 0, 0, |f|)
  {
    RangeOf(u.writers[1], 0);
    t := Advance(s, u, Allot(1));
  }

  lemma FirstCommits(s: State, u: State, f: Bytes) returns (t: State)
    requires Leads(s, u) && HEAD <= |f| < BUFFER && OneSlot(u, Filled([], |f|, 0, 1), []) && u.calls == [f]
    requires u.writers.Keys == {1} && u.writers[1] == Writer(RangeTaken, 0, f, 0, 0, |f|)
    ensures Leads(s, t) && OneSlot(t, Filled(f, |f|, |f|, 1), []) && t.calls == [f]
    ensures t.writers.Keys == {1} && t.writers[1] == Writer(RangeCommitted, 0, f, 0, 0, |f|)
  {
    assert [] + Zeros(BUFFER) == Zeros(BUFFER);
    var a := Advance(s, u, CopyFrame(1));
    assert Zeros(BUFFER)[..0] + f + Zeros(BUFFER)[|f|..] == f + Zeros(BUFFER - |f|);
    assert a.writers[1] == Writer(FrameCopied, 0, f, 0, 0, |f|) && OneSlot(a, Filled(f, |f|, 0, 1), []);
    t := Advance(s, a, Commit(1));
  }

  lemma FirstReturns(s: State, u: State, f: Bytes) returns (t: State)
    requires Leads(s, u) && HEAD <= |f| < BUFFER && OneSlot(u, Filled(f, |f|, |f|, 1), []) && u.calls == [f]
    requires u.writers.Keys == {1} && u.writers[1] == Writer(RangeCommitted, 0, f, 0, 0, |f|)
    ensures Leads(s, t) && OneSlot(t, Filled(f, |f|, |f|, 0), [Job(0, Queued)]) && t.calls == [f]
    ensures t.writers.Keys == {}
  {
    var a := Advance(s, u, Unlock(1));
    assert a.writers[1] == Writer(LockReleased, 0, f, 0, 0, |f|) && OneSlot(a, Filled(f, |f|, |f|, 0), []);
    t := Advance(s, a, Finish(1));
  }

  /** Two more writers load the slot. */
  lemma TwoLoad(s: State, u: State, f: Bytes, g: Bytes, h: Bytes) returns (t: State)
    requires Leads(s, u) && HEAD <= |f| < BUFFER && HEAD <= |g| < BUFFER && HEAD <= |h| < BUFFER
    requires OneSlot(u, Filled(f, |f|, |f|, 0), [Job(0, Queued)]) && u.calls == [f] && u.writers.Keys == {}
    ensures Leads(s, t) && OneSlot(t, Filled(f, |f|, |f|, 0), [Job(0, Queued)]) && t.calls == [f, g, h]
    ensures t.writers.Keys == {2, 3}
    ensures t.writers[2] == Writer(SlotLoaded, 1, g, 0, 0, 0) && t.writers[3] == Writer(SlotLoaded, 2, h, 0, 0, 0)
  {
    var a := Advance(s, u, Call(2, g));
    var b := Advance(s, a, Load(2));
    assert b.writers.Keys == {2} && b.writers[2] == Writer(SlotLoaded, 1, g, 0, 0, 0);
    var c := Advance(s, b, Call(3, h));
    t := Advance(s, c, Load(3));
  }

  /** And then the worker swaps the slot out and finds its count at 0. */
  lemma ThenDrained(s: State, u: State, f: Bytes, g: Bytes, h: Bytes) returns (t: State)
    requires Leads(s, u) && |f| <= BUFFER
    requires OneSlot(u, Filled(f, |f|, |f|, 0), [Job(0, Queued)])
    ensures Leads(s, t) && t.writers == u.writers && t.calls == u.calls
    ensures t.current < |t.slots| == 2 && t.jobs == [Job(0, Drained)] && t.wire == [] && t.sent == []
    ensures t.slots[0] == u.slots[0]
  {
    var a := Advance(s, u, Detach(0));
    assert a.slots[0] == u.slots[0] && a.jobs == [Job(0, Detached)];
    t := Advance(s, a, Drain(0));
  }

  /** Slot 0 has been drained, and writers 2 and 3 have loaded it and come to their locks. */
  ghost predicate TwoLate(t: State, f: Bytes, g: Bytes, h: Bytes) {
    && t.calls == [f, g, h] && t.writers.Keys == {2, 3} && t.current < |t.slots| == 2 && |f| <= BUFFER
    && t.writers[2] == Writer(SlotLoaded, 1, g, 0, 0, 0) && t.writers[3] == Writer(SlotLoaded, 2, h, 0, 0, 0)
    && t.slots[0].(claims := []) == Filled(f, |f|, |f|, 0)
    && t.jobs == [Job(0, Drained)] && t.wire == []
  }

  /** From the start, fair steps lead to two writers whose locks are unsafe. */
  lemma LateLockHappens(s: State, f: Bytes, g: Bytes, h: Bytes) returns (t: State)
    requires Init(s) && HEAD <= |f| && HEAD <= |g| && HEAD <= |h| && |f| + |g| + |h| <= BUFFER
    ensures Reachable(t) && Inv(t) && TwoLate(t, f, g, h)
    ensures Enabled(t, Lock(2)) && !LockSafe(t, 2) && Enabled(t, Lock(3)) && !LockSafe(t, 3)
  {
    var z := FirstLocks(s, f);
    var a := FirstClaims(s, z, f);
    var y := FirstCommits(s, a, f);
    var b := FirstReturns(s, y, f);
    var c := TwoLoad(s, b, f, g, h);
    t := ThenDrained(s, c, f, g, h);
    assert t.slots[0].(claims := []) == Filled(f, |f|, |f|, 0);
    TwoUnsafe(t, f, g, h);
    var steps :| Path(s, steps, t);
    ReachableInv(t);
  }

  lemma TwoUnsafe(t: State, f: Bytes, g: Bytes, h: Bytes)
    requires TwoLate(t, f, g, h) && |f| + |g| + |h| <= BUFFER
    ensures Enabled(t, Lock(2)) && !LockSafe(t, 2) && Enabled(t, Lock(3)) && !LockSafe(t, 3)
  {
    assert t.slots[0].allot == t.slots[0].(claims := []).allot == |f|;
    assert t.jobs[0].slot == 0 && t.jobs[0].phase == Drained;
  }

  // ---------- bytes that no call wrote ----------

  /** A run of enabled steps; nothing is assumed about when locks are taken. */
  ghost predicate AnyPath(s: State, steps: seq<Step>, t: State)
    decreases |steps|
  {
    if steps == [] then s == t
    else Enabled(s, steps[0]) && AnyPath(Apply(s, steps[0]), steps[1..], t)
  }

  lemma {:induction false} AnyPathExtend(s: State, steps: seq<Step>, t: State, step: Step)
    requires AnyPath(s, steps, t) && Enabled(t, step)
    ensures AnyPath(s, steps + [step], Apply(t, step))
    decreases |steps|
  {
    if steps == [] {
      assert ([] + [step])[1..] == [];
    } else {
      AnyPathExtend(Apply(s, steps[0]), steps[1..], t, step);
      assert (steps + [step])[1..] == steps[1..] + [step];
    }
  }

  /** Two more steps of a run. */
  lemma TwoSteps(d: State, steps: seq<Step>, s: State, one: Step, two: Step)
    requires AnyPath(d, steps, s) && Enabled(s, one) && Enabled(Apply(s, one), two)
    ensures AnyPath(d, steps + [one, two], Apply(Apply(s, one), two))
  {
    AnyPathExtend(d, steps, s, one);
    AnyPathExtend(d, steps + [one], Apply(s, one), two);
    assert steps + [one] + [two] == steps + [one, two];
  }

  /** The slot's fields apart from its claims. */
  ghost predicate SlotIs(s: State, slot: Slot) {
    && s.current < |s.slots| && |s.slots| > 0 && |slot.buf| == BUFFER
    && s.slots[0].(claims := []) == slot.(claims := []) && s.jobs == [Job(0, Drained)] && s.wire == []
  }

  /** The count incremented and the range taken, by a writer that has loaded slot 0. */
  lemma LockAndAllot(d: State, steps: seq<Step>, s: State, p: nat, slot: Slot) returns (t: State)
    requires AnyPath(d, steps, s) && SlotIs(s, slot) && At(s, p, SlotLoaded) && s.writers[p].slot == 0
    requires slot.allot + |s.writers[p].frame| <= BUFFER
    ensures AnyPath(d, steps + [Lock(p), Allot(p)], t)
    ensures t.writers == s.writers[p := s.writers[p].(pc := RangeTaken, end := slot.allot + |s.writers[p].frame|)]
    ensures SlotIs(t, slot.(lock := slot.lock + 1, allot := slot.allot + |s.writers[p].frame|))
  {
    var a := Apply(s, Lock(p));
    RangeOf(a.writers[p], a.slots[0].allot);
    TwoSteps(d, steps, s, Lock(p), Allot(p));
    t := Apply(a, Allot(p));
  }

  function Copied(slot: Slot, at: nat, frame: Bytes): Slot
    requires at + |frame| <= |slot.buf|
  {
    slot.(avail := slot.avail + |frame|, buf := slot.buf[..at] + frame + slot.buf[at + |frame|..])
  }

  /** The frame copied and counted, by a writer of slot 0. */
  lemma CopyAndCommit(d: State, steps: seq<Step>, s: State, p: nat, slot: Slot) returns (t: State)
    requires AnyPath(d, steps, s) && SlotIs(s, slot) && At(s, p, RangeTaken) && s.writers[p].slot == 0
    requires |s.writers[p].frame| <= s.writers[p].end <= BUFFER
    ensures AnyPath(d, steps + [CopyFrame(p), Commit(p)], t)
    ensures SlotIs(t, Copied(slot, s.writers[p].end - |s.writers[p].frame|, s.writers[p].frame))
  {
    var a := Apply(s, CopyFrame(p));
    TwoSteps(d, steps, s, CopyFrame(p), Commit(p));
    t := Apply(a, Commit(p));
  }

  lemma SendBatch(d: State, steps: seq<Step>, s: State, slot: Slot) returns (t: State)
    requires AnyPath(d, steps, s) && SlotIs(s, slot) && HEAD <= slot.avail <= |slot.buf|
    ensures AnyPath(d, steps + [Send(0)], t) && t.wire == [slot.buf[..slot.avail]]
  {
    AnyPathExtend(d, steps, s, Send(0));
    t := Apply(s, Send(0));
  }

  /** A copy behind a gap leaves the gap as it was, and the count ends inside it. */
  lemma GapKept(f: Bytes, h: Bytes, at: nat, allot: nat)
    requires |f| + |h| <= at && at + |h| <= BUFFER
    ensures var slot := Copied(Filled(f, allot, |f|, 2), at, h);
            slot.avail <= |slot.buf| == BUFFER && slot.buf[..slot.avail] == f + Zeros(|h|)
  {
  }

  const UNWRITTEN: seq<Step> := [Lock(2), Allot(2), Lock(3), Allot(3), CopyFrame(3), Commit(3), Send(0)]

  /**
   Two unsafe locks before the batch is sent put bytes on the wire that no call wrote: the second writer
   counts its frame in before the first has copied its own, and the batch ends inside the first one's range.
   */
  lemma UnwrittenBytesSent(s: State, f: Bytes, g: Bytes, h: Bytes) returns (d: State, t: State)
    requires Init(s) && HEAD <= |f| && HEAD <= |h| <= |g| && |f| + |g| + |h| <= BUFFER
    ensures Reachable(d) && d.calls == [f, g, h]
    ensures AnyPath(d, UNWRITTEN, t) && t.wire == [f + Zeros(|h|)]
  {
    d := LateLockHappens(s, f, g, h);
    var b := TwoAllot(d, f, g, h);
    t := WithGap(d, UNWRITTEN[..4], b, f, g, h);
    UnwrittenSteps();
  }

  lemma TwoAllot(d: State, f: Bytes, g: Bytes, h: Bytes) returns (t: State)
    requires TwoLate(d, f, g, h) && |f| + |g| + |h| <= BUFFER
    ensures AnyPath(d, UNWRITTEN[..4], t)
    ensures SlotIs(t, Filled(f, |f| + |g| + |h|, |f|, 2))
    ensures 3 in t.writers && t.writers[3] == Writer(RangeTaken, 2, h, 0, 0, |f| + |g| + |h|)
  {
    assert AnyPath(d, [], d);
    var a := LockAndAllot(d, [], d, 2, Filled(f, |f|, |f|, 0));
    t := LockAndAllot(d, [] + [Lock(2), Allot(2)], a, 3, Filled(f, |f| + |g|, |f|, 1));
    assert [] + [Lock(2), Allot(2)] + [Lock(3), Allot(3)] == UNWRITTEN[..4];
  }

  lemma WithGap(d: State, steps: seq<Step>, b: State, f: Bytes, g: Bytes, h: Bytes) returns (t: State)
    requires HEAD <= |f| && HEAD <= |h| <= |g| && |f| + |g| + |h| <= BUFFER
    requires AnyPath(d, steps, b) && SlotIs(b, Filled(f, |f| + |g| + |h|, |f|, 2))
    requires 3 in b.writers && b.writers[3] == Writer(RangeTaken, 2, h, 0, 0, |f| + |g| + |h|)
    ensures AnyPath(d, steps + [CopyFrame(3), Commit(3)] + [Send(0)], t) && t.wire == [f + Zeros(|h|)]
  {
    var slot, at := Filled(f, |f| + |g| + |h|, |f|, 2), |f| + |g|;
    var c := CopyAndCommit(d, steps, b, 3, slot);
    GapKept(f, h, at, |f| + |g| + |h|);
    t := SendBatch(d, steps + [CopyFrame(3), Commit(3)], c, Copied(slot, at, h));
  }

  lemma UnwrittenSteps()
    ensures UNWRITTEN[..4] + [CopyFrame(3), Commit(3)] + [Send(0)] == UNWRITTEN
  {
  }
}
