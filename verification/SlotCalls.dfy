/**
 What replacing a full slot is for: calls of WriteFrameDataToCache that return nil by their own steps, without
 any worker.
 */
module SlotCalls {
  import opened Bits
  import opened FrameCodec
  import opened SlotProtocol
  import opened SlotInvariant
  import opened SlotSafety
  import opened SlotTheorems
  import opened SlotLateLock
  import opened SlotProgress

  // ---------- the slot behind wSlot ----------

  /** The writer whose range crossed the boundary leaves another slot behind wSlot, a new one if nobody else did. */
  lemma SwapReplaces(s: State, p: nat)
    requires Inv(s) && Enabled(s, Swap(p))
    ensures var t := Apply(s, Swap(p));
            && t.current < |t.slots| && t.current != s.writers[p].slot
            && (s.current == s.writers[p].slot ==> t.current == |s.slots| && t.slots == s.slots + [NewSlot()])
            && (s.current != s.writers[p].slot ==> t.current == s.current && t.slots == s.slots)
  {
  }

  /** Writer q's range crossed the boundary of slot i, and it is about to replace the slot. */
  predicate Crosses(s: State, q: nat, i: nat) {
    At(s, q, RangeTaken) && s.writers[q].slot == i && s.writers[q].end > BUFFER && RangeStart(s.writers[q]) <= BUFFER
  }

  /** The current slot has space, or one of its writers is about to replace it. */
  ghost predicate OpenOrReplaced(s: State) {
    s.current < |s.slots| && (s.slots[s.current].allot <= BUFFER || exists q :: Crosses(s, q, s.current))
  }

  lemma AllotCrosses(s: State, p: nat)
    requires Enabled(s, Allot(p)) && AllotBelow(s, p) && s.slots[s.writers[p].slot].allot <= BUFFER
    ensures var t := Apply(s, Allot(p));
            t.slots[s.writers[p].slot].allot > BUFFER ==> Crosses(t, p, s.writers[p].slot)
  {
    RangeOf(s.writers[p], s.slots[s.writers[p].slot].allot);
  }

  /** A writer that crossed stays there until it swaps. */
  lemma CrosserStays(s: State, step: Step, q: nat, i: nat)
    requires Enabled(s, step) && Crosses(s, q, i) && step != Swap(q)
    ensures Crosses(Apply(s, step), q, i)
  {
  }

  lemma StepOpen(s: State, step: Step)
    requires OpenOrReplaced(s) && Enabled(s, step) && Fair(s, step)
    ensures OpenOrReplaced(Apply(s, step))
  {
    var t := Apply(s, step);
    if s.slots[s.current].allot <= BUFFER {
      if step.Allot? && s.writers[step.p].slot == s.current {
        AllotCrosses(s, step.p);
      }
    } else {
      var q :| Crosses(s, q, s.current);
      if step != Swap(q) {
        CrosserStays(s, step, q, s.current);
      }
    }
  }

  lemma {:induction false} PathOpen(s: State, steps: seq<Step>, t: State)
    requires OpenOrReplaced(s) && Path(s, steps, t)
    ensures OpenOrReplaced(t)
    decreases |steps|
  {
    if steps != [] {
      StepOpen(s, steps[0]);
      PathOpen(Apply(s, steps[0]), steps[1..], t);
    }
  }

  /** In every reachable state the current slot has space, or a writer is about to replace it. */
  lemma FullIsReplaced(t: State)
    requires Reachable(t)
    ensures t.current < |t.slots|
    ensures t.slots[t.current].allot > BUFFER ==> exists q :: Crosses(t, q, t.current) && Enabled(t, Swap(q))
  {
    var s, steps :| Init(s) && Path(s, steps, t);
    PathOpen(s, steps, t);
  }

  // ---------- a call by its own steps ----------

  predicate OwnStep(step: Step, p: nat) {
    || step == Load(p) || step == Lock(p) || step == Allot(p) || step == Bounce(p) || step == Swap(p)
    || step == AfterSwap(p) || step == CopyFrame(p) || step == Commit(p) || step == Unlock(p) || step == Finish(p)
  }

  /** Steps of writer p alone make call c return nil. */
  ghost predicate ReturnsByItself(s: State, p: nat, c: nat) {
    exists steps, t ::
      && Path(s, steps, t) && (forall i :: 0 <= i < |steps| ==> OwnStep(steps[i], p)) && c in t.returned
  }

  lemma OwnFirst(s: State, step: Step, p: nat, c: nat)
    requires Enabled(s, step) && Fair(s, step) && OwnStep(step, p) && ReturnsByItself(Apply(s, step), p, c)
    ensures ReturnsByItself(s, p, c)
  {
    var steps, t :| Path(Apply(s, step), steps, t) && (forall i :: 0 <= i < |steps| ==> OwnStep(steps[i], p))
                    && c in t.returned;
    assert ([step] + steps)[1..] == steps;
    assert Path(s, [step] + steps, t);
  }

  lemma OwnLast(s: State, p: nat)
    requires Enabled(s, Finish(p))
    ensures ReturnsByItself(s, p, s.writers[p].ticket)
  {
    var step, t := Finish(p), Apply(s, Finish(p));
    assert Path(t, [], t);
    assert [step][1..] == [];
    assert Path(s, [step], t);
    assert forall i :: 0 <= i < |[step]| ==> OwnStep([step][i], p);
  }

  /** Nothing can hold up writer p, with this much allotted of the current slot. */
  predicate Unhindered(s: State, w: Writer)
    requires s.current < |s.slots|
  {
    var open := s.slots[s.current].allot <= BUFFER;
    match w.pc
    case AtLoop => open
    case SlotSwapped => open
    case SlotLoaded => open && w.slot == s.current
    case LockTaken => open && w.slot == s.current
    case RangeTaken => Fits(w) || (w.end > BUFFER && RangeStart(w) <= BUFFER && (w.slot == s.current || open))
    case _ => true
  }

  function NextOf(w: Writer, p: nat): Step {
    if w.pc == AtLoop then Load(p) else if w.pc == SlotLoaded then Lock(p) else NextOfWriter(w, p)
  }

  /** Another round is needed if the current slot has no space for the frame. */
  function Distance(s: State, w: Writer): nat
    requires s.current < |s.slots|
  {
    var again := if s.slots[s.current].allot + |w.frame| > BUFFER then 10 else 0;
    match w.pc
    case AtLoop => 7 + again
    case SlotLoaded => 6 + again
    case LockTaken => 5 + again
    case SlotSwapped => 8 + again
    case RangeTaken => if Fits(w) then 4 else if w.slot == s.current then 9 else 9 + again
    case FrameCopied => 3
    case RangeCommitted => 2
    case LockReleased => 1
  }

  /** Writer p has come closer to its return. */
  predicate Closer(s: State, t: State, p: nat) {
    && s.current < |s.slots| && t.current < |t.slots| && p in s.writers && p in t.writers
    && t.writers[p].ticket == s.writers[p].ticket && Unhindered(t, t.writers[p])
    && Distance(t, t.writers[p]) < Distance(s, s.writers[p])
  }

  lemma LoopCloser(s: State, p: nat)
    requires s.current < |s.slots| && p in s.writers && Unhindered(s, s.writers[p])
    requires Enabled(s, NextOf(s.writers[p], p))
    requires s.writers[p].pc == AtLoop || s.writers[p].pc == SlotLoaded || s.writers[p].pc == SlotSwapped
    ensures Closer(s, Apply(s, NextOf(s.writers[p], p)), p)
  {
  }

  lemma AllotCloser(s: State, p: nat)
    requires Enabled(s, Allot(p)) && Unhindered(s, s.writers[p]) && |s.writers[p].frame| < BUFFER
    ensures Closer(s, Apply(s, Allot(p)), p)
  {
    RangeOf(s.writers[p], s.slots[s.writers[p].slot].allot);
  }

  lemma SwapCloser(s: State, p: nat)
    requires Enabled(s, Swap(p)) && Unhindered(s, s.writers[p]) && |s.writers[p].frame| < BUFFER
    ensures Closer(s, Apply(s, Swap(p)), p)
  {
  }

  lemma ClaimCloser(s: State, p: nat)
    requires s.current < |s.slots| && p in s.writers && HasClaim(s.writers[p]) && s.writers[p].pc != LockReleased
    requires Enabled(s, NextOf(s.writers[p], p))
    ensures Closer(s, Apply(s, NextOf(s.writers[p], p)), p)
  {
  }

  lemma NextEnabled(s: State, p: nat)
    requires Inv(s) && p in s.writers && Unhindered(s, s.writers[p])
    ensures Enabled(s, NextOf(s.writers[p], p)) && Fair(s, NextOf(s.writers[p], p)) && |s.writers[p].frame| < BUFFER
  {
    assert WriterOk(s.slots, p, s.writers[p]);
    if Busy(s.writers[p]) {
      WriterEnabled(s, p);
    }
  }

  lemma NextCloser(s: State, p: nat)
    requires Inv(s) && p in s.writers && Unhindered(s, s.writers[p]) && s.writers[p].pc != LockReleased
    ensures Enabled(s, NextOf(s.writers[p], p)) && Fair(s, NextOf(s.writers[p], p))
    ensures Closer(s, Apply(s, NextOf(s.writers[p], p)), p)
  {
    var w := s.writers[p];
    NextEnabled(s, p);
    if HasClaim(w) {
      ClaimCloser(s, p);
    } else if w.pc == LockTaken {
      AllotCloser(s, p);
    } else if w.pc == RangeTaken {
      SwapCloser(s, p);
    } else {
      LoopCloser(s, p);
    }
  }

  lemma {:induction false} ReturnOwn(s: State, p: nat)
    requires Inv(s) && p in s.writers && Unhindered(s, s.writers[p])
    ensures ReturnsByItself(s, p, s.writers[p].ticket)
    decreases if s.current < |s.slots| && p in s.writers then Distance(s, s.writers[p]) else 0
  {
    var w := s.writers[p];
    if w.pc == LockReleased {
      NextEnabled(s, p);
      OwnLast(s, p);
    } else {
      NextCloser(s, p);
      var step := NextOf(w, p);
      StepInv(s, step);
      ReturnOwn(Apply(s, step), p);
      OwnFirst(s, step, p, w.ticket);
    }
  }

  // ---------- and when it cannot ----------

  /** The current slot is full, and call c finds nothing but that. */
  ghost predicate ShutOut(s: State, p: nat, c: nat) {
    && s.current < |s.slots| && s.slots[s.current].allot > BUFFER && c !in s.returned
    && (p in s.writers ==>
          var w := s.writers[p];
          && w.ticket == c
          && match w.pc
             case AtLoop => true
             case SlotSwapped => true
             case SlotLoaded => w.slot == s.current
             case LockTaken => w.slot == s.current
             case RangeTaken => w.slot == s.current && w.end > BUFFER && RangeStart(w) > BUFFER
             case _ => false)
  }

  lemma StepShutOut(s: State, step: Step, p: nat, c: nat)
    requires ShutOut(s, p, c) && Enabled(s, step) && Fair(s, step) && OwnStep(step, p)
    ensures ShutOut(Apply(s, step), p, c)
  {
    if step.Allot? {
      RangeOf(s.writers[p], s.slots[s.current].allot);
    }
  }

  lemma {:induction false} PathShutOut(s: State, steps: seq<Step>, t: State, p: nat, c: nat)
    requires ShutOut(s, p, c) && Path(s, steps, t) && forall i :: 0 <= i < |steps| ==> OwnStep(steps[i], p)
    ensures c !in t.returned
    decreases |steps|
  {
    if steps != [] {
      assert OwnStep(steps[0], p);
      StepShutOut(s, steps[0], p, c);
      PathShutOut(Apply(s, steps[0]), steps[1..], t, p, c);
    }
  }

  /** At the head of the loop, or about to come back to it after a swap. */
  predicate AtHead(s: State, p: nat) {
    p in s.writers && (s.writers[p].pc == AtLoop || s.writers[p].pc == SlotSwapped)
  }

  /**
   A call that looks for a slot returns nil by its own steps, whether its frame still fits into the current
   slot or crosses its boundary, if and only if no range has crossed that boundary yet.
   */
  lemma ReturnsByItselfIff(t: State, p: nat)
    requires Reachable(t) && AtHead(t, p)
    ensures t.current < |t.slots|
    ensures ReturnsByItself(t, p, t.writers[p].ticket) <==> t.slots[t.current].allot <= BUFFER
  {
    ReachableInv(t);
    var c := t.writers[p].ticket;
    if t.slots[t.current].allot <= BUFFER {
      ReturnOwn(t, p);
    } else {
      ReturnedApart(t, p, c);
      forall steps, u | Path(t, steps, u) && forall i :: 0 <= i < |steps| ==> OwnStep(steps[i], p)
        ensures c !in u.returned
      {
        PathShutOut(t, steps, u, p, c);
      }
    }
  }

  /** So a new call returns nil by its own steps, with its frame in a batch, exactly as long as that is so. */
  lemma NewCallReturnsIff(s: State, p: nat, frame: Bytes)
    requires Reachable(s) && p !in s.writers && HEAD <= |frame| < BUFFER
    ensures Enabled(s, Call(p, frame))
    ensures var t := Apply(s, Call(p, frame));
            && t.calls == s.calls + [frame]
            && (ReturnsByItself(t, p, |s.calls|) <==> s.slots[s.current].allot <= BUFFER)
  {
    ReachableInv(s);
    var s0, steps :| Init(s0) && Path(s0, steps, s);
    PathExtend(s0, steps, s, Call(p, frame));
    ReturnsByItselfIff(Apply(s, Call(p, frame)), p);
  }

  /** After the swap every call that looks for a slot, the swapper's included, returns nil by its own steps. */
  lemma SwapReturns(s: State, q: nat, p: nat)
    requires Inv(s) && Enabled(s, Swap(q)) && s.current == s.writers[q].slot && (AtHead(s, p) || p == q)
    ensures p in s.writers && ReturnsByItself(Apply(s, Swap(q)), p, s.writers[p].ticket)
  {
    SwapReplaces(s, q);
    StepInv(s, Swap(q));
    ReturnOwn(Apply(s, Swap(q)), p);
  }

  /** So a writer that replaces a full slot returns nil by its own steps. */
  lemma SwapperReturns(t: State, p: nat)
    requires Reachable(t) && Enabled(t, Swap(p)) && t.current == t.writers[p].slot
    ensures ReturnsByItself(Apply(t, Swap(p)), p, t.writers[p].ticket)
  {
    ReachableInv(t);
    SwapReturns(t, p, p);
  }

  /** And behind a full slot one step of another writer, its swap, is enough for a call; no worker has to run. */
  lemma ReturnsAfterSwap(t: State, p: nat) returns (q: nat)
    requires Reachable(t) && AtHead(t, p)
    ensures || ReturnsByItself(t, p, t.writers[p].ticket)
            || (q != p && Enabled(t, Swap(q)) && ReturnsByItself(Apply(t, Swap(q)), p, t.writers[p].ticket))
  {
    FullIsReplaced(t);
    ReturnsByItselfIff(t, p);
    q := 0;
    if t.slots[t.current].allot > BUFFER {
      q :| Crosses(t, q, t.current) && Enabled(t, Swap(q));
      ReachableInv(t);
      SwapReturns(t, q, p);
    }
  }

  // ---------- calls that give up ----------

  /** Caller p's rounds beyond the boundary since its call or its last swap, when it had n of them before. */
  function Bounces(n: nat, steps: seq<Step>, p: nat): nat
    decreases |steps|
  {
    if steps == [] then n else Bounces(OneMore(n, steps[0], p), steps[1..], p)
  }

  function OneMore(n: nat, step: Step, p: nat): nat {
    match step
    case Bounce(q) => if q == p then n + 1 else n
    case AfterSwap(q) => if q == p then 0 else n
    case Call(q, _) => if q == p then 0 else n
    case _ => n
  }

  lemma {:induction false} BusyIsBounces(s: State, steps: seq<Step>, t: State, p: nat, n: nat)
    requires Path(s, steps, t) && (p in s.writers ==> s.writers[p].busy == n)
    ensures t.busyLimit == s.busyLimit && (p in t.writers ==> t.writers[p].busy == Bounces(n, steps, p))
    decreases |steps|
  {
    if steps != [] {
      var u := Apply(s, steps[0]);
      BusyIsBounces(u, steps[1..], t, p, OneMore(n, steps[0], p));
    }
  }

  /** A call gives up at its round number busyLimit + 2 beyond the boundary since its last swap, and only then. */
  lemma GivesUpIff(s: State, steps: seq<Step>, t: State, p: nat)
    requires Init(s) && Path(s, steps, t) && p in t.writers
    ensures Enabled(t, Bounce(p)) ==>
              (p !in Apply(t, Bounce(p)).writers <==> Bounces(0, steps + [Bounce(p)], p) >= t.busyLimit + 2)
    ensures forall step :: Enabled(t, step) && step != Bounce(p) && step != Finish(p) ==> p in Apply(t, step).writers
  {
    BusyIsBounces(s, steps, t, p, 0);
    BouncesSnoc(0, steps, p);
  }

  lemma {:induction false} BouncesSnoc(n: nat, steps: seq<Step>, p: nat)
    ensures Bounces(n, steps + [Bounce(p)], p) == Bounces(n, steps, p) + 1
    decreases |steps|
  {
    if steps == [] {
      assert ([] + [Bounce(p)])[1..] == [];
    } else {
      assert (steps + [Bounce(p)])[1..] == steps[1..] + [Bounce(p)];
      BouncesSnoc(OneMore(n, steps[0], p), steps[1..], p);
    }
  }
}
