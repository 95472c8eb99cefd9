/** The invariant of the slot protocol, and lemmas about its parts. */
module SlotInvariant {
  import opened Bits
  import opened Conver
  import opened Slices
  import opened FrameCodec
  import opened SlotProtocol

  // ---------- one slot ----------

  ghost predicate Tiled(claims: seq<Claim>, from: nat, to: nat) {
    if claims == [] then from == to
    else claims[0].start == from && HEAD <= |claims[0].frame| && Tiled(claims[1..], claims[0].End(), to)
  }

  function Frames(claims: seq<Claim>): seq<Bytes> {
    seq(|claims|, k requires 0 <= k < |claims| => claims[k].frame)
  }

  function Total(claims: seq<Claim>): nat {
    if claims == [] then 0 else |claims[0].frame| + Total(claims[1..])
  }

  function CommittedTotal(claims: seq<Claim>): nat {
    if claims == [] then 0
    else (if claims[0].stage == Committed then |claims[0].frame| else 0) + CommittedTotal(claims[1..])
  }

  ghost predicate ClaimInBuffer(buf: Bytes, c: Claim) {
    && HEAD <= |c.frame| < BUFFER
    && c.End() <= BUFFER == |buf|
    && (c.stage != Allotted ==> buf[c.start..c.End()] == c.frame)
  }

  /**
   The claims tile the front of the buffer, written ones are in place, availableCursor counts the
   committed bytes, and the boundary has been crossed at most once.
   */
  ghost predicate SlotOk(slot: Slot) {
    && |slot.buf| == BUFFER
    && Total(slot.claims) <= BUFFER
    && Tiled(slot.claims, 0, Total(slot.claims))
    && (slot.allot <= BUFFER ==> slot.allot == Total(slot.claims))
    && slot.crossings == (if slot.allot > BUFFER then 1 else 0)
    && slot.avail == CommittedTotal(slot.claims)
    && (slot.allot > 0 ==> slot.claims != [])
    && forall k :: 0 <= k < |slot.claims| ==> ClaimInBuffer(slot.buf, slot.claims[k])
  }

  ghost predicate Ordered(claims: seq<Claim>, from: nat, to: nat) {
    && (forall k :: 0 <= k < |claims| ==> from <= claims[k].start && claims[k].End() <= to)
    && (forall j, k :: 0 <= j < k < |claims| ==> claims[j].End() <= claims[k].start)
  }

  lemma {:induction false} TiledOrdered(claims: seq<Claim>, from: nat, to: nat)
    requires Tiled(claims, from, to)
    ensures from <= to && Ordered(claims, from, to)
    ensures claims != [] ==> claims[0].start == from
    decreases |claims|
  {
    if claims != [] {
      var rest := claims[1..];
      TiledOrdered(rest, claims[0].End(), to);
      assert forall k :: 1 <= k < |claims| ==> claims[k] == rest[k - 1];
    }
  }

  lemma {:induction false} TiledAppend(claims: seq<Claim>, from: nat, to: nat, c: Claim)
    requires Tiled(claims, from, to) && c.start == to && HEAD <= |c.frame|
    ensures Tiled(claims + [c], from, c.End())
    decreases |claims|
  {
    if claims == [] {
      assert (claims + [c])[1..] == [];
    } else {
      TiledAppend(claims[1..], claims[0].End(), to, c);
      assert (claims + [c])[1..] == claims[1..] + [c];
    }
  }

  lemma {:induction false} TotalsAppend(claims: seq<Claim>, c: Claim)
    ensures Total(claims + [c]) == Total(claims) + |c.frame|
    ensures c.stage != Committed ==> CommittedTotal(claims + [c]) == CommittedTotal(claims)
    decreases |claims|
  {
    if claims == [] {
      assert (claims + [c])[1..] == [];
    } else {
      TotalsAppend(claims[1..], c);
      assert (claims + [c])[1..] == claims[1..] + [c];
    }
  }

  /** Changing the stage of one claim moves no claim. */
  lemma {:induction false} StageKeepsTiling(claims: seq<Claim>, j: nat, stage: Stage, from: nat, to: nat)
    requires j < |claims| && Tiled(claims, from, to)
    ensures var claims' := claims[j := claims[j].(stage := stage)];
            Tiled(claims', from, to) && Total(claims') == Total(claims)
    decreases |claims|
  {
    var claims' := claims[j := claims[j].(stage := stage)];
    if j == 0 {
      assert claims'[1..] == claims[1..];
    } else {
      assert claims'[1..] == claims[1..][j - 1 := claims[1..][j - 1].(stage := stage)];
      StageKeepsTiling(claims[1..], j - 1, stage, claims[0].End(), to);
    }
  }

  lemma {:induction false} StageCommits(claims: seq<Claim>, j: nat, stage: Stage)
    requires j < |claims| && claims[j].stage != Committed
    ensures CommittedTotal(claims[j := claims[j].(stage := stage)])
         == CommittedTotal(claims) + if stage == Committed then |claims[j].frame| else 0
    decreases |claims|
  {
    var claims' := claims[j := claims[j].(stage := stage)];
    if j == 0 {
      assert claims'[1..] == claims[1..];
    } else {
      assert claims'[1..] == claims[1..][j - 1 := claims[1..][j - 1].(stage := stage)];
      StageCommits(claims[1..], j - 1, stage);
    }
  }

  /** Claims have distinct ends, so staging by end changes exactly one of them. */
  lemma StagedIsOne(claims: seq<Claim>, j: nat, stage: Stage, from: nat, to: nat)
    requires j < |claims| && Tiled(claims, from, to)
    requires forall k :: 0 <= k < |claims| ==> HEAD <= |claims[k].frame|
    ensures Staged(claims, claims[j].End(), stage) == claims[j := claims[j].(stage := stage)]
  {
    TiledOrdered(claims, from, to);
  }

  /** When every claim is committed the front of the buffer is the frames one after the other. */
  lemma {:induction false} CommittedContents(buf: Bytes, claims: seq<Claim>, from: nat, to: nat)
    requires Tiled(claims, from, to) && to <= |buf| == BUFFER
    requires forall k :: 0 <= k < |claims| ==> claims[k].stage == Committed && ClaimInBuffer(buf, claims[k])
    ensures from <= to && to - from == CommittedTotal(claims)
    ensures buf[from..to] == Flatten(Frames(claims))
    decreases |claims|
  {
    TiledOrdered(claims, from, to);
    if claims != [] {
      var c := claims[0];
      assert claims[0].End() <= to;
      CommittedContents(buf, claims[1..], c.End(), to);
      assert Frames(claims)[1..] == Frames(claims[1..]);
      assert buf[from..to] == buf[c.start..c.End()] + buf[c.End()..to];
    }
  }

  // ---------- writers ----------

  predicate Holds(w: Writer, i: nat) {
    && w.slot == i
    && (w.pc == LockTaken || w.pc == RangeTaken || w.pc == FrameCopied || w.pc == RangeCommitted || w.pc == SlotSwapped)
  }

  /** The writers counted by slot i's writeLock. */
  function Holders(writers: map<nat, Writer>, i: nat): set<nat> {
    set p | p in writers && Holds(writers[p], i)
  }

  lemma HoldersMove(writers: map<nat, Writer>, p: nat, w: Writer, i: nat)
    ensures var before := p in writers && Holds(writers[p], i);
            |Holders(writers[p := w], i)|
              == |Holders(writers, i)| + (if Holds(w, i) then 1 else 0) - (if before then 1 else 0)
  {
    OtherHolders(writers, p, w, i);
    Without(Holders(writers, i), p);
    Without(Holders(writers[p := w], i), p);
  }

  lemma OtherHolders(writers: map<nat, Writer>, p: nat, w: Writer, i: nat)
    ensures Holders(writers[p := w], i) - {p} == Holders(writers, i) - {p}
    ensures p in Holders(writers, i) <==> p in writers && Holds(writers[p], i)
    ensures p in Holders(writers[p := w], i) <==> Holds(w, i)
  {
  }

  lemma HoldersLeave(writers: map<nat, Writer>, p: nat, i: nat)
    requires p in writers
    ensures |Holders(writers - {p}, i)| == |Holders(writers, i)| - (if Holds(writers[p], i) then 1 else 0)
  {
    var a := Holders(writers, i);
    assert Holders(writers - {p}, i) == a - {p};
    Without(a, p);
  }

  lemma Without(a: set<nat>, p: nat)
    ensures |a - {p}| == |a| - if p in a then 1 else 0
  {
    if p !in a {
      assert a - {p} == a;
    }
  }

  /** The writer owns a claim: its range lies inside the buffer. */
  predicate HasClaim(w: Writer) {
    || (w.pc == RangeTaken && Fits(w))
    || w.pc == FrameCopied || w.pc == RangeCommitted || w.pc == LockReleased
  }

  function StageOf(pc: Pc): Stage {
    if pc == RangeTaken then Allotted else if pc == FrameCopied then Written else Committed
  }

  ghost predicate Owns(p: nat, w: Writer, c: Claim) {
    && HasClaim(w)
    && c.writer == p && c.ticket == w.ticket && c.frame == w.frame && c.End() == w.end && c.stage == StageOf(w.pc)
  }

  ghost predicate WriterOk(slots: seq<Slot>, p: nat, w: Writer) {
    && HEAD <= |w.frame| < BUFFER
    && (w.pc != AtLoop ==> w.slot < |slots|)
    && (w.pc == RangeTaken ==> |w.frame| <= w.end < TWO32)
    && (HasClaim(w) ==> exists k :: 0 <= k < |slots[w.slot].claims| && Owns(p, w, slots[w.slot].claims[k]))
  }

  ghost predicate WritersOk(slots: seq<Slot>, writers: map<nat, Writer>) {
    forall p :: p in writers ==> WriterOk(slots, p, writers[p])
  }

  ghost predicate ClaimOwned(writers: map<nat, Writer>, i: nat, c: Claim) {
    c.writer in writers && writers[c.writer].slot == i && Owns(c.writer, writers[c.writer], c)
  }

  /** Every claim that is not committed has its writer at work on it. */
  ghost predicate SlotOwned(writers: map<nat, Writer>, i: nat, slot: Slot) {
    forall k :: 0 <= k < |slot.claims| && slot.claims[k].stage != Committed ==> ClaimOwned(writers, i, slot.claims[k])
  }

  // ---------- the job queue ----------

  ghost predicate InQueue(jobs: seq<Job>, i: nat) {
    exists k :: 0 <= k < |jobs| && jobs[k].slot == i
  }

  /** A slot with claims is queued, or its first claimer has yet to queue it; never both. */
  ghost predicate QueueOk(writers: map<nat, Writer>, jobs: seq<Job>, i: nat, slot: Slot) {
    && (slot.claims == [] ==> !InQueue(jobs, i))
    && (slot.claims != [] ==> (InQueue(jobs, i) <==> !ClaimOwned(writers, i, slot.claims[0])))
  }

  ghost predicate JobsOk(slots: seq<Slot>, current: nat, jobs: seq<Job>) {
    && (forall k :: 0 <= k < |jobs| ==> jobs[k].slot < |slots|)
    && (forall j, k :: 0 <= j < k < |jobs| ==> jobs[j].slot != jobs[k].slot)
    && (forall k :: 0 <= k < |jobs| && jobs[k].phase != Queued ==> jobs[k].slot != current)
  }

  /** A writer counted by the slot that has no claim there and will get none. */
  predicate Shut(w: Writer, slot: Slot) {
    !HasClaim(w) && (w.pc == LockTaken ==> slot.allot + |w.frame| > BUFFER)
  }

  ghost predicate Settled(slot: Slot) {
    forall k :: 0 <= k < |slot.claims| ==> slot.claims[k].stage == Committed
  }

  /** All claims are committed, and no counted writer has or can get one. */
  ghost predicate ClosedSlot(writers: map<nat, Writer>, i: nat, slot: Slot) {
    Settled(slot) && forall p :: p in writers && Holds(writers[p], i) ==> Shut(writers[p], slot)
  }

  predicate Past(job: Job) {
    job.phase == Drained || job.phase == Sent
  }

  /** A worker has seen the slot's lock count at 0. */
  ghost predicate IsDrained(jobs: seq<Job>, i: nat) {
    exists k :: 0 <= k < |jobs| && jobs[k].slot == i && Past(jobs[k])
  }

  ghost predicate ClosedOk(slots: seq<Slot>, writers: map<nat, Writer>, jobs: seq<Job>) {
    forall i :: 0 <= i < |slots| && IsDrained(jobs, i) ==> ClosedSlot(writers, i, slots[i])
  }

  /** The wire holds one batch per sent slot: its frames in allotment order. */
  ghost predicate WireOk(slots: seq<Slot>, jobs: seq<Job>, wire: seq<Bytes>, sent: seq<nat>) {
    && |wire| == |sent|
    && (forall j :: 0 <= j < |sent| ==> sent[j] < |slots| && wire[j] == Flatten(Frames(slots[sent[j]].claims)))
    && (forall j, k :: 0 <= j < k < |sent| ==> sent[j] != sent[k])
    && (forall k :: 0 <= k < |jobs| ==> (jobs[k].phase == Sent <==> jobs[k].slot in sent))
    && (forall j :: 0 <= j < |sent| ==> InQueue(jobs, sent[j]))
  }

  // ---------- calls ----------

  /** The recorded place of a call is true of the slots and the writers. */
  ghost predicate PlaceTrue(slots: seq<Slot>, writers: map<nat, Writer>, t: nat, where: Place) {
    match where
    case Looking(p) => p in writers && writers[p].ticket == t && !HasClaim(writers[p])
    case InBatch(i, k) => i < |slots| && k < |slots[i].claims| && slots[i].claims[k].ticket == t
    case TurnedAway => forall p :: p in writers ==> writers[p].ticket != t
  }

  ghost predicate PlacesTrue(slots: seq<Slot>, writers: map<nat, Writer>, place: map<nat, Place>) {
    forall t :: t in place ==> PlaceTrue(slots, writers, t, place[t])
  }

  /** The claims of slot i hold the frames of their calls, and the calls are recorded there. */
  ghost predicate SlotPlaced(place: map<nat, Place>, calls: seq<Bytes>, i: nat, claims: seq<Claim>) {
    forall k :: 0 <= k < |claims| ==>
      && claims[k].ticket in place && place[claims[k].ticket] == InBatch(i, k)
      && claims[k].ticket < |calls| && claims[k].frame == calls[claims[k].ticket]
  }

  ghost predicate WriterPlaced(place: map<nat, Place>, calls: seq<Bytes>, p: nat, w: Writer) {
    && w.ticket in place && w.ticket < |calls| && w.frame == calls[w.ticket]
    && (if HasClaim(w) then place[w.ticket].InBatch? else place[w.ticket] == Looking(p))
  }

  ghost predicate ReturnedPlaced(writers: map<nat, Writer>, place: map<nat, Place>, t: nat) {
    t in place && place[t].InBatch? && forall p :: p in writers ==> writers[p].ticket != t
  }

  ghost predicate TicketsApart(writers: map<nat, Writer>) {
    forall p, q :: p in writers && q in writers && writers[p].ticket == writers[q].ticket ==> p == q
  }

  /** Every call so far has exactly one place. */
  ghost predicate PlacesOk(slots: seq<Slot>, writers: map<nat, Writer>, place: map<nat, Place>, calls: seq<Bytes>,
                           returned: set<nat>)
  {
    && (forall t: nat :: t in place <==> t < |calls|)
    && PlacesTrue(slots, writers, place)
    && (forall i :: 0 <= i < |slots| ==> SlotPlaced(place, calls, i, slots[i].claims))
    && (forall p :: p in writers ==> WriterPlaced(place, calls, p, writers[p]))
    && (forall t :: t in returned ==> ReturnedPlaced(writers, place, t))
    && TicketsApart(writers)
    && (forall t :: t in place && place[t].InBatch? ==> t in returned || AtWork(writers, t))
  }

  ghost predicate AtWork(writers: map<nat, Writer>, t: nat) {
    exists p :: p in writers && writers[p].ticket == t
  }

  ghost predicate Inv(s: State) {
    && s.current < |s.slots|
    && (forall i :: 0 <= i < |s.slots| ==> SlotOk(s.slots[i]))
    && (forall i :: 0 <= i < |s.slots| ==> s.slots[i].lock == |Holders(s.writers, i)|)
    && (forall i :: 0 <= i < |s.slots| ==> SlotOwned(s.writers, i, s.slots[i]))
    && WritersOk(s.slots, s.writers)
    && (forall i :: 0 <= i < |s.slots| ==> QueueOk(s.writers, s.jobs, i, s.slots[i]))
    && JobsOk(s.slots, s.current, s.jobs)
    && ClosedOk(s.slots, s.writers, s.jobs)
    && WireOk(s.slots, s.jobs, s.wire, s.sent)
    && s.availErrors == 0
    && PlacesOk(s.slots, s.writers, s.place, s.calls, s.returned)
  }
}
