/**
 The send path of transport/tcp_session.go as a transition system: writers in WriteFrameDataToCache and
 workers in WorkFunc, interleaved at every atomic operation. The fields `claims`, `crossings`, `place`,
 `returned`, `calls` and `sent` only record what has happened.
 */
module SlotProtocol {
  import opened Bits
  import opened Conver
  import opened Slices
  import opened FrameCodec

  /** BytesPoolLenght */
  const BUFFER: nat := 32768

  // ---------- slots ----------

  datatype Stage = Allotted | Written | Committed

  /** An allotted range [start, start + |frame|) that lies inside the buffer. */
  datatype Claim = Claim(ticket: nat, start: nat, frame: Bytes, writer: nat, stage: Stage) {
    function End(): nat {
      start + |frame|
    }
  }

  datatype Slot = Slot(buf: Bytes, allot: nat, avail: nat, lock: int, claims: seq<Claim>, crossings: nat)

  function NewSlot(): Slot {
    Slot(Zeros(BUFFER), 0, 0, 0, [], 0)
  }

  // ---------- writers and workers ----------

  /** Where a writer stands inside WriteFrameDataToCache. */
  datatype Pc =
    | AtLoop      // before loading wSlot
    | SlotLoaded  // wSlot loaded, writeLock not yet incremented
    | LockTaken   // writeLock incremented
    | RangeTaken  // allotCursor advanced; end is the new value
    | FrameCopied
    | RangeCommitted // availableCursor advanced
    | LockReleased   // about to return, after queueing the slot if the range starts at 0
    | SlotSwapped    // the boundary was crossed and wSlot has been replaced

  datatype Writer = Writer(pc: Pc, ticket: nat, frame: Bytes, busy: nat, slot: nat, end: nat)

  /** Where a worker stands with a slot taken from the job queue. */
  datatype Phase = Queued | Detached | Drained | Sent

  datatype Job = Job(slot: nat, phase: Phase)

  /** What became of a call: still looking for space, part of a slot's batch, or turned away. */
  datatype Place = Looking(writer: nat) | InBatch(slot: nat, position: nat) | TurnedAway

  datatype State = State(
    slots: seq<Slot>,
    current: nat, // wSlot
    writers: map<nat, Writer>,
    jobs: seq<Job>,
    wire: seq<Bytes>, // what each Conn.Write has sent
    availErrors: nat, // runs of the ErrAvailableCursor branch
    busyLimit: nat,
    calls: seq<Bytes>, // the frame of each call, by ticket
    place: map<nat, Place>,
    returned: set<nat>, // calls that returned nil
    sent: seq<nat>) // slots in the order of their Conn.Write

  datatype Step =
    | Call(p: nat, data: Bytes)
    | Load(p: nat)
    | Lock(p: nat)
    | Allot(p: nat)
    | Bounce(p: nat)
    | Swap(p: nat)
    | AfterSwap(p: nat)
    | CopyFrame(p: nat)
    | Commit(p: nat)
    | Unlock(p: nat)
    | Finish(p: nat)
    | Detach(k: nat)
    | Drain(k: nat)
    | Send(k: nat)

  ghost predicate Init(s: State) {
    && s.slots == [NewSlot()] && s.current == 0 && s.writers == map[] && s.jobs == [] && s.wire == []
    && s.availErrors == 0 && s.calls == [] && s.place == map[] && s.returned == {} && s.sent == []
  }

  predicate At(s: State, p: nat, pc: Pc) {
    p in s.writers && s.writers[p].pc == pc && s.writers[p].slot < |s.slots|
  }

  /** The allotted range lies inside the buffer. */
  predicate Fits(w: Writer) {
    w.end <= BUFFER && |w.frame| <= w.end
  }

  /** start = end - length as a 32-bit subtraction. */
  function RangeStart(w: Writer): nat {
    (w.end - |w.frame|) % TWO32
  }

  predicate Enabled(s: State, step: Step) {
    && s.current < |s.slots|
    && match step
       case Call(p, data) => p !in s.writers && HEAD <= |data| < BUFFER
       case Load(p) => p in s.writers && s.writers[p].pc == AtLoop
       case Lock(p) => At(s, p, SlotLoaded)
       case Allot(p) => At(s, p, LockTaken)
       case Bounce(p) => At(s, p, RangeTaken) && s.writers[p].end > BUFFER && RangeStart(s.writers[p]) > BUFFER
       case Swap(p) => At(s, p, RangeTaken) && s.writers[p].end > BUFFER && RangeStart(s.writers[p]) <= BUFFER
       case AfterSwap(p) => At(s, p, SlotSwapped)
       case CopyFrame(p) =>
         && At(s, p, RangeTaken) && Fits(s.writers[p])
         && |s.slots[s.writers[p].slot].buf| == BUFFER
       case Commit(p) => At(s, p, FrameCopied)
       case Unlock(p) => At(s, p, RangeCommitted)
       case Finish(p) => At(s, p, LockReleased)
       case Detach(k) => k < |s.jobs| && s.jobs[k].phase == Queued
       case Drain(k) =>
         && k < |s.jobs| && s.jobs[k].phase == Detached && s.jobs[k].slot < |s.slots|
         && s.slots[s.jobs[k].slot].lock == 0
       case Send(k) =>
         && k < |s.jobs| && s.jobs[k].phase == Drained && s.jobs[k].slot < |s.slots|
         && s.slots[s.jobs[k].slot].avail <= |s.slots[s.jobs[k].slot].buf|
  }

  function Locked(slot: Slot, delta: int): Slot {
    slot.(lock := slot.lock + delta)
  }

  function Staged(claims: seq<Claim>, end: nat, stage: Stage): (r: seq<Claim>)
    ensures |r| == |claims|
  {
    seq(|claims|, k requires 0 <= k < |claims| =>
      if claims[k].End() == end then claims[k].(stage := stage) else claims[k])
  }

  function Moved(s: State, p: nat, w: Writer): State {
    s.(writers := s.writers[p := w])
  }

  function Apply(s: State, step: Step): State
    requires Enabled(s, step)
  {
    match step
    case Call(p, data) =>
      s.(writers := s.writers[p := Writer(AtLoop, |s.calls|, data, 0, 0, 0)],
         place := s.place[|s.calls| := Looking(p)],
         calls := s.calls + [data])
    case Load(p) => Moved(s, p, s.writers[p].(pc := SlotLoaded, slot := s.current))
    case Lock(p) => ApplyLock(s, p)
    case Allot(p) => ApplyAllot(s, p)
    case Bounce(p) => ApplyBounce(s, p)
    case Swap(p) => Moved(Replaced(s, s.writers[p].slot), p, s.writers[p].(pc := SlotSwapped))
    case AfterSwap(p) =>
      var w := s.writers[p];
      Moved(s, p, w.(pc := AtLoop, busy := 0)).(slots := s.slots[w.slot := Locked(s.slots[w.slot], -1)])
    case CopyFrame(p) => ApplyCopyFrame(s, p)
    case Commit(p) => ApplyCommit(s, p)
    case Unlock(p) =>
      var w := s.writers[p];
      Moved(s, p, w.(pc := LockReleased)).(slots := s.slots[w.slot := Locked(s.slots[w.slot], -1)])
    case Finish(p) =>
      var w := s.writers[p];
      s.(writers := s.writers - {p}, returned := s.returned + {w.ticket},
         jobs := if RangeStart(w) == 0 then s.jobs + [Job(w.slot, Queued)] else s.jobs)
    case Detach(k) =>
      var t := Replaced(s, s.jobs[k].slot);
      t.(jobs := s.jobs[k := s.jobs[k].(phase := Detached)])
    case Drain(k) => s.(jobs := s.jobs[k := s.jobs[k].(phase := Drained)])
    case Send(k) => ApplySend(s, k)
  }

  /** A compare-and-swap of wSlot from the given slot to a new one; if it fails the new one is dropped. */
  function Replaced(s: State, slot: nat): State {
    if s.current == slot then s.(slots := s.slots + [NewSlot()], current := |s.slots|) else s
  }

  function ApplyLock(s: State, p: nat): State
    requires Enabled(s, Lock(p))
  {
    var w := s.writers[p];
    Moved(s, p, w.(pc := LockTaken)).(slots := s.slots[w.slot := Locked(s.slots[w.slot], 1)])
  }

  /** The fetch-add on allotCursor. A range inside the buffer becomes a claim. */
  function ApplyAllot(s: State, p: nat): State
    requires Enabled(s, Allot(p))
  {
    var w := s.writers[p];
    var slot := s.slots[w.slot];
    var end := (slot.allot + |w.frame|) % TWO32;
    var w' := w.(pc := RangeTaken, end := end);
    if Fits(w') then
      Moved(s, p, w').(
        slots := s.slots[w.slot := slot.(allot := end,
          claims := slot.claims + [Claim(w.ticket, RangeStart(w'), w.frame, p, Allotted)])],
        place := s.place[w.ticket := InBatch(w.slot, |slot.claims|)])
    else
      Moved(s, p, w').(
        slots := s.slots[w.slot := slot.(allot := end,
          crossings := slot.crossings + if RangeStart(w') <= BUFFER < end then 1 else 0)])
  }

  /** Beyond the boundary: give up with ErrFailureBusy after too many rounds, or start over. */
  function ApplyBounce(s: State, p: nat): State
    requires Enabled(s, Bounce(p))
  {
    var w := s.writers[p];
    var slots := s.slots[w.slot := Locked(s.slots[w.slot], -1)];
    if w.busy > s.busyLimit then
      s.(writers := s.writers - {p}, slots := slots, place := s.place[w.ticket := TurnedAway])
    else
      Moved(s, p, w.(pc := AtLoop, busy := w.busy + 1)).(slots := slots)
  }

  function ApplyCopyFrame(s: State, p: nat): State
    requires Enabled(s, CopyFrame(p))
  {
    var w := s.writers[p];
    var slot := s.slots[w.slot];
    var start := w.end - |w.frame|;
    Moved(s, p, w.(pc := FrameCopied)).(
      slots := s.slots[w.slot := slot.(
        buf := slot.buf[..start] + w.frame + slot.buf[w.end..],
        claims := Staged(slot.claims, w.end, Written))])
  }

  function ApplyCommit(s: State, p: nat): State
    requires Enabled(s, Commit(p))
  {
    var w := s.writers[p];
    var slot := s.slots[w.slot];
    Moved(s, p, w.(pc := RangeCommitted)).(
      slots := s.slots[w.slot := slot.(
        avail := slot.avail + |w.frame|, claims := Staged(slot.claims, w.end, Committed))])
  }

  function ApplySend(s: State, k: nat): State
    requires Enabled(s, Send(k))
  {
    var slot := s.slots[s.jobs[k].slot];
    var jobs := s.jobs[k := s.jobs[k].(phase := Sent)];
    if slot.avail >= HEAD then
      s.(jobs := jobs, wire := s.wire + [slot.buf[..slot.avail]], sent := s.sent + [s.jobs[k].slot])
    else
      s.(jobs := jobs, availErrors := s.availErrors + 1)
  }

  // ---------- hypotheses ----------

  /** The loaded slot's worker has not yet seen its lock count at 0 when the count is incremented. */
  predicate LockInTime(s: State, p: nat) {
    At(s, p, SlotLoaded) ==>
      forall k :: 0 <= k < |s.jobs| && s.jobs[k].slot == s.writers[p].slot ==>
        s.jobs[k].phase == Queued || s.jobs[k].phase == Detached
  }

  /** A writer that increments the count in time, or that will find no space in the slot anyway. */
  predicate LockSafe(s: State, p: nat) {
    At(s, p, SlotLoaded) ==>
      LockInTime(s, p) || s.slots[s.writers[p].slot].allot + |s.writers[p].frame| > BUFFER
  }

  /** allotCursor does not pass 2^32. */
  predicate AllotBelow(s: State, p: nat) {
    At(s, p, LockTaken) ==> s.slots[s.writers[p].slot].allot + |s.writers[p].frame| < TWO32
  }

  predicate Fair(s: State, step: Step) {
    && (step.Lock? ==> LockSafe(s, step.p))
    && (step.Allot? ==> AllotBelow(s, step.p))
  }

  ghost predicate Path(s: State, steps: seq<Step>, t: State)
    decreases |steps|
  {
    if steps == [] then s == t
    else Enabled(s, steps[0]) && Fair(s, steps[0]) && Path(Apply(s, steps[0]), steps[1..], t)
  }

  ghost predicate Reachable(t: State) {
    exists s, steps :: Init(s) && Path(s, steps, t)
  }
}
