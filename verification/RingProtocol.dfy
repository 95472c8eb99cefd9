/**
 util/ring.go as a transition system: any number of producers and one consumer, interleaved at every
 access to shared memory. The fields `claims`, `accepted`, `delivered` and `rejected` only record
 what has happened; the only step that looks at them is Decode, to say which words a read can give.
 */
module RingProtocol {
  import opened Bits
  import opened Conver
  import opened Slices
  import opened RingMemory

  /** Where a producer stands inside WriteToRingBuffer. */
  datatype Producer =
    | Asking(data: Bytes)                            // before loading askCursor
    | Loaded(data: Bytes, ask: nat)                  // askCursor loaded, space not yet checked
    | Checked(data: Bytes, ask: nat)                 // there is space; before the compare-and-swap
    | Copying(data: Bytes, start: nat, done: set<nat>) // the claim is made; byte numbers copied so far

  /** Where the consumer stands between ReadFromRingBuffer and SetAvailableCursor. */
  datatype Consumer =
    | Idle
    | Decoded(end: nat)    // length word read, flag not yet looked at
    | Holding(end: nat)    // a slice has been handed out
    | Releasing(end: nat)  // its flag is cleared, availableCursor not yet stored

  datatype State = State(
    mem: Mem,
    producers: map<nat, Producer>,
    consumer: Consumer,
    claims: seq<Claim>,
    accepted: seq<Bytes>,
    delivered: seq<Bytes>,
    rejected: seq<Bytes>)

  datatype Step =
    | Call(p: nat, message: Bytes)
    | Load(p: nat)
    | Check(p: nat)
    | CompareAndSwap(p: nat)
    | CopyByte(p: nat, k: nat)
    | Submit(p: nat)
    | Decode(word: nat)
    | Take
    | Clear
    | Release

  ghost predicate Init(s: State) {
    && IsPow2(s.mem.size)
    && s == State(Mem(s.mem.size, Zeros(s.mem.size), Zeros(s.mem.size), 0, 0), map[], Idle, [], [], [], [])
  }

  /**
   The length word is read byte by byte. While the oldest claim is being copied, bytes from before, from
   during and from after the reading can end up in it, so any word may come out.
   */
  predicate CanDecode(s: State, word: nat)
    requires 4 < s.mem.size == |s.mem.ring|
  {
    word < TWO32 && (s.claims != [] && s.claims[0].status != Writing ==> word == LengthWord(s.mem))
  }

  predicate Enabled(s: State, step: Step) {
    && 0 < s.mem.size == |s.mem.ring| == |s.mem.submit|
    && match step
       case Call(p, message) => p !in s.producers && |message| >= 4
       case Load(p) => p in s.producers && s.producers[p].Asking?
       case Check(p) => p in s.producers && s.producers[p].Loaded?
       case CompareAndSwap(p) => p in s.producers && s.producers[p].Checked?
       case CopyByte(p, k) =>
         && p in s.producers && s.producers[p].Copying?
         && k < |s.producers[p].data| && k !in s.producers[p].done
       case Submit(p) =>
         && p in s.producers && s.producers[p].Copying?
         && forall k: nat :: k < |s.producers[p].data| ==> k in s.producers[p].done
       case Decode(word) =>
         && s.consumer.Idle? && s.mem.ask > s.mem.avail && 4 < s.mem.size
         && CanDecode(s, word)
       case Take => s.consumer.Decoded? && s.mem.avail <= s.consumer.end
       case Clear => s.consumer.Holding?
       case Release => s.consumer.Releasing?
  }

  function Apply(s: State, step: Step): State
    requires Enabled(s, step)
  {
    match step
    case Call(p, message) => s.(producers := s.producers[p := Asking(message)])
    case Load(p) => s.(producers := s.producers[p := Loaded(s.producers[p].data, s.mem.ask)])
    case Check(p) => ApplyCheck(s, p)
    case CompareAndSwap(p) => ApplyCompareAndSwap(s, p)
    case CopyByte(p, k) => ApplyCopyByte(s, p, k)
    case Submit(p) => ApplySubmit(s, p)
    case Decode(word) => s.(consumer := Decoded(s.mem.avail + word))
    case Take => ApplyTake(s)
    case Clear =>
      s.(mem := s.mem.(submit := s.mem.submit[Index(s.consumer.end, s.mem.size) := 0]),
         consumer := Releasing(s.consumer.end),
         claims := if s.claims == [] then [] else s.claims[0 := s.claims[0].(status := Cleared)])
    case Release =>
      s.(mem := s.mem.(avail := s.consumer.end),
         consumer := Idle,
         claims := if s.claims == [] then [] else s.claims[1..])
  }

  /** Without space for the message the call returns ErrRingBufferOverflow. */
  function ApplyCheck(s: State, p: nat): State
    requires Enabled(s, Check(p))
  {
    var Loaded(data, ask) := s.producers[p];
    var end := U64(ask + |data|);
    if U64(end - s.mem.avail) >= s.mem.size then
      s.(producers := s.producers - {p}, rejected := s.rejected + [data])
    else
      s.(producers := s.producers[p := Checked(data, ask)])
  }

  /** The claim is made if askCursor is still the loaded one; otherwise the loop starts over. */
  function ApplyCompareAndSwap(s: State, p: nat): State
    requires Enabled(s, CompareAndSwap(p))
  {
    var Checked(data, ask) := s.producers[p];
    if s.mem.ask == ask then
      s.(mem := s.mem.(ask := U64(ask + |data|)),
         producers := s.producers[p := Copying(data, ask, {})],
         claims := s.claims + [Claim(ask, data, p, {}, Writing)],
         accepted := s.accepted + [data])
    else
      s.(producers := s.producers[p := Asking(data)])
  }

  function ApplyCopyByte(s: State, p: nat, k: nat): State
    requires Enabled(s, CopyByte(p, k))
  {
    var Copying(data, start, done) := s.producers[p];
    s.(mem := s.mem.(ring := s.mem.ring[Index(start + k, s.mem.size) := data[k]]),
       producers := s.producers[p := Copying(data, start, done + {k})],
       claims := seq(|s.claims|, i requires 0 <= i < |s.claims| =>
         if s.claims[i].start == start then s.claims[i].(done := done + {k}) else s.claims[i]))
  }

  function ApplySubmit(s: State, p: nat): State
    requires Enabled(s, Submit(p))
  {
    var Copying(data, start, done) := s.producers[p];
    s.(mem := s.mem.(submit := s.mem.submit[Index(start + |data|, s.mem.size) := 1]),
       producers := s.producers - {p},
       claims := seq(|s.claims|, i requires 0 <= i < |s.claims| =>
         if s.claims[i].start == start then s.claims[i].(status := Flagged) else s.claims[i]))
  }

  /** A set flag at the decoded end hands out the bytes; otherwise the read returns nothing. */
  function ApplyTake(s: State): State
    requires Enabled(s, Take)
  {
    var end := s.consumer.end;
    if s.mem.submit[Index(end, s.mem.size)] == 1 then
      s.(consumer := Holding(end), delivered := s.delivered + [GetBytes(s.mem, s.mem.avail, end)])
    else
      s.(consumer := Idle)
  }

  // ---------- hypotheses ----------

  /** The decoded word never points at a set flag unless it is the oldest claim's own length. */
  ghost predicate HeadWordHonest(s: State) {
    s.consumer.Decoded? && 0 < s.mem.size == |s.mem.submit| && s.claims != []
    && s.consumer.end != s.claims[0].End()
    ==> s.mem.submit[Index(s.consumer.end, s.mem.size)] != 1
  }

  /** Messages start with their own length and the cursors stay away from 2^64. */
  ghost predicate FairCall(s: State, step: Step) {
    && (step.Call? ==> LengthPrefixed(step.message))
    && (step.CompareAndSwap? && step.p in s.producers && s.producers[step.p].Checked?
        ==> s.producers[step.p].ask + |s.producers[step.p].data| <= CURSOR_LIMIT)
  }

  /** What a run has to meet: fair calls, and an honest head word whenever a flag is looked at. */
  ghost predicate Honest(s: State, step: Step) {
    FairCall(s, step) && (step.Take? ==> HeadWordHonest(s))
  }

  /** A run of enabled steps that meets the hypotheses leads from s to t. */
  ghost predicate Path(s: State, steps: seq<Step>, t: State)
    decreases |steps|
  {
    if steps == [] then s == t
    else Enabled(s, steps[0]) && Honest(s, steps[0]) && Path(Apply(s, steps[0]), steps[1..], t)
  }

  ghost predicate Reachable(t: State) {
    exists s, steps :: Init(s) && Path(s, steps, t)
  }

  // ---------- invariant ----------

  ghost predicate ProducerOk(m: Mem, claims: seq<Claim>, p: nat, w: Producer) {
    && LengthPrefixed(w.data)
    && (w.Loaded? ==> w.ask <= m.ask)
    && (w.Checked? ==> w.ask <= m.ask && w.ask + |w.data| < m.avail + m.size)
    && (w.Copying? ==> exists i :: 0 <= i < |claims| && Writes(claims[i], p, w))
  }

  ghost predicate Writes(c: Claim, p: nat, w: Producer) {
    w.Copying? && c == Claim(w.start, w.data, p, w.done, Writing)
  }

  /** Every claim still being written has its producer at work. */
  ghost predicate ClaimsOwned(claims: seq<Claim>, producers: map<nat, Producer>) {
    forall i :: 0 <= i < |claims| && claims[i].status == Writing ==>
      claims[i].writer in producers && Writes(claims[i], claims[i].writer, producers[claims[i].writer])
  }

  ghost predicate ConsumerOk(consumer: Consumer, avail: nat, claims: seq<Claim>) {
    && (consumer != Idle ==> claims != [])
    && (consumer.Decoded? ==> avail <= consumer.end)
    && (consumer.Holding? ==> claims[0].status == Flagged && claims[0].End() == consumer.end)
    && (consumer.Releasing? ==> claims[0].status == Cleared && claims[0].End() == consumer.end)
    && (forall i :: 0 <= i < |claims| && claims[i].status == Cleared ==> i == 0 && consumer.Releasing?)
  }

  function Datas(claims: seq<Claim>): (d: seq<Bytes>)
    ensures |d| == |claims|
  {
    seq(|claims|, i requires 0 <= i < |claims| => claims[i].data)
  }

  /** The messages in the ring that have not been handed out, oldest first. */
  function Queue(s: State): seq<Bytes> {
    if (s.consumer.Holding? || s.consumer.Releasing?) && s.claims != [] then Datas(s.claims[1..])
    else Datas(s.claims)
  }

  ghost predicate Inv(s: State) {
    && Holds(s.mem, s.claims)
    && (forall p :: p in s.producers ==> ProducerOk(s.mem, s.claims, p, s.producers[p]))
    && ClaimsOwned(s.claims, s.producers)
    && ConsumerOk(s.consumer, s.mem.avail, s.claims)
    && s.accepted == s.delivered + Queue(s)
    && ((s.consumer.Holding? || s.consumer.Releasing?) ==>
          s.delivered != [] && s.delivered[|s.delivered| - 1] == s.claims[0].data)
  }
}
