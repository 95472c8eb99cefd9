/** The ring over whole runs: it is a FIFO queue of messages whose slices stay put. */
module RingTheorems {
  import opened Bits
  import opened Conver
  import opened RingMemory
  import opened RingProtocol
  import opened RingSafety

  lemma {:induction false} PathInv(s: State, steps: seq<Step>, t: State)
    requires Inv(s) && Path(s, steps, t)
    ensures Inv(t)
    decreases |steps|
  {
    if steps != [] {
      StepInv(s, steps[0]);
      PathInv(Apply(s, steps[0]), steps[1..], t);
    }
  }

  lemma ReachableInv(t: State)
    requires Reachable(t)
    ensures Inv(t)
  {
    var s, steps :| Init(s) && Path(s, steps, t);
    InitInv(s);
    PathInv(s, steps, t);
  }

  // ---------- FIFO ----------

  /** Each step is an enqueue of the claimed message, a dequeue of the oldest one, or neither. */
  lemma RefinesFifo(s: State, step: Step)
    requires Inv(s) && Enabled(s, step) && Honest(s, step)
    ensures var t := Apply(s, step);
            if step.CompareAndSwap? && s.mem.ask == s.producers[step.p].ask then
              && Queue(t) == Queue(s) + [s.producers[step.p].data]
              && t.accepted == s.accepted + [s.producers[step.p].data] && t.delivered == s.delivered
            else if t.consumer.Holding? && step.Take? then
              && Queue(s) != [] && Queue(t) == Queue(s)[1..]
              && t.delivered == s.delivered + [Queue(s)[0]] && t.accepted == s.accepted
            else
              Queue(t) == Queue(s) && t.accepted == s.accepted && t.delivered == s.delivered
  {
    StepInv(s, step);
    var t := Apply(s, step);
    QueueIsRest(s);
    QueueIsRest(t);
    StepRecords(s, step);
    if step.Take? && t.consumer.Holding? {
      assert t.delivered[|s.delivered|] == s.accepted[|s.delivered|];
    }
  }

  lemma QueueIsRest(s: State)
    requires Inv(s)
    ensures |s.delivered| <= |s.accepted| && s.delivered == s.accepted[..|s.delivered|]
    ensures Queue(s) == s.accepted[|s.delivered|..]
  {
  }

  /** What a step records. */
  lemma StepRecords(s: State, step: Step)
    requires Enabled(s, step)
    ensures var t := Apply(s, step);
            && t.accepted == s.accepted +
                 (if step.CompareAndSwap? && s.mem.ask == s.producers[step.p].ask
                  then [s.producers[step.p].data] else [])
            && (t.delivered == s.delivered || (step.Take? && t.consumer.Holding?))
            && (step.Take? && t.consumer.Holding? ==>
                  |t.delivered| == |s.delivered| + 1 && t.delivered[..|s.delivered|] == s.delivered)
  {
  }

  /** Over every run the messages read are, in order, the first accepted ones. */
  lemma FifoOrder(t: State)
    requires Reachable(t)
    ensures t.delivered <= t.accepted && t.accepted == t.delivered + Queue(t)
  {
    ReachableInv(t);
  }

  function TotalLength(claims: seq<Claim>): nat {
    if claims == [] then 0 else |claims[0].data| + TotalLength(claims[1..])
  }

  lemma {:induction false} TiledTotal(claims: seq<Claim>, from: nat, to: nat)
    requires Tiled(claims, from, to)
    ensures to == from + TotalLength(claims)
    decreases |claims|
  {
    if claims != [] {
      TiledTotal(claims[1..], claims[0].End(), to);
    }
  }

  /**
   The unreleased claims tile the window between the cursors and fill less than the ring; a flag is
   set exactly at the masked end of a finished claim; finished claims read back byte for byte.
   */
  lemma ClaimsTileAndFlag(t: State)
    requires Reachable(t)
    ensures 0 < t.mem.size == |t.mem.ring| == |t.mem.submit| && Tiled(t.claims, t.mem.avail, t.mem.ask)
    ensures t.mem.ask == t.mem.avail + TotalLength(t.claims) && TotalLength(t.claims) < t.mem.size
    ensures forall p :: 0 <= p < t.mem.size ==> (t.mem.submit[p] == 1 <==> FlagFor(t.mem, t.claims, p))
    ensures forall i :: 0 <= i < |t.claims| && t.claims[i].status != Writing ==>
              GetBytes(t.mem, t.claims[i].start, t.claims[i].End()) == t.claims[i].data
  {
    ReachableInv(t);
    TiledTotal(t.claims, t.mem.avail, t.mem.ask);
    forall i | 0 <= i < |t.claims| && t.claims[i].status != Writing
      ensures GetBytes(t.mem, t.claims[i].start, t.claims[i].End()) == t.claims[i].data
    {
      ReadBack(t.mem, t.claims, i);
    }
  }

  // ---------- slices ----------

  ghost predicate Slice(s: State) {
    && (s.consumer.Holding? || s.consumer.Releasing?)
    && 0 < s.mem.size == |s.mem.ring| && s.mem.avail <= s.consumer.end
  }

  /** A slice that has been handed out holds the message last read. */
  lemma SliceIsMessage(s: State)
    requires Inv(s) && (s.consumer.Holding? || s.consumer.Releasing?)
    ensures Slice(s) && s.delivered != []
    ensures GetBytes(s.mem, s.mem.avail, s.consumer.end) == s.delivered[|s.delivered| - 1]
  {
    TiledOrdered(s.claims, s.mem.avail, s.mem.ask);
    ReadBack(s.mem, s.claims, 0);
  }

  lemma StepKeepsSlice(s: State, step: Step)
    requires (s.consumer.Holding? || s.consumer.Releasing?) && Enabled(s, step) && step != Release
    ensures var t := Apply(s, step);
            && (t.consumer.Holding? || t.consumer.Releasing?) && t.consumer.end == s.consumer.end
            && t.mem.avail == s.mem.avail && t.delivered == s.delivered
  {
  }

  /** Whatever producers do, the slice keeps its bytes until availableCursor is stored. */
  lemma SliceStable(s: State, steps: seq<Step>, t: State)
    requires Inv(s) && (s.consumer.Holding? || s.consumer.Releasing?) && Path(s, steps, t)
    requires Release !in steps
    ensures Slice(s) && Slice(t) && t.mem.avail == s.mem.avail && t.consumer.end == s.consumer.end
    ensures GetBytes(t.mem, s.mem.avail, s.consumer.end) == GetBytes(s.mem, s.mem.avail, s.consumer.end)
  {
    SliceOnPath(s, steps, t);
    PathInv(s, steps, t);
    SliceIsMessage(s);
    SliceIsMessage(t);
  }

  lemma {:induction false} SliceOnPath(s: State, steps: seq<Step>, t: State)
    requires (s.consumer.Holding? || s.consumer.Releasing?) && Path(s, steps, t) && Release !in steps
    ensures (t.consumer.Holding? || t.consumer.Releasing?) && t.consumer.end == s.consumer.end
    ensures t.mem.avail == s.mem.avail && t.delivered == s.delivered
    decreases |steps|
  {
    if steps != [] {
      assert steps[0] in steps;
      StepKeepsSlice(s, steps[0]);
      SliceOnPath(Apply(s, steps[0]), steps[1..], t);
    }
  }

  // ---------- reading ----------

  predicate ProducerStep(step: Step) {
    step.Call? || step.Load? || step.Check? || step.CompareAndSwap? || step.CopyByte? || step.Submit?
  }

  /** Producers leave a finished head claim, the consumer and the deliveries alone. */
  lemma ProducersKeepHead(s: State, step: Step)
    requires Inv(s) && Enabled(s, step) && ProducerStep(step)
    requires s.claims != [] && s.claims[0].status == Flagged
    ensures var t := Apply(s, step);
            && t.claims != [] && t.claims[0] == s.claims[0] && t.consumer == s.consumer
            && t.delivered == s.delivered && t.mem.avail == s.mem.avail
  {
    if step.CopyByte? || step.Submit? {
      var j := FindClaim(s, step.p);
      assert j != 0;
    }
  }

  lemma {:induction false} ProducersKeepHeadOnPath(s: State, steps: seq<Step>, t: State)
    requires Inv(s) && Path(s, steps, t) && (forall i :: 0 <= i < |steps| ==> ProducerStep(steps[i]))
    requires s.claims != [] && s.claims[0].status == Flagged
    ensures Inv(t) && t.claims != [] && t.claims[0] == s.claims[0] && t.consumer == s.consumer
    ensures t.delivered == s.delivered && t.mem.avail == s.mem.avail
    decreases |steps|
  {
    if steps != [] {
      ProducersKeepHead(s, steps[0]);
      StepInv(s, steps[0]);
      ProducersKeepHeadOnPath(Apply(s, steps[0]), steps[1..], t);
    }
  }

  /**
   Once the oldest claim is flagged a read returns exactly it, whatever producers do between decoding
   the length word and looking at the flag; no assumption about the head word is needed.
   */
  lemma FlaggedHeadIsRead(s: State, word: nat, steps: seq<Step>, t: State)
    requires Inv(s) && s.consumer.Idle? && s.claims != [] && s.claims[0].status == Flagged
    requires Enabled(s, Decode(word)) && Path(Apply(s, Decode(word)), steps, t)
    requires forall i :: 0 <= i < |steps| ==> ProducerStep(steps[i])
    ensures Enabled(t, Take) && HeadWordHonest(t)
    ensures Apply(t, Take).consumer == Holding(s.claims[0].End())
    ensures Apply(t, Take).delivered == s.delivered + [s.claims[0].data]
  {
    StepInv(s, Decode(word));
    HeadWord(s.mem, s.claims);
    TiledOrdered(s.claims, s.mem.avail, s.mem.ask);
    ProducersKeepHeadOnPath(Apply(s, Decode(word)), steps, t);
    TakeHead(t);
  }

  /** With any message in the ring the consumer can start a read. */
  lemma FlaggedHeadCanBeRead(s: State)
    requires Inv(s) && s.consumer.Idle? && s.claims != []
    ensures 4 < s.mem.size && Enabled(s, Decode(LengthWord(s.mem)))
  {
    TiledOrdered(s.claims, s.mem.avail, s.mem.ask);
  }

  /** A flag check that returns nothing, or the oldest message together with its own end. */
  ghost predicate ReadCorrect(s: State)
    requires Enabled(s, Take) && s.claims != []
  {
    var t := Apply(s, Take);
    || (t.consumer == Idle && t.delivered == s.delivered)
    || (t.consumer == Holding(s.claims[0].End()) && t.delivered == s.delivered + [s.claims[0].data])
  }

  /** The head-word hypothesis is exactly what a correct read needs. */
  lemma ReadCorrectIffHonest(s: State)
    requires Inv(s) && Enabled(s, Take)
    ensures ReadCorrect(s) <==> HeadWordHonest(s)
  {
    if s.consumer.end == s.claims[0].End() {
      TakeHead(s);
    }
  }

  // ---------- when the hypothesis holds by itself ----------

  /** The oldest claim is finished whenever its length word is decoded. */
  ghost predicate FinishedWhenDecoded(s: State, step: Step) {
    FairCall(s, step) && (step.Decode? && s.claims != [] ==> s.claims[0].status == Flagged)
  }

  /** If no producer is between its claim and its flag, as when writes are mutually exclusive, it is. */
  lemma NoWriterMeansFinished(s: State, word: nat)
    requires Inv(s) && s.consumer.Idle? && forall p :: p in s.producers ==> !s.producers[p].Copying?
    ensures FinishedWhenDecoded(s, Decode(word))
  {
  }

  ghost predicate FinishedPath(s: State, steps: seq<Step>, t: State)
    decreases |steps|
  {
    if steps == [] then s == t
    else Enabled(s, steps[0]) && FinishedWhenDecoded(s, steps[0]) && FinishedPath(Apply(s, steps[0]), steps[1..], t)
  }

  ghost predicate DecodedTrue(s: State) {
    s.consumer.Decoded? ==>
      s.claims != [] && s.claims[0].status == Flagged && s.consumer.end == s.claims[0].End()
  }

  lemma FinishedStep(s: State, step: Step)
    requires Inv(s) && DecodedTrue(s) && Enabled(s, step) && FinishedWhenDecoded(s, step)
    ensures Honest(s, step) && DecodedTrue(Apply(s, step))
  {
    if step.Decode? {
      HeadWord(s.mem, s.claims);
      TiledOrdered(s.claims, s.mem.avail, s.mem.ask);
    } else if s.consumer.Decoded? && !step.Take? {
      ProducersKeepHead(s, step);
    }
  }

  /** Runs that only decode finished heads meet the head-word hypothesis at every flag check. */
  lemma {:induction false} FinishedPathIsHonest(s: State, steps: seq<Step>, t: State)
    requires Inv(s) && DecodedTrue(s) && FinishedPath(s, steps, t)
    ensures Path(s, steps, t)
    decreases |steps|
  {
    if steps != [] {
      FinishedStep(s, steps[0]);
      StepInv(s, steps[0]);
      FinishedPathIsHonest(Apply(s, steps[0]), steps[1..], t);
    }
  }

  /** Without any head-word hypothesis: runs that only decode finished heads are FIFO. */
  lemma FinishedRunsAreFifo(s: State, steps: seq<Step>, t: State)
    requires Init(s) && FinishedPath(s, steps, t)
    ensures t.accepted == t.delivered + Queue(t)
  {
    InitInv(s);
    FinishedPathIsHonest(s, steps, t);
    FifoOrder(t);
  }

  // ---------- rejections ----------

  /**
   A call is turned away exactly when the loaded cursor leaves no space, or when the consumer has
   already released past the end it would claim: then the subtraction wraps and an overflow is
   reported although there may be space.
   */
  lemma RejectedIff(s: State, p: nat)
    requires Inv(s) && Enabled(s, Check(p))
    ensures var Loaded(data, ask) := s.producers[p];
            var end := ask + |data|;
            p !in Apply(s, Check(p)).producers <==>
              (end >= s.mem.avail + s.mem.size || (end < s.mem.avail <= end + TWO64 - s.mem.size))
  {
    var Loaded(data, ask) := s.producers[p];
    assert ProducerOk(s.mem, s.claims, p, s.producers[p]);
    SpaceCheckIff(ask, |data|, s.mem.avail, s.mem.size);
  }

  lemma SpaceCheckIff(ask: nat, length: nat, avail: nat, size: nat)
    requires ask <= CURSOR_LIMIT && length < TWO32 && avail <= CURSOR_LIMIT && size > 0
    ensures U64(U64(ask + length) - avail) >= size <==>
              (ask + length >= avail + size || (ask + length < avail <= ask + length + TWO64 - size))
  {
    assert U64(ask + length) == ask + length;
    if ask + length >= avail {
      assert U64(ask + length - avail) == ask + length - avail;
    } else {
      assert U64(ask + length - avail) == ask + length - avail + TWO64;
    }
  }
}
