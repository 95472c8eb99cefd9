/** No message has to stay in the ring: from where it can be, and from where it cannot, every message delivered. */
module RingProgress {
  import opened Bits
  import opened RingMemory
  import opened RingProtocol
  import opened RingSafety
  import opened RingTheorems
  import opened RingRuns

  /** Some further run reads all of the messages. */
  ghost predicate Delivers(s: State, messages: seq<Bytes>) {
    exists steps, t :: Path(s, steps, t) && messages <= t.delivered
  }

  lemma Before(s: State, step: Step, messages: seq<Bytes>)
    requires Enabled(s, step) && Honest(s, step) && Delivers(Apply(s, step), messages)
    ensures Delivers(s, messages)
  {
    var steps, t :| Path(Apply(s, step), steps, t) && messages <= t.delivered;
    assert ([step] + steps)[1..] == steps;
    assert Path(s, [step] + steps, t);
  }

  // ---------- the consumer ----------

  /** A finished head can be read and released by the consumer's own steps. */
  lemma ReadFirst(s: State, messages: seq<Bytes>)
    requires Inv(s) && s.consumer.Idle? && s.claims != [] && s.claims[0].status == Flagged
    requires Delivers(Read(s), messages)
    ensures Delivers(s, messages)
  {
    FlaggedHeadCanBeRead(s);
    var word := LengthWord(s.mem);
    var s1 := Apply(s, Decode(word));
    assert Path(s1, [], s1);
    FlaggedHeadIsRead(s, word, [], s1);
    var s2 := Apply(s1, Take);
    var s3 := Apply(s2, Clear);
    assert Apply(s3, Release) == Read(s);
    Before(s3, Release, messages);
    Before(s2, Clear, messages);
    Before(s1, Take, messages);
    Before(s, Decode(word), messages);
  }

  // ---------- an unfinished head ----------

  /** The bytes below k of the oldest claim are copied. */
  ghost predicate HeadUpto(s: State, k: nat) {
    s.claims != [] && s.claims[0].status == Writing ==>
      k <= |s.claims[0].data| && forall i: nat :: i < k ==> i in s.claims[0].done
  }

  /** Its producer can copy one more of them. */
  lemma CopyHead(s: State, k: nat)
    requires Inv(s) && s.claims != [] && s.claims[0].status == Writing
    requires k < |s.claims[0].data| && k !in s.claims[0].done && HeadUpto(s, k)
    ensures Enabled(s, CopyByte(s.claims[0].writer, k))
    ensures var u := Apply(s, CopyByte(s.claims[0].writer, k));
            && Inv(u) && HeadUpto(u, k + 1) && u.consumer == s.consumer && u.accepted == s.accepted
            && |u.claims| == |s.claims| && u.claims[0] == s.claims[0].(done := s.claims[0].done + {k})
  {
    StepInv(s, CopyByte(s.claims[0].writer, k));
  }

  /** And flag it in the end. */
  lemma FlagHead(s: State)
    requires Inv(s) && s.claims != [] && s.claims[0].status == Writing && HeadUpto(s, |s.claims[0].data|)
    ensures Enabled(s, Submit(s.claims[0].writer))
    ensures var u := Apply(s, Submit(s.claims[0].writer));
            && Inv(u) && u.consumer == s.consumer && u.accepted == s.accepted
            && |u.claims| == |s.claims| && u.claims[0].status == Flagged
  {
    StepInv(s, Submit(s.claims[0].writer));
  }

  /** With the consumer between two reads, producers finish the oldest claim and the consumer reads it, in turn. */
  lemma {:induction false} DeliverQueue(s: State, k: nat)
    requires Inv(s) && s.consumer.Idle? && HeadUpto(s, k)
    ensures Delivers(s, s.accepted)
    decreases |s.claims|, if s.claims != [] && s.claims[0].status == Writing then |s.claims[0].data| + 1 - k else 0
  {
    if s.claims == [] {
      assert Path(s, [], s);
    } else if s.claims[0].status == Flagged {
      ReadAlone(s);
      DeliverQueue(Read(s), 0);
      ReadFirst(s, s.accepted);
    } else {
      var p := s.claims[0].writer;
      if k == |s.claims[0].data| {
        FlagHead(s);
        DeliverQueue(Apply(s, Submit(p)), 0);
        Before(s, Submit(p), s.accepted);
      } else if k in s.claims[0].done {
        DeliverQueue(s, k + 1);
      } else {
        CopyHead(s, k);
        DeliverQueue(Apply(s, CopyByte(p, k)), k + 1);
        Before(s, CopyByte(p, k), s.accepted);
      }
    }
  }

  // ---------- every state ----------

  /** The consumer's next step, when it is in the middle of a read. */
  function NextOf(c: Consumer): Step
    requires !c.Idle?
  {
    match c
    case Decoded(_) => Take
    case Holding(_) => Clear
    case Releasing(_) => Release
  }

  lemma {:induction false} HonestDelivers(s: State)
    requires Inv(s) && HeadWordHonest(s)
    ensures Delivers(s, s.accepted)
    decreases match s.consumer
              case Idle => 0
              case Releasing(_) => 1
              case Holding(_) => 2
              case Decoded(_) => 3
  {
    if s.consumer.Idle? {
      DeliverQueue(s, 0);
    } else {
      var step := NextOf(s.consumer);
      StepInv(s, step);
      HonestDelivers(Apply(s, step));
      Before(s, step, s.accepted);
    }
  }

  /** A decoded word that points at another claim's flag goes on pointing at it, whatever producers do. */
  lemma StepStuck(s: State, step: Step)
    requires !HeadWordHonest(s) && Enabled(s, step) && Honest(s, step)
    ensures !HeadWordHonest(Apply(s, step)) && Apply(s, step).delivered == s.delivered
  {
  }

  lemma {:induction false} PathStuck(s: State, steps: seq<Step>, t: State)
    requires !HeadWordHonest(s) && Path(s, steps, t)
    ensures t.delivered == s.delivered
    decreases |steps|
  {
    if steps != [] {
      StepStuck(s, steps[0]);
      PathStuck(Apply(s, steps[0]), steps[1..], t);
    }
  }

  /**
   From a reachable state every message accepted so far can still be delivered, if and only if the consumer is
   not about to look at the flag of a claim that is not the oldest one. In particular that is so whenever it is
   not between decoding and the flag check.
   */
  lemma DeliversAllIff(t: State)
    requires Reachable(t)
    ensures Delivers(t, t.accepted) <==> HeadWordHonest(t)
  {
    ReachableInv(t);
    if HeadWordHonest(t) {
      HonestDelivers(t);
    } else {
      forall steps, u | Path(t, steps, u)
        ensures !(t.accepted <= u.delivered)
      {
        PathStuck(t, steps, u);
        assert |t.accepted| == |t.delivered| + |Queue(t)|;
      }
    }
  }
}
