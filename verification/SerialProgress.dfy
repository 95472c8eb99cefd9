/** No accepted message has to wait for its handler: when every queued message can be handled and every bag fired. */
module SerialProgress {
  import opened Bits
  import opened RingMemory
  import RingProgress
  import RingCalls
  import opened Serials
  import opened SerialProtocol

  /** Everything accepted has been handled, and no bag has a row left to fire. */
  ghost predicate AllHandled(t: State) {
    && t.ring.consumer.Idle? && Ring.Queue(t.ring) == []
    && forall j :: 0 <= j < |t.bags| ==> !RowReady(t.bags[j])
  }

  /** Some run, on which nothing more is accepted, comes to that. */
  ghost predicate Finishes(s: State) {
    exists steps, t :: Path(s, steps, t) && t.ring.accepted == s.ring.accepted && AllHandled(t)
  }

  lemma Before(s: State, step: Step)
    requires Enabled(s, step) && Apply(s, step).ring.accepted == s.ring.accepted && Finishes(Apply(s, step))
    ensures Finishes(s)
  {
    var u := Apply(s, step);
    var steps, t :| Path(u, steps, t) && t.ring.accepted == u.ring.accepted && AllHandled(t);
    assert ([step] + steps)[1..] == steps;
    assert Path(s, [step] + steps, t);
  }

  // ---------- bags ----------

  /** How many rows a bag can still fire. */
  function RowsLeft(b: BagState): nat {
    if b.heard == [] || Shortest(b.heard) <= |b.requests| then 0 else Shortest(b.heard) - |b.requests|
  }

  lemma FireStep(s: State, j: nat)
    requires Inv(s) && s.ring.consumer.Idle? && j < |s.bags| && RowReady(s.bags[j])
    ensures Enabled(s, Fire(j)) && Inv(Apply(s, Fire(j)))
    ensures var t := Apply(s, Fire(j));
            && t.ring == s.ring && |t.bags| == |s.bags| && RowsLeft(t.bags[j]) < RowsLeft(s.bags[j])
            && forall i :: 0 <= i < |s.bags| && i != j ==> t.bags[i] == s.bags[i]
  {
    assert BagOk(s, j);
    FireKeeps(s, j);
  }

  /** With an empty ring the bags fire what they have, one after the other. */
  lemma {:induction false} FireAll(s: State, j: nat)
    requires Inv(s) && s.ring.consumer.Idle? && s.ring.claims == [] && j <= |s.bags|
    requires forall i :: 0 <= i < j ==> !RowReady(s.bags[i])
    ensures Finishes(s)
    decreases |s.bags| - j, if j < |s.bags| then RowsLeft(s.bags[j]) else 0
  {
    if j == |s.bags| {
      assert Path(s, [], s);
    } else if RowReady(s.bags[j]) {
      FireStep(s, j);
      FireAll(Apply(s, Fire(j)), j);
      Before(s, Fire(j));
    } else {
      FireAll(s, j + 1);
    }
  }

  // ---------- the ring ----------

  lemma RingStep(s: State, r: Ring.Step)
    requires Inv(s) && Ring.Enabled(s.ring, r) && Ring.Honest(s.ring, r)
    requires !r.Call? && !r.CompareAndSwap? && (r.Clear? ==> s.handled)
    ensures Enabled(s, InRing(r)) && Inv(Apply(s, InRing(r)))
    ensures var t := Apply(s, InRing(r));
            && t.ring == Ring.Apply(s.ring, r) && t.ring.accepted == s.ring.accepted && t.bags == s.bags
            && t.handled == (s.handled && !r.Clear?)
  {
    RingKeeps(s, r);
  }

  lemma HandleStep(s: State)
    requires Inv(s) && s.ring.consumer.Holding? && !s.handled
    ensures Enabled(s, Handle) && Inv(Apply(s, Handle))
    ensures Apply(s, Handle).ring == s.ring && Apply(s, Handle).handled
  {
    RingTheorems.QueueIsRest(s.ring);
    HandleKeeps(s);
  }

  /** The consumer's next step in the middle of a read. */
  function NextOf(s: State): Step
    requires !s.ring.consumer.Idle?
  {
    if s.ring.consumer.Holding? && !s.handled then Handle else InRing(RingProgress.NextOf(s.ring.consumer))
  }

  function Rank(s: State): nat {
    match s.ring.consumer
    case Idle => 0
    case Releasing(_) => 1
    case Holding(_) => if s.handled then 2 else 3
    case Decoded(_) => 4
  }

  lemma NextStep(s: State)
    requires Inv(s) && !s.ring.consumer.Idle? && Ring.HeadWordHonest(s.ring)
    ensures Enabled(s, NextOf(s)) && Inv(Apply(s, NextOf(s)))
    ensures var t := Apply(s, NextOf(s));
            t.ring.accepted == s.ring.accepted && Rank(t) < Rank(s) && Ring.HeadWordHonest(t.ring)
  {
    if s.ring.consumer.Holding? && !s.handled {
      HandleStep(s);
    } else {
      RingStep(s, RingProgress.NextOf(s.ring.consumer));
    }
  }

  /** A finished head is read, handled and released by the consumer's own steps. */
  lemma ReadHead(s: State) returns (s3: State)
    requires Inv(s) && s.ring.consumer.Idle? && s.ring.claims != [] && s.ring.claims[0].status == Flagged
    ensures Inv(s3) && s3.ring.consumer.Holding? && s3.handled && s3.ring.claims == s.ring.claims
    ensures s3.ring.accepted == s.ring.accepted && (Finishes(s3) ==> Finishes(s))
  {
    RingTheorems.FlaggedHeadCanBeRead(s.ring);
    var decode := Ring.Decode(LengthWord(s.ring.mem));
    RingStep(s, decode);
    var s1 := Apply(s, InRing(decode));
    assert Ring.Path(s1.ring, [], s1.ring);
    RingTheorems.FlaggedHeadIsRead(s.ring, decode.word, [], s1.ring);
    RingStep(s1, Ring.Take);
    var s2 := Apply(s1, InRing(Ring.Take));
    HandleStep(s2);
    s3 := Apply(s2, Handle);
    if Finishes(s3) {
      Before(s2, Handle);
      Before(s1, InRing(Ring.Take));
      Before(s, InRing(decode));
    }
  }

  lemma ReleaseHead(s: State) returns (t: State)
    requires Inv(s) && s.ring.consumer.Holding? && s.handled && s.ring.claims != []
    ensures Inv(t) && t.ring.consumer.Idle? && t.ring.claims == s.ring.claims[1..]
    ensures t.ring.accepted == s.ring.accepted && (Finishes(t) ==> Finishes(s))
  {
    RingStep(s, Ring.Clear);
    var u := Apply(s, InRing(Ring.Clear));
    RingStep(u, Ring.Release);
    t := Apply(u, InRing(Ring.Release));
    assert t.ring.claims == s.ring.claims[1..];
    if Finishes(t) {
      Before(u, InRing(Ring.Release));
      Before(s, InRing(Ring.Clear));
    }
  }

  /** Between two reads: producers finish the oldest claim, and the consumer reads it and has it handled. */
  lemma {:induction false} FinishIdle(s: State, k: nat)
    requires Inv(s) && s.ring.consumer.Idle? && RingProgress.HeadUpto(s.ring, k)
    ensures Finishes(s)
    decreases |s.ring.claims|,
              if s.ring.claims != [] && s.ring.claims[0].status == Writing then |s.ring.claims[0].data| + 1 - k else 0
  {
    if s.ring.claims == [] {
      FireAll(s, 0);
    } else if s.ring.claims[0].status == Flagged {
      var s3 := ReadHead(s);
      var t := ReleaseHead(s3);
      FinishIdle(t, 0);
    } else {
      var p, n := s.ring.claims[0].writer, |s.ring.claims[0].data|;
      if k < n && k in s.ring.claims[0].done {
        FinishIdle(s, k + 1);
      } else {
        var r := WriterStep(s, k);
        FinishIdle(Apply(s, InRing(r)), if k < n then k + 1 else 0);
        Before(s, InRing(r));
      }
    }
  }

  /** The producer of the oldest claim copies its next byte, or flags the claim. */
  lemma WriterStep(s: State, k: nat) returns (r: Ring.Step)
    requires Inv(s) && s.ring.consumer.Idle? && s.ring.claims != [] && s.ring.claims[0].status == Writing
    requires RingProgress.HeadUpto(s.ring, k) && (k < |s.ring.claims[0].data| ==> k !in s.ring.claims[0].done)
    ensures Enabled(s, InRing(r)) && Inv(Apply(s, InRing(r)))
    ensures var t := Apply(s, InRing(r));
            && t.ring.accepted == s.ring.accepted && t.ring.consumer.Idle? && |t.ring.claims| == |s.ring.claims|
            && (if k < |s.ring.claims[0].data| then
                  t.ring.claims[0].status == Writing && |t.ring.claims[0].data| == |s.ring.claims[0].data|
                  && RingProgress.HeadUpto(t.ring, k + 1)
                else t.ring.claims[0].status == Flagged)
  {
    var p := s.ring.claims[0].writer;
    if k < |s.ring.claims[0].data| {
      RingProgress.CopyHead(s.ring, k);
      r := Ring.CopyByte(p, k);
    } else {
      RingProgress.FlagHead(s.ring);
      r := Ring.Submit(p);
    }
    RingStep(s, r);
  }

  lemma {:induction false} HonestFinishes(s: State)
    requires Inv(s) && Ring.HeadWordHonest(s.ring)
    ensures Finishes(s)
    decreases Rank(s)
  {
    if s.ring.consumer.Idle? {
      FinishIdle(s, 0);
    } else {
      NextStep(s);
      HonestFinishes(Apply(s, NextOf(s)));
      Before(s, NextOf(s));
    }
  }

  lemma {:induction false} PathStuck(s: State, steps: seq<Step>, t: State)
    requires !Ring.HeadWordHonest(s.ring) && Path(s, steps, t)
    ensures !t.ring.consumer.Idle?
    decreases |steps|
  {
    if steps != [] {
      if steps[0].InRing? {
        RingProgress.StepStuck(s.ring, steps[0].step);
      }
      PathStuck(Apply(s, steps[0]), steps[1..], t);
    }
  }

  /**
   From a reachable state every accepted message can still be handled and every complete row fired, if and only
   if the consumer is not about to look at the flag of a claim that is not the oldest one.
   */
  lemma FinishesIff(t: State)
    requires Reachable(t)
    ensures Finishes(t) <==> Ring.HeadWordHonest(t.ring)
  {
    ReachableInv(t);
    if Ring.HeadWordHonest(t.ring) {
      HonestFinishes(t);
    } else {
      forall steps, u | Path(t, steps, u)
        ensures !AllHandled(u)
      {
        PathStuck(t, steps, u);
      }
    }
  }

  // ---------- another message ----------

  /** A producer's way to its claim, in the serial. */
  lemma {:induction false} ProducerRun(s: State, p: nat, steps: seq<Ring.Step>, r: Ring.State)
    requires Inv(s) && Ring.Path(s.ring, steps, r) && forall i :: 0 <= i < |steps| ==> RingCalls.OwnStep(steps[i], p)
    ensures var t := s.(ring := r);
            Inv(t) && forall u :: Leads(t, u) ==> Leads(s, u)
    decreases |steps|
  {
    if steps == [] {
      assert s.(ring := r) == s;
    } else {
      assert RingCalls.OwnStep(steps[0], p);
      var u := Apply(s, InRing(steps[0]));
      assert u == s.(ring := Ring.Apply(s.ring, steps[0]));
      RingKeeps(s, steps[0]);
      ProducerRun(u, p, steps[1..], r);
      forall v | Leads(u, v)
        ensures Leads(s, v)
      {
        StepFirst(s, InRing(steps[0]), v);
      }
    }
  }

  ghost predicate Leads(s: State, t: State) {
    exists steps :: Path(s, steps, t)
  }

  lemma StepFirst(s: State, step: Step, t: State)
    requires Enabled(s, step) && Leads(Apply(s, step), t)
    ensures Leads(s, t)
  {
    var steps :| Path(Apply(s, step), steps, t);
    assert ([step] + steps)[1..] == steps;
    assert Path(s, [step] + steps, t);
  }

  lemma CallEnters(s: State, p: nat, message: Bytes)
    requires Inv(s) && p !in s.ring.producers && Good(s.handler, message)
    requires LengthPrefixed(message) && RingCalls.HasRoom(s.ring.mem, |message|)
    ensures Enabled(s, InRing(Ring.Call(p, message))) && Inv(Apply(s, InRing(Ring.Call(p, message))))
    ensures var u := Apply(s, InRing(Ring.Call(p, message)));
            && u.ring.consumer == s.ring.consumer && u.ring.accepted == s.ring.accepted && u.handler == s.handler
            && RingCalls.ClaimsByItself(u.ring, p, message)
  {
    RingKeeps(s, Ring.Call(p, message));
    RingCalls.ClaimOwn(Ring.Apply(s.ring, Ring.Call(p, message)), p);
  }

  /** The producer claims space, and nothing else happens. */
  lemma ProducerClaims(u: State, p: nat, message: Bytes) returns (v: State)
    requires Inv(u) && RingCalls.ClaimsByItself(u.ring, p, message)
    ensures Inv(v) && v.ring.consumer == u.ring.consumer && v.handler == u.handler
    ensures v.ring.accepted == u.ring.accepted + [message] && forall t :: Leads(v, t) ==> Leads(u, t)
  {
    var steps, r :| Ring.Path(u.ring, steps, r) && (forall i :: 0 <= i < |steps| ==> RingCalls.OwnStep(steps[i], p))
                    && r.accepted == u.ring.accepted + [message];
    ProducerRun(u, p, steps, r);
    ConsumerRests(u.ring, p, steps, r);
    v := u.(ring := r);
  }

  lemma AllHandledCalls(v: State) returns (t: State)
    requires Inv(v) && v.ring.consumer.Idle?
    ensures Leads(v, t) && AllHandled(t) && t.ring.accepted == v.ring.accepted && t.handler == v.handler
    ensures AllGood(t.handler, t.ring.accepted) && t.calls == CallsOf(t.ring.accepted)
  {
    HonestFinishes(v);
    var more;
    more, t :| Path(v, more, t) && t.ring.accepted == v.ring.accepted && AllHandled(t);
    PathInv(v, more, t);
    RestCalls(t);
  }

  lemma RestCalls(t: State)
    requires Inv(t) && t.ring.consumer.Idle? && Ring.Queue(t.ring) == []
    ensures AllGood(t.handler, t.ring.accepted) && t.calls == CallsOf(t.ring.accepted)
  {
    assert t.ring.accepted == t.ring.delivered + Ring.Queue(t.ring);
    assert Handled(t) == t.ring.accepted;
  }

  /** A message for which there is room can be written and handled, together with all that were accepted before. */
  lemma MessageIsHandled(s: State, p: nat, message: Bytes) returns (t: State)
    requires Reachable(s) && s.ring.consumer.Idle? && p !in s.ring.producers && Good(s.handler, message)
    requires LengthPrefixed(message) && RingCalls.HasRoom(s.ring.mem, |message|)
    ensures Leads(s, t) && AllHandled(t) && t.ring.accepted == s.ring.accepted + [message]
    ensures AllGood(t.handler, t.ring.accepted) && t.calls == CallsOf(t.ring.accepted)
  {
    ReachableInv(s);
    CallEnters(s, p, message);
    var u := Apply(s, InRing(Ring.Call(p, message)));
    var v := ProducerClaims(u, p, message);
    t := AllHandledCalls(v);
    StepFirst(s, InRing(Ring.Call(p, message)), t);
  }

  lemma {:induction false} ConsumerRests(ring: Ring.State, p: nat, steps: seq<Ring.Step>, r: Ring.State)
    requires Ring.Path(ring, steps, r) && forall i :: 0 <= i < |steps| ==> RingCalls.OwnStep(steps[i], p)
    ensures r.consumer == ring.consumer
    decreases |steps|
  {
    if steps != [] {
      assert RingCalls.OwnStep(steps[0], p);
      ConsumerRests(Ring.Apply(ring, steps[0]), p, steps[1..], r);
    }
  }
}
