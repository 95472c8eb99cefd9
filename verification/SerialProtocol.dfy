/**
 serial.go while producers go on writing: the ring's steps interleaved with the handling of delivered
 messages and the firing of bags.
 */
module SerialProtocol {
  import opened Bits
  import Ring = RingProtocol
  import RingSafety
  import opened Serials

  /** handled: the message the consumer holds has been given to its handler. */
  datatype State = State(
    ring: Ring.State, handled: bool, handler: map<nat, Handler>, calls: seq<Call>, bags: seq<BagState>)

  datatype Step =
    | InRing(step: Ring.Step)
    | Handle
    | Fire(j: nat)

  /** A frame that decodes, of a channel with a handler. */
  ghost predicate Good(handler: map<nat, Handler>, frame: Bytes) {
    Decodes(frame) && CallOf(frame).channel in handler
  }

  /** Column entries of the table belong to the bag they name. */
  ghost predicate TableOk(handler: map<nat, Handler>, bags: seq<BagState>) {
    forall c :: c in handler && handler[c].Column? ==>
      && handler[c].bag < |bags| && handler[c].index < |bags[handler[c].bag].channels|
      && bags[handler[c].bag].channels[handler[c].index] == c
  }

  ghost predicate Init(s: State) {
    && Ring.Init(s.ring) && !s.handled && s.calls == [] && TableOk(s.handler, s.bags)
    && forall j :: 0 <= j < |s.bags| ==>
         && s.bags[j].channels != [] && s.bags[j].requests == []
         && s.bags[j].heard == Streams([], s.handler, s.bags[j].channels, j)
  }

  ghost predicate Enabled(s: State, step: Step) {
    match step
    case InRing(r) =>
      && Ring.Enabled(s.ring, r) && Ring.Honest(s.ring, r)
      && (r.Call? ==> Good(s.handler, r.message))
      && (r.Clear? ==> s.handled)
    case Handle =>
      && s.ring.consumer.Holding? && !s.handled && s.ring.delivered != []
      && Good(s.handler, Last(s.ring.delivered))
    case Fire(j) => s.ring.consumer.Idle? && j < |s.bags| && RowReady(s.bags[j])
  }

  function Last(messages: seq<Bytes>): Bytes
    requires messages != []
  {
    messages[|messages| - 1]
  }

  /** The message goes to its column, if its handler is one. */
  function Deliver(bags: seq<BagState>, h: Handler, data: Bytes): seq<BagState> {
    match h
    case Plain => bags
    case Column(j, i) =>
      if j < |bags| && i < |bags[j].heard| then bags[j := Received(bags[j], i, data)] else bags
  }

  ghost function Apply(s: State, step: Step): State
    requires Enabled(s, step)
  {
    match step
    case InRing(r) =>
      var ring := Ring.Apply(s.ring, r);
      s.(ring := ring, handled := s.handled && !r.Clear?)
    case Handle =>
      var c := CallOf(Last(s.ring.delivered));
      s.(handled := true, calls := s.calls + [c], bags := Deliver(s.bags, s.handler[c.channel], c.data))
    case Fire(j) => s.(bags := s.bags[j := Fired(s.bags[j])])
  }

  ghost predicate Path(s: State, steps: seq<Step>, t: State)
    decreases |steps|
  {
    if steps == [] then s == t
    else Enabled(s, steps[0]) && Path(Apply(s, steps[0]), steps[1..], t)
  }

  ghost predicate Reachable(t: State) {
    exists s, steps :: Init(s) && Path(s, steps, t)
  }

  // ---------- invariant ----------

  ghost predicate AllGood(handler: map<nat, Handler>, frames: seq<Bytes>) {
    forall i :: 0 <= i < |frames| ==> Good(handler, frames[i])
  }

  /** The messages handled: all delivered ones, but for the one in the consumer's hands until it is handled. */
  function Handled(s: State): seq<Bytes> {
    if s.ring.consumer.Holding? && !s.handled && s.ring.delivered != []
    then s.ring.delivered[..|s.ring.delivered| - 1]
    else s.ring.delivered
  }

  /** The bag heard what its channels are registered for, and was called with a prefix of the zip of that. */
  ghost predicate BagOk(s: State, j: nat)
    requires j < |s.bags|
  {
    var b := s.bags[j];
    && b.channels != [] && b.heard == Streams(s.calls, s.handler, b.channels, j)
    && (forall i :: 0 <= i < |b.heard| ==> |b.requests| <= |b.heard[i]|)
    && forall k :: 0 <= k < |b.requests| ==> b.requests[k] == Row(b.heard, k)
  }

  ghost predicate Inv(s: State) {
    && Ring.Inv(s.ring) && TableOk(s.handler, s.bags)
    && (forall p :: p in s.ring.producers ==> Good(s.handler, s.ring.producers[p].data))
    && AllGood(s.handler, s.ring.accepted)
    && (s.handled ==> s.ring.consumer.Holding?)
    && Handled(s) <= s.ring.accepted && s.calls == CallsUpTo(s.handler, Handled(s))
    && forall j :: 0 <= j < |s.bags| ==> BagOk(s, j)
  }

  /** The calls for some frames, all of which decode. */
  ghost function CallsUpTo(handler: map<nat, Handler>, frames: seq<Bytes>): seq<Call> {
    if AllGood(handler, frames) then CallsOf(frames) else []
  }

  lemma {:induction false} CallsAppend(frames: seq<Bytes>, f: Bytes)
    requires Decodes(f) && forall i :: 0 <= i < |frames| ==> Decodes(frames[i])
    ensures CallsOf(frames + [f]) == CallsOf(frames) + [CallOf(f)]
    decreases |frames|
  {
    if frames == [] {
      assert (frames + [f])[1..] == [];
    } else {
      assert (frames + [f])[1..] == frames[1..] + [f];
      CallsAppend(frames[1..], f);
    }
  }

  lemma InitInv(s: State)
    requires Init(s)
    ensures Inv(s)
  {
    RingSafety.InitInv(s.ring);
  }

  /** A step of the ring handles nothing and loses nothing. */
  lemma RingKeeps(s: State, r: Ring.Step)
    requires Inv(s) && Enabled(s, InRing(r))
    ensures Inv(Apply(s, InRing(r)))
  {
    var t := Apply(s, InRing(r));
    RingSafety.StepInv(s.ring, r);
    RingTheorems.StepRecords(s.ring, r);
    ProducersGood(s, r);
    HandledSame(s, r);
    RingTheorems.QueueIsRest(t.ring);
    forall j | 0 <= j < |t.bags|
      ensures BagOk(t, j)
    {
      assert BagOk(s, j);
    }
  }

  lemma ProducersGood(s: State, r: Ring.Step)
    requires Enabled(s, InRing(r)) && AllGood(s.handler, s.ring.accepted)
    requires forall p :: p in s.ring.producers ==> Good(s.handler, s.ring.producers[p].data)
    ensures var t := Ring.Apply(s.ring, r);
            && (forall p :: p in t.producers ==> Good(s.handler, t.producers[p].data))
            && AllGood(s.handler, t.accepted)
  {
  }

  lemma HandledSame(s: State, r: Ring.Step)
    requires (s.handled ==> s.ring.consumer.Holding?) && Enabled(s, InRing(r))
    ensures Handled(Apply(s, InRing(r))) == Handled(s)
    ensures Apply(s, InRing(r)).handled ==> Apply(s, InRing(r)).ring.consumer.Holding?
  {
    RingTheorems.StepRecords(s.ring, r);
    ConsumerSteps(s.ring, r);
  }

  lemma ConsumerSteps(ring: Ring.State, r: Ring.Step)
    requires Ring.Enabled(ring, r)
    ensures var after := Ring.Apply(ring, r);
            && (r.Clear? ==> ring.consumer.Holding? && !after.consumer.Holding?)
            && (r.Take? ==> !ring.consumer.Holding?)
            && (!r.Clear? && !r.Take? ==> (after.consumer.Holding? <==> ring.consumer.Holding?))
  {
  }

  lemma HandleKeeps(s: State)
    requires Inv(s) && Enabled(s, Handle)
    ensures Inv(Apply(s, Handle))
  {
    var f := Last(s.ring.delivered);
    RingTheorems.QueueIsRest(s.ring);
    assert Handled(Apply(s, Handle)) == Handled(s) + [f];
    CallsAppend(Handled(s), f);
    forall j | 0 <= j < |s.bags|
      ensures j < |Apply(s, Handle).bags| && BagOk(Apply(s, Handle), j)
    {
      HandleBag(s, CallOf(f), j);
    }
    assert |Apply(s, Handle).bags| == |s.bags|;
    HandleTable(s.handler, s.bags, CallOf(f));
  }

  lemma HandleBag(s: State, c: Call, j: nat)
    requires TableOk(s.handler, s.bags) && j < |s.bags| && BagOk(s, j) && c.channel in s.handler
    ensures var t := s.(handled := true, calls := s.calls + [c],
                        bags := Deliver(s.bags, s.handler[c.channel], c.data));
            |t.bags| == |s.bags| && BagOk(t, j)
  {
    StreamsStep(s.calls, c, s.handler, s.bags[j].channels, j);
    DeliverOk(s, c, j);
  }

  lemma HandleTable(handler: map<nat, Handler>, bags: seq<BagState>, c: Call)
    requires TableOk(handler, bags) && c.channel in handler
    ensures TableOk(handler, Deliver(bags, handler[c.channel], c.data))
  {
  }

  /** One more message in a column, or none, keeps the rows that have been fired. */
  lemma DeliverOk(s: State, c: Call, j: nat)
    requires TableOk(s.handler, s.bags) && j < |s.bags| && BagOk(s, j) && c.channel in s.handler
    requires Streams(s.calls + [c], s.handler, s.bags[j].channels, j) ==
               match s.handler[c.channel]
               case Plain => s.bags[j].heard
               case Column(b, i) => if b == j then Put(s.bags[j].heard, i, c.data) else s.bags[j].heard
    ensures var t := s.(calls := s.calls + [c], bags := Deliver(s.bags, s.handler[c.channel], c.data));
            |t.bags| == |s.bags| && t.bags[j].channels == s.bags[j].channels && BagOk(t, j)
  {
    var h := s.handler[c.channel];
    if h.Column? && h.bag == j {
      var b := s.bags[j];
      forall k | 0 <= k < |b.requests|
        ensures Row(Put(b.heard, h.index, c.data), k) == Row(b.heard, k)
      {
      }
    }
  }

  lemma FireKeeps(s: State, j: nat)
    requires Inv(s) && Enabled(s, Fire(j))
    ensures Inv(Apply(s, Fire(j)))
  {
    var t := Apply(s, Fire(j));
    forall i | 0 <= i < |t.bags|
      ensures BagOk(t, i)
    {
      FireBag(s, j, i);
    }
    FireTable(s.handler, s.bags, j);
  }

  lemma FireBag(s: State, j: nat, i: nat)
    requires j < |s.bags| && i < |s.bags| && BagOk(s, i) && RowReady(s.bags[j])
    ensures BagOk(s.(bags := s.bags[j := Fired(s.bags[j])]), i)
  {
  }

  lemma FireTable(handler: map<nat, Handler>, bags: seq<BagState>, j: nat)
    requires TableOk(handler, bags) && j < |bags|
    ensures TableOk(handler, bags[j := Fired(bags[j])])
  {
  }

  lemma {:induction false} PathInv(s: State, steps: seq<Step>, t: State)
    requires Inv(s) && Path(s, steps, t)
    ensures Inv(t) && t.handler == s.handler
    decreases |steps|
  {
    if steps != [] {
      match steps[0] {
        case InRing(r) => RingKeeps(s, r);
        case Handle => HandleKeeps(s);
        case Fire(j) => FireKeeps(s, j);
      }
      PathInv(Apply(s, steps[0]), steps[1..], t);
    }
  }

  lemma ReachableInv(t: State)
    requires Reachable(t)
    ensures Inv(t)
  {
    var s, steps :| Init(s) && Path(s, steps, t);
    InitInv(s);
    PathInv(s, steps, t);
  }

  // ---------- whole runs ----------

  /** However producers interleave, the handler calls are those of the first accepted frames, in order. */
  lemma HandledInOrder(t: State)
    requires Reachable(t)
    ensures Handled(t) <= t.ring.accepted && AllGood(t.handler, Handled(t)) && t.calls == CallsOf(Handled(t))
    ensures t.ring.consumer.Idle? ==> t.ring.accepted == Handled(t) + Ring.Queue(t.ring)
  {
    ReachableInv(t);
  }

  /** And every bag has been called with a prefix of the zip of what its channels brought. */
  lemma BagsZip(t: State, j: nat)
    requires Reachable(t) && j < |t.bags|
    ensures var b := t.bags[j];
            b.channels != [] && b.requests <= Zip(Streams(t.calls, t.handler, b.channels, j))
    ensures t.ring.consumer.Idle? && !Enabled(t, Fire(j)) ==>
              t.bags[j].requests == Zip(Streams(t.calls, t.handler, t.bags[j].channels, j))
  {
    ReachableInv(t);
    BagZipped(t, j);
  }

  lemma {:induction false} CallsOfPrefix(frames: seq<Bytes>, n: nat)
    requires n <= |frames| && forall i :: 0 <= i < |frames| ==> Decodes(frames[i])
    ensures |CallsOf(frames)| == |frames| && CallsOf(frames[..n]) == CallsOf(frames)[..n]
    decreases |frames|
  {
    if frames != [] {
      CallsOfPrefix(frames[1..], if n == 0 then 0 else n - 1);
      if n > 0 {
        assert frames[..n][1..] == frames[1..][..n - 1];
      }
    }
  }

  /** Row k of every bag that owns its columns is made of the k-th messages of its channels. */
  ghost predicate RowsCarry(t: State, j: nat)
    requires j < |t.bags|
  {
    var b := t.bags[j];
    (forall i :: 0 <= i < |b.channels| ==> Owns(t.handler, b.channels, j, i)) ==>
      forall k, i :: 0 <= k < |b.requests| && 0 <= i < |b.channels| ==>
        && |b.requests[k]| == |b.channels| && k < |Messages(t.calls, b.channels[i])|
        && b.requests[k][i] == Data(Messages(t.calls, b.channels[i])[k])
  }

  lemma BagCarries(t: State, j: nat)
    requires Reachable(t) && j < |t.bags|
    ensures RowsCarry(t, j)
  {
    var b := t.bags[j];
    BagsZip(t, j);
    if forall i :: 0 <= i < |b.channels| ==> Owns(t.handler, b.channels, j, i) {
      OwnedBagZips(t.calls, t.handler, b.channels, j);
    }
  }

  /**
   When producers write encoded messages, the handlers get the messages' own types, data and extends, in the
   order of acceptance, and so do the bags that own their columns.
   */
  lemma MessagesHandled(t: State, messages: seq<Call>)
    requires Reachable(t) && Encodable(messages) && t.ring.accepted == EncodeCalls(messages)
    ensures t.calls <= messages
    ensures t.ring.consumer.Idle? && Ring.Queue(t.ring) == [] ==> t.calls == messages
    ensures forall j :: 0 <= j < |t.bags| ==> RowsCarry(t, j)
  {
    HandledInOrder(t);
    CallsOfEncoded(messages);
    CallsOfPrefix(t.ring.accepted, |Handled(t)|);
    assert Handled(t) == t.ring.accepted[..|Handled(t)|];
    forall j | 0 <= j < |t.bags|
      ensures RowsCarry(t, j)
    {
      BagCarries(t, j);
    }
  }

  lemma BagZipped(t: State, j: nat)
    requires j < |t.bags| && BagOk(t, j)
    ensures var b := t.bags[j];
            && b.channels != [] && b.requests <= Zip(Streams(t.calls, t.handler, b.channels, j))
            && (!RowReady(b) ==> b.requests == Zip(Streams(t.calls, t.handler, b.channels, j)))
  {
    ZipPrefix(t.bags[j].heard, t.bags[j].requests);
  }

  lemma ZipPrefix(heard: seq<seq<Bytes>>, requests: seq<seq<Entry>>)
    requires heard != [] && forall i :: 0 <= i < |heard| ==> |requests| <= |heard[i]|
    requires forall k :: 0 <= k < |requests| ==> requests[k] == Row(heard, k)
    ensures requests <= Zip(heard)
    ensures (exists i :: 0 <= i < |heard| && |requests| >= |heard[i]|) ==> requests == Zip(heard)
  {
    var z := Zip(heard);
    assert |requests| <= Shortest(heard) == |z|;
    forall k | 0 <= k < |requests|
      ensures requests[k] == z[k]
    {
      assert requests[k] == Row(heard, k);
    }
  }
}
