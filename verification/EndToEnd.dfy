/** From encoded messages through slots, the wire and arbitrary reads back to messages. */
module EndToEnd {
  import opened Bits
  import opened Conver
  import opened Slices
  import opened FrameCodec
  import opened Sessions
  import SlotProtocol
  import SlotInvariant
  import SlotTheorems
  import SlotProgress

  datatype Message = Message(ft: nat, data: Bytes, extend: Bytes)

  /** A message that survives encoding, and whose type means nothing special to the receiver. */
  ghost predicate Sendable(m: Message) {
    m.ft < TWO16 && m.ft != TYPE_NIL && m.ft != TYPE_EXIT && |m.extend| < TWO16
  }

  function Encode(m: Message): Bytes {
    EncodeFrame(m.ft, m.data, m.extend)
  }

  /** Every call was made with the encoding of its message. */
  ghost predicate CallsEncode(t: SlotProtocol.State, messages: seq<Message>) {
    && |messages| == |t.calls|
    && forall c :: 0 <= c < |t.calls| ==> Sendable(messages[c]) && t.calls[c] == Encode(messages[c])
  }

  /** The claims of the first n batches on the wire, one slot after the other. */
  function SentClaims(t: SlotProtocol.State, n: nat): seq<SlotProtocol.Claim>
    requires n <= |t.sent| && forall j :: 0 <= j < |t.sent| ==> t.sent[j] < |t.slots|
  {
    if n == 0 then [] else SentClaims(t, n - 1) + t.slots[t.sent[n - 1]].claims
  }

  lemma FramesAppend(a: seq<SlotProtocol.Claim>, b: seq<SlotProtocol.Claim>)
    ensures SlotInvariant.Frames(a + b) == SlotInvariant.Frames(a) + SlotInvariant.Frames(b)
  {
  }

  /** The bytes on the wire are the frames of the sent claims. */
  lemma {:induction false} WireBytes(t: SlotProtocol.State, n: nat)
    requires n <= |t.sent| == |t.wire|
    requires forall j :: 0 <= j < |t.sent| ==> t.sent[j] < |t.slots|
    requires forall j :: 0 <= j < |t.sent| ==>
               t.wire[j] == Flatten(SlotInvariant.Frames(t.slots[t.sent[j]].claims))
    ensures Flatten(t.wire[..n]) == Flatten(SlotInvariant.Frames(SentClaims(t, n)))
    decreases n
  {
    if n > 0 {
      WireBytes(t, n - 1);
      var claims := t.slots[t.sent[n - 1]].claims;
      FramesAppend(SentClaims(t, n - 1), claims);
      FlattenAppend(SlotInvariant.Frames(SentClaims(t, n - 1)), SlotInvariant.Frames(claims));
      assert t.wire[..n] == t.wire[..n - 1] + [t.wire[n - 1]];
      FlattenAppend(t.wire[..n - 1], [t.wire[n - 1]]);
      assert Flatten([t.wire[n - 1]]) == t.wire[n - 1];
    }
  }

  /** Each sent claim holds the encoding of its call's message, within the buffer size. */
  lemma {:induction false} SentEncode(t: SlotProtocol.State, messages: seq<Message>, n: nat)
    requires SlotProtocol.Reachable(t) && CallsEncode(t, messages) && n <= |t.sent|
    requires forall j :: 0 <= j < |t.sent| ==> t.sent[j] < |t.slots|
    ensures forall x :: 0 <= x < |SentClaims(t, n)| ==> HoldsMessage(SentClaims(t, n)[x], messages)
    decreases n
  {
    if n > 0 {
      SentEncode(t, messages, n - 1);
      var i := t.sent[n - 1];
      forall k | 0 <= k < |t.slots[i].claims|
        ensures HoldsMessage(t.slots[i].claims[k], messages)
      {
        ClaimEncodes(t, messages, i, k);
      }
    }
  }

  ghost predicate HoldsMessage(c: SlotProtocol.Claim, messages: seq<Message>) {
    && c.ticket < |messages| && Sendable(messages[c.ticket])
    && c.frame == Encode(messages[c.ticket]) && |c.frame| < SlotProtocol.BUFFER
  }

  lemma ClaimEncodes(t: SlotProtocol.State, messages: seq<Message>, i: nat, k: nat)
    requires SlotProtocol.Reachable(t) && CallsEncode(t, messages)
    requires i < |t.slots| && k < |t.slots[i].claims|
    ensures HoldsMessage(t.slots[i].claims[k], messages)
  {
    SlotTheorems.ReachableInv(t);
    assert SlotInvariant.SlotPlaced(t.place, t.calls, i, t.slots[i].claims);
    assert SlotInvariant.SlotOk(t.slots[i]);
    assert SlotInvariant.ClaimInBuffer(t.slots[i].buf, t.slots[i].claims[k]);
  }

  /** The call with this ticket has a claim among the given ones. */
  ghost predicate Among(c: nat, claims: seq<SlotProtocol.Claim>) {
    exists x :: 0 <= x < |claims| && claims[x].ticket == c
  }

  /** Slots are sent once, and their claims are where their calls are recorded. */
  ghost predicate Recorded(t: SlotProtocol.State) {
    && (forall j :: 0 <= j < |t.sent| ==> t.sent[j] < |t.slots|)
    && (forall j, k :: 0 <= j < k < |t.sent| ==> t.sent[j] != t.sent[k])
    && forall i :: 0 <= i < |t.slots| ==> SlotInvariant.SlotPlaced(t.place, t.calls, i, t.slots[i].claims)
  }

  lemma ReachableRecorded(t: SlotProtocol.State)
    requires SlotProtocol.Reachable(t)
    ensures Recorded(t)
  {
    SlotTheorems.ReachableInv(t);
  }

  /** The call is recorded in one of the first n slots sent. */
  ghost predicate SentAmong(t: SlotProtocol.State, n: nat, c: nat)
    requires n <= |t.sent|
  {
    && c in t.place && t.place[c].InBatch?
    && exists j :: 0 <= j < n && t.sent[j] == t.place[c].slot
  }

  lemma {:induction false} SentPlaced(t: SlotProtocol.State, n: nat)
    requires Recorded(t) && n <= |t.sent|
    ensures forall x :: 0 <= x < |SentClaims(t, n)| ==> SentAmong(t, n, SentClaims(t, n)[x].ticket)
    decreases n
  {
    if n > 0 {
      var i := t.sent[n - 1];
      SentPlaced(t, n - 1);
      assert SlotInvariant.SlotPlaced(t.place, t.calls, i, t.slots[i].claims);
    }
  }

  /** No call has two claims among the sent ones. */
  lemma {:induction false} SentOnce(t: SlotProtocol.State, n: nat)
    requires Recorded(t) && n <= |t.sent|
    ensures forall x, y :: 0 <= x < y < |SentClaims(t, n)| ==>
              SentClaims(t, n)[x].ticket != SentClaims(t, n)[y].ticket
    decreases n
  {
    if n > 0 {
      var i := t.sent[n - 1];
      var before, claims := SentClaims(t, n - 1), SentClaims(t, n);
      SentOnce(t, n - 1);
      SentPlaced(t, n - 1);
      assert SlotInvariant.SlotPlaced(t.place, t.calls, i, t.slots[i].claims);
      assert claims == before + t.slots[i].claims;
      forall x, y | 0 <= x < y < |claims|
        ensures claims[x].ticket != claims[y].ticket
      {
        if x < |before| {
          assert claims[x] == before[x] && SentAmong(t, n - 1, before[x].ticket);
          assert y >= |before| ==> claims[y] == t.slots[i].claims[y - |before|];
        }
      }
    }
  }

  /** Every call that has a claim in a sent slot is among them. */
  lemma {:induction false} SentAll(t: SlotProtocol.State, n: nat, j: nat, k: nat)
    requires forall j :: 0 <= j < |t.sent| ==> t.sent[j] < |t.slots|
    requires j < n <= |t.sent| && k < |t.slots[t.sent[j]].claims|
    ensures Among(t.slots[t.sent[j]].claims[k].ticket, SentClaims(t, n))
    decreases n
  {
    var before, claims := SentClaims(t, n - 1), SentClaims(t, n);
    if j < n - 1 {
      SentAll(t, n - 1, j, k);
      var x :| 0 <= x < |before| && before[x].ticket == t.slots[t.sent[j]].claims[k].ticket;
      assert claims[x] == before[x];
    } else {
      assert claims[|before| + k] == t.slots[t.sent[j]].claims[k];
    }
  }

  lemma EncodedIsWellFormed(m: Message)
    requires Sendable(m) && |Encode(m)| < SlotProtocol.BUFFER
    ensures WellFormed(Encode(m)) && !IsExit(Encode(m))
  {
    EncodedFields(m.ft, m.data, m.extend);
  }

  /** Without exit frames the completed frames of n bytes are the ones that fit, from the front. */
  lemma {:induction false} CompletedPrefix(frames: seq<Bytes>, n: nat)
    requires AllWellFormed(frames) && forall i :: 0 <= i < |frames| ==> !IsExit(frames[i])
    ensures Completed(frames, n) <= frames
    ensures n == |Flatten(frames)| ==> Completed(frames, n) == frames
    decreases |frames|
  {
    if frames != [] && |frames[0]| <= n {
      assert forall i :: 1 <= i < |frames| ==> frames[i] == frames[1..][i - 1];
      CompletedPrefix(frames[1..], n - |frames[0]|);
    }
  }

  /** What a handler gets to see of a routed frame. */
  ghost predicate Shows(frame: Bytes, m: Message) {
    && |frame| >= HEAD
    && var f := DecodeByBytes(frame);
       && f.GetFrameType() == m.ft
       && HEAD <= f.splitLength <= |f.base|
       && f.GetData() == m.data && f.GetExtend() == m.extend
  }

  /**
   Messages encoded by NewFrameSlice, batched by slots, put on the wire and cut into arbitrary reads come
   out in allotment order, batch by batch, with the same type, data and extend. Part of the wire gives a
   prefix of them; all of it gives all of them.
   */
  lemma MessagesArrive(t: SlotProtocol.State, messages: seq<Message>, pieces: seq<Bytes>)
    requires SlotProtocol.Reachable(t) && CallsEncode(t, messages)
    requires Flatten(pieces) <= Flatten(t.wire)
    ensures forall j :: 0 <= j < |t.sent| ==> t.sent[j] < |t.slots|
    ensures var rc := ReceiveAll(Start(SlotProtocol.BUFFER), pieces);
            var claims := SentClaims(t, |t.sent|);
            && !rc.failed && !rc.exited
            && |rc.routed| <= |claims|
            && (forall x :: 0 <= x < |rc.routed| ==>
                  claims[x].ticket < |messages| && Shows(rc.routed[x], messages[claims[x].ticket]))
            && (Flatten(pieces) == Flatten(t.wire) ==> |rc.routed| == |claims|)
  {
    SlotTheorems.WireIsBatches(t);
    var n := |t.sent|;
    var claims := SentClaims(t, n);
    var frames := SlotInvariant.Frames(claims);
    WireBytes(t, n);
    assert t.wire[..n] == t.wire;
    SentEncode(t, messages, n);
    SentWellFormed(claims, messages);
    Reassembly(SlotProtocol.BUFFER, frames, pieces);
    CompletedPrefix(frames, |Flatten(pieces)|);
    NoExitRouted(frames, Flatten(pieces));
    var rc := ReceiveAll(Start(SlotProtocol.BUFFER), pieces);
    ReceiveParses(Start(SlotProtocol.BUFFER), pieces);
    assert Start(SlotProtocol.BUFFER).pending + Flatten(pieces) == Flatten(pieces);
    forall x | 0 <= x < |rc.routed|
      ensures claims[x].ticket < |messages| && Shows(rc.routed[x], messages[claims[x].ticket])
    {
      assert rc.routed[x] == frames[x] == claims[x].frame;
      assert HoldsMessage(claims[x], messages);
      var m := messages[claims[x].ticket];
      FrameRoundTrip(m.ft, m.data, m.extend);
    }
  }

  /** The receiver's handler has been given the message of call c exactly once. */
  ghost predicate ArrivesOnce(t: SlotProtocol.State, messages: seq<Message>, pieces: seq<Bytes>, c: nat) {
    && c < |messages| && (forall j :: 0 <= j < |t.sent| ==> t.sent[j] < |t.slots|)
    && var rc := ReceiveAll(Start(SlotProtocol.BUFFER), pieces);
       var claims := SentClaims(t, |t.sent|);
       && !rc.failed && |rc.routed| == |claims|
       && exists x :: 0 <= x < |claims| && Shows(rc.routed[x], messages[c]) &&
                      forall y :: 0 <= y < |claims| ==> (claims[y].ticket == c <==> y == x)
  }

  /** Call c has a place in the allotment order of the sent slots, and only one. */
  lemma StandsOnce(t: SlotProtocol.State, c: nat) returns (x: nat)
    requires Recorded(t) && exists i, k :: SlotTheorems.FrameAt(t, c, i, k) && i in t.sent
    ensures x < |SentClaims(t, |t.sent|)|
    ensures forall y :: 0 <= y < |SentClaims(t, |t.sent|)| ==> (SentClaims(t, |t.sent|)[y].ticket == c <==> y == x)
  {
    var n := |t.sent|;
    SentOnce(t, n);
    var i: nat, k: nat :| SlotTheorems.FrameAt(t, c, i, k) && i in t.sent;
    var j :| 0 <= j < n && t.sent[j] == i;
    SentAll(t, n, j, k);
    x :| 0 <= x < |SentClaims(t, n)| && SentClaims(t, n)[x].ticket == c;
  }

  /** However the wire is cut into reads, the message of every accepted call of a sent slot arrives once. */
  lemma SentArrivesOnce(t: SlotProtocol.State, messages: seq<Message>, pieces: seq<Bytes>, c: nat)
    requires SlotProtocol.Reachable(t) && CallsEncode(t, messages)
    requires Flatten(pieces) == Flatten(t.wire)
    requires c in t.returned && exists i, k :: SlotTheorems.FrameAt(t, c, i, k) && i in t.sent
    ensures ArrivesOnce(t, messages, pieces, c)
  {
    ReachableRecorded(t);
    MessagesArrive(t, messages, pieces);
    var x := StandsOnce(t, c);
    var rc := ReceiveAll(Start(SlotProtocol.BUFFER), pieces);
    assert SentClaims(t, |t.sent|)[x].ticket == c && Shows(rc.routed[x], messages[c]);
  }

  /** And from every state with room in the cursors some run brings every accepted message there. */
  lemma AcceptedCanArrive(t: SlotProtocol.State, messages: seq<Message>)
    returns (steps: seq<SlotProtocol.Step>, u: SlotProtocol.State)
    requires SlotProtocol.Reachable(t) && SlotProgress.Room(t) && CallsEncode(t, messages)
    ensures SlotProtocol.Path(t, steps, u)
    ensures forall pieces, c :: Flatten(pieces) == Flatten(u.wire) && c in SlotProgress.Accepted(t) ==>
              ArrivesOnce(u, messages, pieces, c)
  {
    var accepted := SlotProgress.Accepted(t);
    SlotProgress.AcceptedCanBeSent(t);
    steps, u :| SlotProtocol.Path(t, steps, u) && u.calls == t.calls &&
                forall c :: c in accepted ==> SlotProgress.OnWire(u, c);
    SlotProgress.StillReachable(t, steps, u);
    forall pieces, c | Flatten(pieces) == Flatten(u.wire) && c in accepted
      ensures ArrivesOnce(u, messages, pieces, c)
    {
      assert SlotProgress.OnWire(u, c);
      SentArrivesOnce(u, messages, pieces, c);
    }
  }

  lemma SentWellFormed(claims: seq<SlotProtocol.Claim>, messages: seq<Message>)
    requires forall x :: 0 <= x < |claims| ==> HoldsMessage(claims[x], messages)
    ensures var frames := SlotInvariant.Frames(claims);
            && AllWellFormed(frames)
            && forall x :: 0 <= x < |frames| ==> !IsExit(frames[x]) && |frames[x]| <= SlotProtocol.BUFFER
  {
    forall x | 0 <= x < |claims|
      ensures WellFormed(claims[x].frame) && !IsExit(claims[x].frame)
    {
      assert HoldsMessage(claims[x], messages);
      EncodedIsWellFormed(messages[claims[x].ticket]);
    }
  }

  /** Frames that are no exit frames never make the receiver stop. */
  lemma {:induction false} NoExitRouted(frames: seq<Bytes>, b: Bytes)
    requires AllWellFormed(frames) && (forall i :: 0 <= i < |frames| ==> !IsExit(frames[i])) && b <= Flatten(frames)
    ensures !Parse(b).exited
    decreases |frames|
  {
    if frames != [] {
      var f := frames[0];
      if |b| < |f| {
        HeadPartial(f, b);
      } else {
        HeadWhole(f, b);
        assert forall i :: 1 <= i < |frames| ==> frames[i] == frames[1..][i - 1];
        NoExitRouted(frames[1..], b[|f|..]);
      }
    }
  }
}
