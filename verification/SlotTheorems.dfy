/** The slot protocol over whole runs: batches are exact, and no accepted frame is lost or sent twice. */
module SlotTheorems {
  import opened Slices
  import opened FrameCodec
  import opened SlotProtocol
  import opened SlotInvariant
  import opened SlotSafety

  lemma {:induction false} PathInv(s: State, steps: seq<Step>, t: State)
    requires Inv(s) && Path(s, steps, t)
    ensures Inv(t)
    decreases |steps|
  {
    if steps != [] {
      StepInv(s, steps[0]);
      PathInv(Apply(s, steps[0]), steps[1..], t);
    }
  }

  lemma ReachableInv(t: State)
    requires Reachable(t)
    ensures Inv(t)
  {
    var s, steps :| Init(s) && Path(s, steps, t);
    InitInv(s);
    PathInv(s, steps, t);
  }

  // ---------- batches ----------

  /**
   When a worker finds writeLock at 0, the accepted claims tile [0, availableCursor) and the buffer
   up to there is exactly their frames in allotment order.
   */
  lemma DrainedSlotIsExact(t: State, k: nat)
    requires Reachable(t) && Enabled(t, Drain(k))
    ensures var slot := t.slots[t.jobs[k].slot];
            && Tiled(slot.claims, 0, slot.avail) && HEAD <= slot.avail <= |slot.buf|
            && slot.buf[..slot.avail] == Flatten(Frames(slot.claims))
            && forall j :: 0 <= j < |slot.claims| ==> slot.claims[j].stage == Committed
  {
    ReachableInv(t);
    var i := t.jobs[k].slot;
    QueuedHasClaim(t, k);
    UnlockedIsClosed(t, i);
    BatchOf(t.slots[i]);
  }

  /** Sending writes that batch, and never reaches the ErrAvailableCursor branch. */
  lemma SendWritesBatch(t: State, k: nat)
    requires Reachable(t) && Enabled(t, Send(k))
    ensures var i := t.jobs[k].slot;
            var u := Apply(t, Send(k));
            && u.wire == t.wire + [Flatten(Frames(t.slots[i].claims))]
            && u.sent == t.sent + [i] && i !in t.sent
            && u.availErrors == t.availErrors == 0
  {
    ReachableInv(t);
    var i := t.jobs[k].slot;
    QueuedHasClaim(t, k);
    PastIsSettled(t, k);
    BatchOf(t.slots[i]);
  }

  /** Over every run the wire carries one batch per sent slot, each with all of that slot's frames. */
  lemma WireIsBatches(t: State)
    requires Reachable(t)
    ensures |t.wire| == |t.sent| && t.availErrors == 0
    ensures forall j :: 0 <= j < |t.sent| ==> t.sent[j] < |t.slots|
    ensures forall j :: 0 <= j < |t.sent| ==> t.wire[j] == Flatten(Frames(t.slots[t.sent[j]].claims))
    ensures forall j, k :: 0 <= j < k < |t.sent| ==> t.sent[j] != t.sent[k]
  {
    ReachableInv(t);
  }

  // ---------- the boundary and the queue ----------

  /** At most one range of a slot crosses the boundary, and the first range always fits. */
  lemma OneCrossing(t: State, i: nat)
    requires Reachable(t) && i < |t.slots|
    ensures t.slots[i].crossings <= 1 && (t.slots[i].crossings == 1 <==> t.slots[i].allot > BUFFER)
    ensures t.slots[i].allot > 0 ==> t.slots[i].claims != [] && t.slots[i].claims[0].start == 0
  {
    ReachableInv(t);
    assert SlotOk(t.slots[i]);
  }

  lemma ReturnedApart(t: State, p: nat, c: nat)
    requires Inv(t)
    ensures c in t.returned && p in t.writers ==> t.writers[p].ticket != c
    ensures c in t.returned ==> c in t.place && t.place[c].InBatch?
  {
    assert c in t.returned ==> ReturnedPlaced(t.writers, t.place, c);
  }

  /** The ticket of an uncommitted or not yet queued claim belongs to a call at work. */
  lemma OwnedNotReturned(t: State, i: nat, k: nat)
    requires Inv(t) && i < |t.slots| && k < |t.slots[i].claims|
    requires ClaimOwned(t.writers, i, t.slots[i].claims[k])
    ensures t.slots[i].claims[k].ticket !in t.returned
  {
    ReturnedApart(t, t.slots[i].claims[k].writer, t.slots[i].claims[k].ticket);
  }

  /** A call at work whose frame is in a batch owns its claim. */
  lemma AtWorkOwns(t: State, p: nat, i: nat, k: nat)
    requires Inv(t) && i < |t.slots| && k < |t.slots[i].claims|
    requires p in t.writers && t.writers[p].ticket == t.slots[i].claims[k].ticket
    ensures ClaimOwned(t.writers, i, t.slots[i].claims[k])
  {
    var w := t.writers[p];
    var c := t.slots[i].claims[k];
    assert SlotPlaced(t.place, t.calls, i, t.slots[i].claims);
    assert WriterPlaced(t.place, t.calls, p, w);
    var j := FindClaim(t, p);
    assert SlotPlaced(t.place, t.calls, w.slot, t.slots[w.slot].claims);
  }

  /** A slot is queued exactly once, and that as soon as the call that made its first claim has returned. */
  lemma QueuedExactlyOnce(t: State, i: nat)
    requires Reachable(t) && i < |t.slots|
    ensures forall j, k :: 0 <= j < k < |t.jobs| && t.jobs[j].slot == i ==> t.jobs[k].slot != i
    ensures InQueue(t.jobs, i) <==> t.slots[i].claims != [] && t.slots[i].claims[0].ticket in t.returned
  {
    ReachableInv(t);
    assert QueueOk(t.writers, t.jobs, i, t.slots[i]);
    if t.slots[i].claims != [] {
      var c := t.slots[i].claims[0];
      assert SlotPlaced(t.place, t.calls, i, t.slots[i].claims);
      if ClaimOwned(t.writers, i, c) {
        OwnedNotReturned(t, i, 0);
      } else if c.ticket !in t.returned {
        var p :| p in t.writers && t.writers[p].ticket == c.ticket;
        AtWorkOwns(t, p, i, 0);
      }
    }
  }

  /** With no call in progress every slot that has a claim is queued. */
  lemma QuietMeansQueued(t: State, i: nat)
    requires Reachable(t) && i < |t.slots| && t.writers == map[]
    ensures InQueue(t.jobs, i) <==> t.slots[i].claims != []
  {
    ReachableInv(t);
    assert QueueOk(t.writers, t.jobs, i, t.slots[i]);
  }

  // ---------- reject callbacks ----------

  /** The length of the array of reject callbacks, BytesPoolLenght / 8. */
  const REJECTS: nat := BUFFER / 8

  /** The committed claims: an upper bound of rejectCursor, and its value once they have all registered. */
  function Commits(claims: seq<Claim>): nat {
    if claims == [] then 0 else (if claims[0].stage == Committed then 1 else 0) + Commits(claims[1..])
  }

  /** Each claim takes a frame head at least. */
  lemma {:induction false} CommitsBound(claims: seq<Claim>)
    requires forall k :: 0 <= k < |claims| ==> HEAD <= |claims[k].frame|
    ensures Commits(claims) <= |claims| && HEAD * |claims| <= Total(claims)
    ensures Commits(claims) == |claims| <==> forall k :: 0 <= k < |claims| ==> claims[k].stage == Committed
    ensures HEAD * |claims| == Total(claims) <==> forall k :: 0 <= k < |claims| ==> |claims[k].frame| == HEAD
    decreases |claims|
  {
    if claims != [] {
      assert forall k :: 1 <= k < |claims| ==> claims[k] == claims[1..][k - 1];
      CommitsBound(claims[1..]);
    }
  }

  /**
   A callback is registered at the number of commits of its slot so far, counted from 1. That is inside the
   array unless the slot is full of frames that are nothing but a head, and the last of them is committed.
   */
  lemma RejectsInRangeIff(t: State, i: nat)
    requires Reachable(t) && i < |t.slots|
    ensures var claims := t.slots[i].claims;
            && Commits(claims) <= REJECTS
            && (Commits(claims) < REJECTS <==>
                  !(Total(claims) == BUFFER && forall k :: 0 <= k < |claims| ==>
                      |claims[k].frame| == HEAD && claims[k].stage == Committed))
  {
    ReachableInv(t);
    assert SlotOk(t.slots[i]);
    assert forall k :: 0 <= k < |t.slots[i].claims| ==> ClaimInBuffer(t.slots[i].buf, t.slots[i].claims[k]);
    CommitsBound(t.slots[i].claims);
  }

  // ---------- accepted frames ----------

  ghost predicate FrameAt(t: State, c: nat, i: nat, k: nat) {
    i < |t.slots| && k < |t.slots[i].claims| && t.slots[i].claims[k].ticket == c
  }

  /**
   The frame of a call that returned nil sits at exactly one position of exactly one slot; that slot
   has been sent in exactly one batch, or it is still waiting and will be sent when its job runs.
   */
  lemma AcceptedExactlyOnce(t: State, c: nat) returns (i: nat, k: nat)
    requires Reachable(t) && c in t.returned
    ensures FrameAt(t, c, i, k)
    ensures forall j: nat, l: nat :: FrameAt(t, c, j, l) ==> j == i && l == k
    ensures c < |t.calls| && t.slots[i].claims[k].frame == t.calls[c]
    ensures t.slots[i].claims[k].stage == Committed
    ensures i in t.sent ==> exists n :: 0 <= n < |t.sent| && t.sent[n] == i
                              && |t.wire| == |t.sent| && t.wire[n] == Flatten(Frames(t.slots[i].claims))
    ensures i !in t.sent ==>
              || (exists n :: 0 <= n < |t.jobs| && t.jobs[n].slot == i && t.jobs[n].phase != Sent)
              || ClaimOwned(t.writers, i, t.slots[i].claims[0])
  {
    ReachableInv(t);
    assert ReturnedPlaced(t.writers, t.place, c);
    assert PlaceTrue(t.slots, t.writers, c, t.place[c]);
    i, k := t.place[c].slot, t.place[c].position;
    forall j: nat, l: nat | FrameAt(t, c, j, l)
      ensures j == i && l == k
    {
      assert SlotPlaced(t.place, t.calls, j, t.slots[j].claims);
    }
    assert SlotPlaced(t.place, t.calls, i, t.slots[i].claims);
    assert SlotOwned(t.writers, i, t.slots[i]);
    assert QueueOk(t.writers, t.jobs, i, t.slots[i]);
    if i in t.sent {
      var n :| 0 <= n < |t.sent| && t.sent[n] == i;
      assert t.wire[n] == Flatten(Frames(t.slots[i].claims));
    } else if !ClaimOwned(t.writers, i, t.slots[i].claims[0]) {
      var n :| 0 <= n < |t.jobs| && t.jobs[n].slot == i;
      assert t.jobs[n].phase != Sent;
    }
  }

  /** A call that was turned away has its frame in no slot. */
  lemma TurnedAwayNowhere(t: State, c: nat)
    requires Reachable(t) && c in t.place && t.place[c] == TurnedAway
    ensures c !in t.returned && forall i: nat, k: nat :: !FrameAt(t, c, i, k)
  {
    ReachableInv(t);
    ReturnedApart(t, 0, c);
    forall i: nat, k: nat
      ensures !FrameAt(t, c, i, k)
    {
      FramePlaced(t, c, i, k);
    }
  }

  lemma FramePlaced(t: State, c: nat, i: nat, k: nat)
    requires Inv(t)
    ensures FrameAt(t, c, i, k) ==> c in t.place && t.place[c] == InBatch(i, k)
  {
    assert i < |t.slots| ==> SlotPlaced(t.place, t.calls, i, t.slots[i].claims);
  }
}
