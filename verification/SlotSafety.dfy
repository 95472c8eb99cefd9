/** Every step of the slot protocol keeps the invariant. */
module SlotSafety {
  import opened Bits
  import opened Conver
  import opened Slices
  import opened FrameCodec
  import opened SlotProtocol
  import opened SlotInvariant

  lemma InitInv(s: State)
    requires Init(s)
    ensures Inv(s)
  {
    assert Holders(s.writers, 0) == {};
  }

  // ---------- steps that change no claim ----------

  ghost predicate SameClaims(slots: seq<Slot>, slots': seq<Slot>) {
    |slots'| == |slots| && forall i :: 0 <= i < |slots| ==> slots'[i].claims == slots[i].claims
  }

  /** What a writer's move may look like when it changes no claim. */
  ghost predicate QuietWriter(w: Writer, w': Writer) {
    && w'.ticket == w.ticket && w'.frame == w.frame
    && ((!HasClaim(w) && !HasClaim(w')) || (w.pc == RangeCommitted && w' == w.(pc := LockReleased)))
  }

  lemma OwnershipSame(writers: map<nat, Writer>, p: nat, w': Writer)
    requires p in writers && QuietWriter(writers[p], w')
    ensures forall i, c :: ClaimOwned(writers, i, c) <==> ClaimOwned(writers[p := w'], i, c)
  {
  }

  lemma LocksMove(slots: seq<Slot>, slots': seq<Slot>, writers: map<nat, Writer>, p: nat, w': Writer)
    requires p in writers && |slots'| == |slots|
    requires forall i :: 0 <= i < |slots| ==> slots[i].lock == |Holders(writers, i)|
    requires forall i :: 0 <= i < |slots| ==>
      slots'[i].lock == slots[i].lock + (if Holds(w', i) then 1 else 0) - (if Holds(writers[p], i) then 1 else 0)
    ensures forall i :: 0 <= i < |slots'| ==> slots'[i].lock == |Holders(writers[p := w'], i)|
  {
    forall i | 0 <= i < |slots'|
      ensures slots'[i].lock == |Holders(writers[p := w'], i)|
    {
      HoldersMove(writers, p, w', i);
    }
  }

  lemma QuietQueue(s: State, slots': seq<Slot>, p: nat, w': Writer)
    requires p in s.writers && QuietWriter(s.writers[p], w') && SameClaims(s.slots, slots')
    requires forall i :: 0 <= i < |s.slots| ==> SlotOwned(s.writers, i, s.slots[i])
    requires forall i :: 0 <= i < |s.slots| ==> QueueOk(s.writers, s.jobs, i, s.slots[i])
    ensures forall i :: 0 <= i < |slots'| ==> SlotOwned(s.writers[p := w'], i, slots'[i])
    ensures forall i :: 0 <= i < |slots'| ==> QueueOk(s.writers[p := w'], s.jobs, i, slots'[i])
  {
    OwnershipSame(s.writers, p, w');
    forall i | 0 <= i < |slots'|
      ensures SlotOwned(s.writers[p := w'], i, slots'[i]) && QueueOk(s.writers[p := w'], s.jobs, i, slots'[i])
    {
      assert SlotOwned(s.writers, i, s.slots[i]) && QueueOk(s.writers, s.jobs, i, s.slots[i]);
      assert slots'[i].claims == s.slots[i].claims;
    }
  }

  lemma QuietWriters(s: State, slots': seq<Slot>, p: nat, w': Writer)
    requires p in s.writers && SameClaims(s.slots, slots') && WriterOk(slots', p, w')
    requires WritersOk(s.slots, s.writers)
    ensures WritersOk(slots', s.writers[p := w'])
  {
    forall q | q in s.writers && q != p
      ensures WriterOk(slots', q, s.writers[q])
    {
      assert WriterOk(s.slots, q, s.writers[q]);
    }
  }

  /** Calls stay at work when a writer keeps its ticket or a new one comes. */
  lemma StillAtWork(writers: map<nat, Writer>, p: nat, w': Writer)
    requires p in writers ==> writers[p].ticket == w'.ticket
    ensures forall t :: AtWork(writers, t) ==> AtWork(writers[p := w'], t)
  {
    forall t | AtWork(writers, t)
      ensures AtWork(writers[p := w'], t)
    {
      var q :| q in writers && writers[q].ticket == t;
      assert q in writers[p := w'] && writers[p := w'][q].ticket == t;
    }
  }

  lemma OthersAtWork(writers: map<nat, Writer>, p: nat)
    requires p in writers
    ensures forall t :: AtWork(writers, t) && t != writers[p].ticket ==> AtWork(writers - {p}, t)
  {
    forall t | AtWork(writers, t) && t != writers[p].ticket
      ensures AtWork(writers - {p}, t)
    {
      var q :| q in writers && writers[q].ticket == t;
      assert q in writers - {p} && (writers - {p})[q].ticket == t;
    }
  }

  /** A writer that goes on with its call leaves the returned calls where they are. */
  lemma SameTickets(writers: map<nat, Writer>, writers': map<nat, Writer>, place: map<nat, Place>,
                    place': map<nat, Place>, returned: set<nat>, p: nat)
    requires p in writers && p in writers' && writers' == writers[p := writers'[p]]
    requires writers'[p].ticket == writers[p].ticket && TicketsApart(writers)
    requires forall x :: x in returned ==> ReturnedPlaced(writers, place, x)
    requires var x := writers[p].ticket;
             place' == place || (x in place' && place' == place[x := place'[x]])
    ensures TicketsApart(writers') && forall x :: x in returned ==> ReturnedPlaced(writers', place', x)
  {
    forall x | x in returned
      ensures ReturnedPlaced(writers', place', x)
    {
      assert ReturnedPlaced(writers, place, x);
    }
  }

  lemma QuietPlaces(s: State, t: State, p: nat, w': Writer)
    requires PlacesOk(s.slots, s.writers, s.place, s.calls, s.returned)
    requires p in s.writers && QuietWriter(s.writers[p], w')
    requires t.writers == s.writers[p := w'] && SameClaims(s.slots, t.slots)
    ensures PlacesOk(t.slots, t.writers, s.place, s.calls, s.returned)
  {
    StillAtWork(s.writers, p, w');
    forall c | c in s.place
      ensures PlaceTrue(t.slots, t.writers, c, s.place[c])
    {
      QuietPlace(s, t, p, w', c);
    }
    forall c | c in s.returned
      ensures ReturnedPlaced(t.writers, s.place, c)
    {
      assert ReturnedPlaced(s.writers, s.place, c);
    }
  }

  lemma QuietPlace(s: State, t: State, p: nat, w': Writer, c: nat)
    requires c in s.place && PlaceTrue(s.slots, s.writers, c, s.place[c])
    requires p in s.writers && QuietWriter(s.writers[p], w')
    requires t.writers == s.writers[p := w'] && SameClaims(s.slots, t.slots)
    ensures PlaceTrue(t.slots, t.writers, c, s.place[c])
  {
  }

  lemma QuietWire(s: State, slots': seq<Slot>)
    requires WireOk(s.slots, s.jobs, s.wire, s.sent) && SameClaims(s.slots, slots')
    ensures WireOk(slots', s.jobs, s.wire, s.sent)
  {
  }

  /** A move of one writer keeps drained slots closed if the writer gets no claim on one. */
  lemma QuietClosed(s: State, t: State, p: nat, w': Writer)
    requires ClosedOk(s.slots, s.writers, s.jobs) && SameClaims(s.slots, t.slots)
    requires t.writers == s.writers[p := w'] && t.jobs == s.jobs
    requires forall i :: 0 <= i < |s.slots| ==> t.slots[i].allot >= s.slots[i].allot
    requires forall i :: 0 <= i < |s.slots| && Holds(w', i) && IsDrained(s.jobs, i) ==> Shut(w', t.slots[i])
    ensures ClosedOk(t.slots, t.writers, t.jobs)
  {
    forall i | 0 <= i < |t.slots| && IsDrained(t.jobs, i)
      ensures ClosedSlot(t.writers, i, t.slots[i])
    {
      assert ClosedSlot(s.writers, i, s.slots[i]);
    }
  }

  /** A move of one writer that changes lock counts and cursors but no claim. */
  lemma QuietMove(s: State, t: State, p: nat, w': Writer)
    requires Inv(s) && p in s.writers && QuietWriter(s.writers[p], w')
    requires t == s.(writers := s.writers[p := w'], slots := t.slots) && SameClaims(s.slots, t.slots)
    requires forall i :: 0 <= i < |t.slots| ==> SlotOk(t.slots[i])
    requires forall i :: 0 <= i < |s.slots| ==>
      t.slots[i].lock == s.slots[i].lock + (if Holds(w', i) then 1 else 0) - (if Holds(s.writers[p], i) then 1 else 0)
    requires WriterOk(t.slots, p, w')
    requires forall i :: 0 <= i < |s.slots| ==> t.slots[i].allot >= s.slots[i].allot
    requires forall i :: 0 <= i < |s.slots| && Holds(w', i) && IsDrained(s.jobs, i) ==> Shut(w', t.slots[i])
    ensures Inv(t)
  {
    QuietClosed(s, t, p, w');
    LocksMove(s.slots, t.slots, s.writers, p, w');
    QuietQueue(s, t.slots, p, w');
    QuietWriters(s, t.slots, p, w');
    QuietPlaces(s, t, p, w');
    QuietWire(s, t.slots);
  }

  /** Such a move, where only slot i changes. */
  ghost predicate QuietChange(s: State, t: State, p: nat, w': Writer, i: nat, slot': Slot) {
    && p in s.writers && i < |s.slots| && QuietWriter(s.writers[p], w')
    && t == s.(writers := s.writers[p := w'], slots := s.slots[i := slot'])
    && slot'.claims == s.slots[i].claims && slot'.allot >= s.slots[i].allot
    && (s.writers[p].slot == i || !Holds(s.writers[p], s.writers[p].slot))
    && (w'.slot == i || !Holds(w', w'.slot))
    && slot'.lock == s.slots[i].lock + (if Holds(w', i) then 1 else 0) - (if Holds(s.writers[p], i) then 1 else 0)
  }

  lemma QuietFacts(s: State, t: State, p: nat, w': Writer, i: nat, slot': Slot)
    requires QuietChange(s, t, p, w', i, slot')
    ensures SameClaims(s.slots, t.slots) && t.slots[i] == slot'
    ensures forall j :: 0 <= j < |s.slots| && j != i ==> t.slots[j] == s.slots[j]
    ensures forall j :: 0 <= j < |s.slots| ==> t.slots[j].allot >= s.slots[j].allot
    ensures forall j :: 0 <= j < |s.slots| ==>
      t.slots[j].lock == s.slots[j].lock + (if Holds(w', j) then 1 else 0) - (if Holds(s.writers[p], j) then 1 else 0)
    ensures forall j :: Holds(w', j) && j != i ==> false
  {
  }

  lemma QuietChangeInv(s: State, t: State, p: nat, w': Writer, i: nat, slot': Slot)
    requires Inv(s) && QuietChange(s, t, p, w', i, slot') && SlotOk(slot') && WriterOk(t.slots, p, w')
    requires Holds(w', i) && IsDrained(s.jobs, i) ==> Shut(w', slot')
    ensures Inv(t)
  {
    QuietFacts(s, t, p, w', i, slot');
    QuietMove(s, t, p, w');
  }

  lemma LoadInv(s: State, p: nat)
    requires Inv(s) && Enabled(s, Load(p))
    ensures Inv(Apply(s, Load(p)))
  {
    assert WriterOk(s.slots, p, s.writers[p]);
    var w' := s.writers[p].(pc := SlotLoaded, slot := s.current);
    assert s.slots[s.current := s.slots[s.current]] == s.slots;
    QuietChangeInv(s, Apply(s, Load(p)), p, w', s.current, s.slots[s.current]);
  }

  /** A slot on which a writer has a claim, or can get one, has not been drained. */
  lemma OpenSlot(s: State, p: nat)
    requires Inv(s) && p in s.writers && s.writers[p].slot < |s.slots| && Holds(s.writers[p], s.writers[p].slot)
    requires !Shut(s.writers[p], s.slots[s.writers[p].slot])
    ensures !IsDrained(s.jobs, s.writers[p].slot)
  {
  }

  /** A change of the lock count alone keeps a slot. */
  lemma LockedOk(slot: Slot, delta: int)
    requires SlotOk(slot)
    ensures SlotOk(Locked(slot, delta))
  {
  }

  lemma LockInv(s: State, p: nat)
    requires Inv(s) && Enabled(s, Lock(p)) && LockSafe(s, p)
    ensures Inv(Apply(s, Lock(p)))
  {
    var w := s.writers[p];
    assert WriterOk(s.slots, p, w);
    LockedOk(s.slots[w.slot], 1);
    LockShape(s, p);
    QuietChangeInv(s, Apply(s, Lock(p)), p, w.(pc := LockTaken), w.slot, Locked(s.slots[w.slot], 1));
  }

  lemma LockShape(s: State, p: nat)
    requires Enabled(s, Lock(p)) && WriterOk(s.slots, p, s.writers[p])
    ensures var w := s.writers[p];
            var t := Apply(s, Lock(p));
            && QuietChange(s, t, p, w.(pc := LockTaken), w.slot, Locked(s.slots[w.slot], 1))
            && WriterOk(t.slots, p, w.(pc := LockTaken))
  {
  }

  lemma UnlockInv(s: State, p: nat)
    requires Inv(s) && Enabled(s, Unlock(p))
    ensures Inv(Apply(s, Unlock(p)))
  {
    var w := s.writers[p];
    assert WriterOk(s.slots, p, w);
    LockedOk(s.slots[w.slot], -1);
    UnlockShape(s, p);
    QuietChangeInv(s, Apply(s, Unlock(p)), p, w.(pc := LockReleased), w.slot, Locked(s.slots[w.slot], -1));
  }

  lemma UnlockShape(s: State, p: nat)
    requires Enabled(s, Unlock(p)) && WriterOk(s.slots, p, s.writers[p])
    ensures var w := s.writers[p];
            var t := Apply(s, Unlock(p));
            && QuietChange(s, t, p, w.(pc := LockReleased), w.slot, Locked(s.slots[w.slot], -1))
            && WriterOk(t.slots, p, w.(pc := LockReleased))
  {
    UnlockWriter(s.slots, Apply(s, Unlock(p)).slots, p, s.writers[p]);
  }

  lemma UnlockWriter(slots: seq<Slot>, slots': seq<Slot>, p: nat, w: Writer)
    requires WriterOk(slots, p, w) && w.pc == RangeCommitted && SameClaims(slots, slots')
    ensures WriterOk(slots', p, w.(pc := LockReleased))
  {
    var k :| 0 <= k < |slots[w.slot].claims| && Owns(p, w, slots[w.slot].claims[k]);
    assert Owns(p, w.(pc := LockReleased), slots'[w.slot].claims[k]);
  }

  // ---------- replacing the current slot ----------

  lemma ReplacedInv(s: State, i: nat)
    requires Inv(s)
    ensures Inv(Replaced(s, i))
    ensures i < |s.slots| ==> Replaced(s, i).current != i
  {
    if s.current == i {
      var t := Replaced(s, i);
      var n := |s.slots|;
      assert Holders(s.writers, n) == {} by {
        forall p | p in s.writers
          ensures !Holds(s.writers[p], n)
        {
          assert WriterOk(s.slots, p, s.writers[p]);
        }
      }
      assert forall j :: 0 <= j < n ==> t.slots[j] == s.slots[j];
      assert SlotOwned(t.writers, n, t.slots[n]) && QueueOk(t.writers, t.jobs, n, t.slots[n]);
      assert !IsDrained(t.jobs, n);
      ReplacedWriters(s.slots, s.writers);
      ReplacedPlaces(s);
    }
  }

  lemma ReplacedWriters(slots: seq<Slot>, writers: map<nat, Writer>)
    requires WritersOk(slots, writers)
    ensures WritersOk(slots + [NewSlot()], writers)
  {
    forall p | p in writers
      ensures WriterOk(slots + [NewSlot()], p, writers[p])
    {
      var w := writers[p];
      assert WriterOk(slots, p, w);
      if HasClaim(w) {
        var k :| 0 <= k < |slots[w.slot].claims| && Owns(p, w, slots[w.slot].claims[k]);
        assert Owns(p, w, (slots + [NewSlot()])[w.slot].claims[k]);
      }
    }
  }

  lemma ReplacedPlaces(s: State)
    requires PlacesOk(s.slots, s.writers, s.place, s.calls, s.returned)
    ensures PlacesOk(s.slots + [NewSlot()], s.writers, s.place, s.calls, s.returned)
  {
    forall c | c in s.place
      ensures PlaceTrue(s.slots + [NewSlot()], s.writers, c, s.place[c])
    {
      assert PlaceTrue(s.slots, s.writers, c, s.place[c]);
    }
  }

  lemma SwapInv(s: State, p: nat)
    requires Inv(s) && Enabled(s, Swap(p))
    ensures Inv(Apply(s, Swap(p)))
  {
    var w := s.writers[p];
    ReplacedInv(s, w.slot);
    var r := Replaced(s, w.slot);
    assert WriterOk(r.slots, p, w);
    SwappedInv(r, Apply(s, Swap(p)), p);
  }

  lemma SwappedInv(r: State, t: State, p: nat)
    requires Inv(r) && p in r.writers && r.writers[p].slot < |r.slots| && WriterOk(r.slots, p, r.writers[p])
    requires r.writers[p].pc == RangeTaken && !Fits(r.writers[p])
    requires t == Moved(r, p, r.writers[p].(pc := SlotSwapped))
    ensures Inv(t)
  {
    var i := r.writers[p].slot;
    assert r.slots[i := r.slots[i]] == r.slots;
    QuietChangeInv(r, t, p, r.writers[p].(pc := SlotSwapped), i, r.slots[i]);
  }

  // ---------- taking a range ----------

  /** Without 32-bit overflow a range starts where allotCursor was. */
  lemma RangeOf(w: Writer, allot: nat)
    requires allot + |w.frame| < TWO32
    ensures (allot + |w.frame|) % TWO32 == allot + |w.frame|
    ensures RangeStart(w.(pc := RangeTaken, end := allot + |w.frame|)) == allot
  {
  }

  /** A slot after a range that does not fit. */
  function Beyond(slot: Slot, length: nat): Slot {
    slot.(allot := slot.allot + length,
          crossings := slot.crossings + if slot.allot <= BUFFER < slot.allot + length then 1 else 0)
  }

  lemma BeyondSlot(slot: Slot, length: nat)
    requires SlotOk(slot) && slot.allot + length > BUFFER && length < BUFFER
    ensures SlotOk(Beyond(slot, length))
  {
  }

  ghost predicate RangeBeyond(s: State, t: State, p: nat) {
    && p in s.writers && s.writers[p].pc == LockTaken && s.writers[p].slot < |s.slots|
    && (var w := s.writers[p];
        var slot := s.slots[w.slot];
        && BUFFER < slot.allot + |w.frame| < TWO32
        && t == s.(writers := s.writers[p := OverWriter(w, slot)],
                   slots := s.slots[w.slot := Beyond(slot, |w.frame|)]))
  }

  function OverWriter(w: Writer, slot: Slot): Writer {
    w.(pc := RangeTaken, end := slot.allot + |w.frame|)
  }

  lemma AllotBeyond(s: State, t: State, p: nat)
    requires Inv(s) && RangeBeyond(s, t, p)
    ensures Inv(t)
  {
    var w := s.writers[p];
    var slot := s.slots[w.slot];
    assert WriterOk(s.slots, p, w);
    BeyondSlot(slot, |w.frame|);
    BeyondShape(s, t, p);
    QuietChangeInv(s, t, p, OverWriter(w, slot), w.slot, Beyond(slot, |w.frame|));
  }

  lemma BeyondShape(s: State, t: State, p: nat)
    requires RangeBeyond(s, t, p) && WriterOk(s.slots, p, s.writers[p])
    ensures var w := s.writers[p];
            var w' := OverWriter(w, s.slots[w.slot]);
            && QuietChange(s, t, p, w', w.slot, Beyond(s.slots[w.slot], |w.frame|))
            && WriterOk(t.slots, p, w') && Shut(w', Beyond(s.slots[w.slot], |w.frame|))
  {
  }

  ghost predicate ClaimAdded(s: State, t: State, p: nat, c: Claim) {
    && p in s.writers && s.writers[p].pc == LockTaken && s.writers[p].slot < |s.slots|
    && (var w := s.writers[p];
        var slot := s.slots[w.slot];
        && c == Claim(w.ticket, slot.allot, w.frame, p, Allotted) && c.End() <= BUFFER
        && t == s.(
             writers := s.writers[p := w.(pc := RangeTaken, end := c.End())],
             slots := s.slots[w.slot := slot.(allot := c.End(), claims := slot.claims + [c])],
             place := s.place[w.ticket := InBatch(w.slot, |slot.claims|)]))
  }

  lemma ClaimAddedSlot(slot: Slot, c: Claim)
    requires SlotOk(slot) && c.start == slot.allot && c.stage == Allotted
    requires HEAD <= |c.frame| < BUFFER && c.End() <= BUFFER
    ensures SlotOk(slot.(allot := c.End(), claims := slot.claims + [c]))
  {
    TotalsAppend(slot.claims, c);
    TiledAppend(slot.claims, 0, slot.allot, c);
  }

  lemma ClaimAddedOwned(s: State, t: State, p: nat, c: Claim, i: nat)
    requires ClaimAdded(s, t, p, c) && i < |s.slots| && SlotOk(s.slots[i])
    requires SlotOwned(s.writers, i, s.slots[i]) && QueueOk(s.writers, s.jobs, i, s.slots[i])
    ensures SlotOwned(t.writers, i, t.slots[i]) && QueueOk(t.writers, t.jobs, i, t.slots[i])
  {
    var w := s.writers[p];
    var before, after := s.slots[i].claims, t.slots[i].claims;
    TiledOrdered(before, 0, Total(before));
    forall k | 0 <= k < |after| && after[k].stage != Committed
      ensures ClaimOwned(t.writers, i, after[k])
    {
      if k < |before| {
        assert after[k] == before[k] && ClaimOwned(s.writers, i, before[k]);
        assert before[k].writer != p;
      }
    }
    if before != [] {
      assert after[0] == before[0] && ClaimInBuffer(s.slots[i].buf, before[0]);
      assert ClaimOwned(s.writers, i, before[0]) <==> ClaimOwned(t.writers, i, before[0]);
    } else if i == w.slot {
      assert ClaimOwned(t.writers, i, after[0]);
    }
  }

  lemma ClaimAddedWriters(s: State, t: State, p: nat, c: Claim)
    requires ClaimAdded(s, t, p, c) && WritersOk(s.slots, s.writers)
    ensures WritersOk(t.slots, t.writers)
  {
    var w := s.writers[p];
    forall q | q in t.writers
      ensures WriterOk(t.slots, q, t.writers[q])
    {
      assert WriterOk(s.slots, q, s.writers[q]);
      if q == p {
        assert Owns(p, t.writers[p], t.slots[w.slot].claims[|s.slots[w.slot].claims|]);
      } else if HasClaim(s.writers[q]) {
        var v := s.writers[q];
        var k :| 0 <= k < |s.slots[v.slot].claims| && Owns(q, v, s.slots[v.slot].claims[k]);
        assert Owns(q, v, t.slots[v.slot].claims[k]);
      }
    }
  }

  lemma ClaimAddedPlace(s: State, t: State, p: nat, c: Claim, x: nat)
    requires ClaimAdded(s, t, p, c) && x in t.place && WriterPlaced(s.place, s.calls, p, s.writers[p])
    requires x in s.place && PlaceTrue(s.slots, s.writers, x, s.place[x])
    ensures PlaceTrue(t.slots, t.writers, x, t.place[x])
  {
  }

  lemma ClaimAddedPlaces(s: State, t: State, p: nat, c: Claim)
    requires ClaimAdded(s, t, p, c) && PlacesOk(s.slots, s.writers, s.place, s.calls, s.returned)
    ensures PlacesOk(t.slots, t.writers, t.place, t.calls, t.returned)
  {
    StillAtWork(s.writers, p, t.writers[p]);
    var w := s.writers[p];
    assert WriterPlaced(s.place, s.calls, p, w);
    assert p in t.writers ==> AtWork(t.writers, w.ticket);
    forall x | x in t.place
      ensures PlaceTrue(t.slots, t.writers, x, t.place[x])
    {
      assert PlaceTrue(s.slots, s.writers, x, s.place[x]);
      ClaimAddedPlace(s, t, p, c, x);
    }
    forall i | 0 <= i < |t.slots|
      ensures SlotPlaced(t.place, t.calls, i, t.slots[i].claims)
    {
      ClaimAddedSlotPlaced(s, t, p, c, i);
    }
    forall q | q in t.writers
      ensures WriterPlaced(t.place, t.calls, q, t.writers[q])
    {
      assert WriterPlaced(s.place, s.calls, q, s.writers[q]);
    }
    SameTickets(s.writers, t.writers, s.place, t.place, s.returned, p);
  }

  lemma ClaimAddedSlotPlaced(s: State, t: State, p: nat, c: Claim, i: nat)
    requires ClaimAdded(s, t, p, c) && i < |s.slots| && SlotPlaced(s.place, s.calls, i, s.slots[i].claims)
    requires WriterPlaced(s.place, s.calls, p, s.writers[p])
    ensures SlotPlaced(t.place, t.calls, i, t.slots[i].claims)
  {
  }

  lemma ClaimAddedInv(s: State, t: State, p: nat, c: Claim)
    requires Inv(s) && ClaimAdded(s, t, p, c)
    ensures Inv(t)
  {
    var w := s.writers[p];
    assert WriterOk(s.slots, p, w);
    ClaimAddedSlot(s.slots[w.slot], c);
    OpenSlot(s, p);
    ClaimAddedShape(s, t, p, c);
    LocksMove(s.slots, t.slots, s.writers, p, t.writers[p]);
    ClaimAddedSlots(s, t, p, c);
    ClaimAddedWriters(s, t, p, c);
    ClaimAddedPlaces(s, t, p, c);
    ClosedElsewhere(s, t, p, w.slot);
    WireElsewhere(s, t.slots, w.slot);
  }

  lemma ClaimAddedShape(s: State, t: State, p: nat, c: Claim)
    requires ClaimAdded(s, t, p, c) && HEAD <= |c.frame|
    ensures var i := s.writers[p].slot;
            && |t.slots| == |s.slots| && (forall k :: 0 <= k < |s.slots| && k != i ==> t.slots[k] == s.slots[k])
            && t.slots[i].lock == s.slots[i].lock && Holds(t.writers[p], i) && Holds(s.writers[p], i)
            && t.writers[p].slot == i && t.writers == s.writers[p := t.writers[p]]
  {
  }

  lemma ClaimAddedSlots(s: State, t: State, p: nat, c: Claim)
    requires ClaimAdded(s, t, p, c) && forall i :: 0 <= i < |s.slots| ==> SlotOk(s.slots[i])
    requires forall i :: 0 <= i < |s.slots| ==> SlotOwned(s.writers, i, s.slots[i])
    requires forall i :: 0 <= i < |s.slots| ==> QueueOk(s.writers, s.jobs, i, s.slots[i])
    ensures forall i :: 0 <= i < |t.slots| ==> SlotOwned(t.writers, i, t.slots[i])
    ensures forall i :: 0 <= i < |t.slots| ==> QueueOk(t.writers, t.jobs, i, t.slots[i])
  {
    forall i | 0 <= i < |t.slots|
      ensures SlotOwned(t.writers, i, t.slots[i]) && QueueOk(t.writers, t.jobs, i, t.slots[i])
    {
      ClaimAddedOwned(s, t, p, c, i);
    }
  }

  /** A writer's work on a slot that has not been drained leaves the drained ones closed. */
  lemma ClosedElsewhere(s: State, t: State, p: nat, i: nat)
    requires ClosedOk(s.slots, s.writers, s.jobs) && !IsDrained(s.jobs, i) && t.jobs == s.jobs
    requires |t.slots| == |s.slots| && forall j :: 0 <= j < |s.slots| && j != i ==> t.slots[j] == s.slots[j]
    requires p in t.writers && t.writers == s.writers[p := t.writers[p]] && t.writers[p].slot == i
    ensures ClosedOk(t.slots, t.writers, t.jobs)
  {
    forall j | 0 <= j < |t.slots| && IsDrained(t.jobs, j)
      ensures ClosedSlot(t.writers, j, t.slots[j])
    {
      assert ClosedSlot(s.writers, j, s.slots[j]);
    }
  }

  /** The wire does not look at a slot that has not been sent. */
  lemma WireElsewhere(s: State, slots': seq<Slot>, i: nat)
    requires WireOk(s.slots, s.jobs, s.wire, s.sent)
    requires !IsDrained(s.jobs, i)
    requires |slots'| == |s.slots| && forall j :: 0 <= j < |s.slots| && j != i ==> slots'[j].claims == s.slots[j].claims
    ensures WireOk(slots', s.jobs, s.wire, s.sent)
  {
    forall j | 0 <= j < |s.sent|
      ensures s.sent[j] != i
    {
      assert InQueue(s.jobs, s.sent[j]);
      var k :| 0 <= k < |s.jobs| && s.jobs[k].slot == s.sent[j];
      assert s.jobs[k].slot in s.sent;
    }
  }

  /** What a fetch-add on allotCursor amounts to. */
  lemma AllotShape(s: State, p: nat)
    requires Enabled(s, Allot(p)) && AllotBelow(s, p)
    ensures var w := s.writers[p];
            var allot := s.slots[w.slot].allot;
            if allot + |w.frame| <= BUFFER
            then ClaimAdded(s, Apply(s, Allot(p)), p, Claim(w.ticket, allot, w.frame, p, Allotted))
            else RangeBeyond(s, Apply(s, Allot(p)), p)
  {
    RangeOf(s.writers[p], s.slots[s.writers[p].slot].allot);
  }

  lemma AllotInv(s: State, p: nat)
    requires Inv(s) && Enabled(s, Allot(p)) && AllotBelow(s, p)
    ensures Inv(Apply(s, Allot(p)))
  {
    var w := s.writers[p];
    var allot := s.slots[w.slot].allot;
    var t := Apply(s, Allot(p));
    AllotShape(s, p);
    if allot + |w.frame| <= BUFFER {
      ClaimAddedInv(s, t, p, Claim(w.ticket, allot, w.frame, p, Allotted));
    } else {
      AllotBeyond(s, t, p);
    }
  }

  // ---------- writing and committing a range ----------

  /** The claim a writer works on. */
  lemma FindClaim(s: State, p: nat) returns (j: nat)
    requires Inv(s) && p in s.writers && HasClaim(s.writers[p])
    ensures var w := s.writers[p];
            && w.slot < |s.slots| && j < |s.slots[w.slot].claims| && Owns(p, w, s.slots[w.slot].claims[j])
  {
    var w := s.writers[p];
    assert WriterOk(s.slots, p, w);
    j :| 0 <= j < |s.slots[w.slot].claims| && Owns(p, w, s.slots[w.slot].claims[j]);
  }

  ghost predicate ClaimStaged(s: State, t: State, p: nat, j: nat, pc: Pc) {
    && p in s.writers && s.writers[p].slot < |s.slots|
    && (var w := s.writers[p];
        var i := w.slot;
        var w' := w.(pc := pc);
        && j < |s.slots[i].claims| && Owns(p, w, s.slots[i].claims[j])
        && HasClaim(w') && Holds(w, i) && Holds(w', i) && w.pc != RangeCommitted
        && t == s.(writers := s.writers[p := w'], slots := t.slots)
        && |t.slots| == |s.slots| && (forall k :: 0 <= k < |s.slots| && k != i ==> t.slots[k] == s.slots[k])
        && t.slots[i].lock == s.slots[i].lock
        && t.slots[i].claims == s.slots[i].claims[j := s.slots[i].claims[j].(stage := StageOf(pc))])
  }

  lemma ClaimStagedOwned(s: State, t: State, p: nat, j: nat, pc: Pc, i: nat)
    requires ClaimStaged(s, t, p, j, pc) && i < |s.slots| && SlotOk(s.slots[i])
    requires SlotOwned(s.writers, i, s.slots[i]) && QueueOk(s.writers, s.jobs, i, s.slots[i])
    ensures SlotOwned(t.writers, i, t.slots[i]) && QueueOk(t.writers, t.jobs, i, t.slots[i])
  {
    var w := s.writers[p];
    var before, after := s.slots[i].claims, t.slots[i].claims;
    TiledOrdered(before, 0, Total(before));
    forall k | 0 <= k < |after|
      ensures ClaimOwned(s.writers, i, before[k]) <==> ClaimOwned(t.writers, i, after[k])
    {
      assert ClaimInBuffer(s.slots[i].buf, before[k]);
    }
  }

  lemma ClaimStagedWriters(s: State, t: State, p: nat, j: nat, pc: Pc)
    requires ClaimStaged(s, t, p, j, pc) && WritersOk(s.slots, s.writers)
    ensures WritersOk(t.slots, t.writers)
  {
    forall q | q in t.writers
      ensures WriterOk(t.slots, q, t.writers[q])
    {
      var v := s.writers[q];
      assert WriterOk(s.slots, q, v);
      if q == p {
        assert Owns(p, t.writers[p], t.slots[v.slot].claims[j]);
      } else if HasClaim(v) {
        var k :| 0 <= k < |s.slots[v.slot].claims| && Owns(q, v, s.slots[v.slot].claims[k]);
        assert Owns(q, v, t.slots[v.slot].claims[k]);
      }
    }
  }

  lemma ClaimStagedPlace(s: State, t: State, p: nat, j: nat, pc: Pc, x: nat)
    requires ClaimStaged(s, t, p, j, pc) && x in s.place && PlaceTrue(s.slots, s.writers, x, s.place[x])
    ensures PlaceTrue(t.slots, t.writers, x, s.place[x])
  {
  }

  lemma ClaimStagedPlaces(s: State, t: State, p: nat, j: nat, pc: Pc)
    requires ClaimStaged(s, t, p, j, pc) && PlacesOk(s.slots, s.writers, s.place, s.calls, s.returned)
    ensures PlacesOk(t.slots, t.writers, t.place, t.calls, t.returned)
  {
    StillAtWork(s.writers, p, t.writers[p]);
    forall x | x in t.place
      ensures PlaceTrue(t.slots, t.writers, x, t.place[x])
    {
      assert PlaceTrue(s.slots, s.writers, x, s.place[x]);
      ClaimStagedPlace(s, t, p, j, pc, x);
    }
    forall i | 0 <= i < |t.slots|
      ensures SlotPlaced(t.place, t.calls, i, t.slots[i].claims)
    {
      assert SlotPlaced(s.place, s.calls, i, s.slots[i].claims);
    }
    forall q | q in t.writers
      ensures WriterPlaced(t.place, t.calls, q, t.writers[q])
    {
      assert WriterPlaced(s.place, s.calls, q, s.writers[q]);
    }
    SameTickets(s.writers, t.writers, s.place, t.place, s.returned, p);
  }

  lemma ClaimStagedInv(s: State, t: State, p: nat, j: nat, pc: Pc)
    requires Inv(s) && ClaimStaged(s, t, p, j, pc) && SlotOk(t.slots[s.writers[p].slot])
    ensures Inv(t)
  {
    OpenSlot(s, p);
    LocksMove(s.slots, t.slots, s.writers, p, t.writers[p]);
    ClaimStagedSlots(s, t, p, j, pc);
    ClaimStagedWriters(s, t, p, j, pc);
    ClaimStagedPlaces(s, t, p, j, pc);
    ClosedElsewhere(s, t, p, s.writers[p].slot);
    WireElsewhere(s, t.slots, s.writers[p].slot);
  }

  lemma ClaimStagedSlots(s: State, t: State, p: nat, j: nat, pc: Pc)
    requires ClaimStaged(s, t, p, j, pc) && forall i :: 0 <= i < |s.slots| ==> SlotOk(s.slots[i])
    requires forall i :: 0 <= i < |s.slots| ==> SlotOwned(s.writers, i, s.slots[i])
    requires forall i :: 0 <= i < |s.slots| ==> QueueOk(s.writers, s.jobs, i, s.slots[i])
    ensures forall i :: 0 <= i < |t.slots| ==> SlotOwned(t.writers, i, t.slots[i])
    ensures forall i :: 0 <= i < |t.slots| ==> QueueOk(t.writers, t.jobs, i, t.slots[i])
  {
    forall k | 0 <= k < |t.slots|
      ensures SlotOwned(t.writers, k, t.slots[k]) && QueueOk(t.writers, t.jobs, k, t.slots[k])
    {
      ClaimStagedOwned(s, t, p, j, pc, k);
    }
  }

  /** Writing one claim's frame keeps the frames of the other claims. */
  lemma OtherFrame(buf: Bytes, start: nat, frame: Bytes, c: Claim)
    requires ClaimInBuffer(buf, c) && start + |frame| <= BUFFER == |buf|
    requires c.End() <= start || start + |frame| <= c.start
    ensures ClaimInBuffer(buf[..start] + frame + buf[start + |frame|..], c)
  {
    var buf' := buf[..start] + frame + buf[start + |frame|..];
    assert buf'[c.start..c.End()] == buf[c.start..c.End()];
  }

  lemma CopiedClaims(buf: Bytes, claims: seq<Claim>, j: nat)
    requires j < |claims| && Ordered(claims, 0, BUFFER)
    requires forall k :: 0 <= k < |claims| ==> ClaimInBuffer(buf, claims[k])
    ensures var c := claims[j];
            var claims' := claims[j := c.(stage := Written)];
            |buf| == BUFFER && c.End() <= BUFFER
            && forall k :: 0 <= k < |claims'| ==> ClaimInBuffer(buf[..c.start] + c.frame + buf[c.End()..], claims'[k])
  {
    var c := claims[j];
    assert ClaimInBuffer(buf, c);
    var buf' := buf[..c.start] + c.frame + buf[c.End()..];
    assert buf'[c.start..c.End()] == c.frame;
    forall k | 0 <= k < |claims| && k != j
      ensures ClaimInBuffer(buf', claims[k])
    {
      OtherFrame(buf, c.start, c.frame, claims[k]);
    }
  }

  lemma CopiedSlot(slot: Slot, j: nat)
    requires SlotOk(slot) && j < |slot.claims| && slot.claims[j].stage == Allotted
    ensures var c := slot.claims[j];
            && c.End() <= |slot.buf|
            && SlotOk(slot.(buf := slot.buf[..c.start] + c.frame + slot.buf[c.End()..],
                            claims := slot.claims[j := c.(stage := Written)]))
  {
    TiledOrdered(slot.claims, 0, Total(slot.claims));
    StageKeepsTiling(slot.claims, j, Written, 0, Total(slot.claims));
    StageCommits(slot.claims, j, Written);
    CopiedClaims(slot.buf, slot.claims, j);
  }

  lemma CommittedSlot(slot: Slot, j: nat)
    requires SlotOk(slot) && j < |slot.claims| && slot.claims[j].stage == Written
    ensures var c := slot.claims[j];
            SlotOk(slot.(avail := slot.avail + |c.frame|, claims := slot.claims[j := c.(stage := Committed)]))
  {
    var claims := slot.claims[j := slot.claims[j].(stage := Committed)];
    StageKeepsTiling(slot.claims, j, Committed, 0, Total(slot.claims));
    StageCommits(slot.claims, j, Committed);
    forall k | 0 <= k < |claims|
      ensures ClaimInBuffer(slot.buf, claims[k])
    {
      assert ClaimInBuffer(slot.buf, slot.claims[k]);
    }
  }

  lemma StagedInSlot(slot: Slot, j: nat, stage: Stage)
    requires SlotOk(slot) && j < |slot.claims|
    ensures Staged(slot.claims, slot.claims[j].End(), stage) == slot.claims[j := slot.claims[j].(stage := stage)]
  {
    forall k | 0 <= k < |slot.claims|
      ensures HEAD <= |slot.claims[k].frame|
    {
      assert ClaimInBuffer(slot.buf, slot.claims[k]);
    }
    StagedIsOne(slot.claims, j, stage, 0, Total(slot.claims));
  }

  lemma CopyFrameInv(s: State, p: nat)
    requires Inv(s) && Enabled(s, CopyFrame(p))
    ensures Inv(Apply(s, CopyFrame(p)))
  {
    var w := s.writers[p];
    var j := FindClaim(s, p);
    StagedInSlot(s.slots[w.slot], j, Written);
    CopiedSlot(s.slots[w.slot], j);
    ClaimStagedInv(s, Apply(s, CopyFrame(p)), p, j, FrameCopied);
  }

  lemma CommitInv(s: State, p: nat)
    requires Inv(s) && Enabled(s, Commit(p))
    ensures Inv(Apply(s, Commit(p)))
  {
    var w := s.writers[p];
    var j := FindClaim(s, p);
    StagedInSlot(s.slots[w.slot], j, Committed);
    CommittedSlot(s.slots[w.slot], j);
    CommitShape(s, p, j);
    ClaimStagedInv(s, Apply(s, Commit(p)), p, j, RangeCommitted);
  }

  lemma CommitShape(s: State, p: nat, j: nat)
    requires Enabled(s, Commit(p)) && j < |s.slots[s.writers[p].slot].claims|
    requires var w := s.writers[p];
             var claims := s.slots[w.slot].claims;
             && Owns(p, w, claims[j])
             && Staged(claims, claims[j].End(), Committed) == claims[j := claims[j].(stage := Committed)]
    ensures var t := Apply(s, Commit(p));
            var slot := s.slots[s.writers[p].slot];
            && ClaimStaged(s, t, p, j, RangeCommitted)
            && t.slots[s.writers[p].slot] ==
                 slot.(avail := slot.avail + |slot.claims[j].frame|,
                       claims := slot.claims[j := slot.claims[j].(stage := Committed)])
  {
  }

  // ---------- calls that begin and end ----------

  lemma CallInv(s: State, p: nat, data: Bytes)
    requires Inv(s) && Enabled(s, Call(p, data))
    ensures Inv(Apply(s, Call(p, data)))
  {
    CalledInv(s, Apply(s, Call(p, data)), p, Writer(AtLoop, |s.calls|, data, 0, 0, 0));
  }

  lemma CalledInv(s: State, t: State, p: nat, w: Writer)
    requires Inv(s) && p !in s.writers && w.pc == AtLoop && w.ticket == |s.calls| && HEAD <= |w.frame| < BUFFER
    requires t == s.(writers := s.writers[p := w], place := s.place[|s.calls| := Looking(p)],
                     calls := s.calls + [w.frame])
    ensures Inv(t)
  {
    forall i | 0 <= i < |t.slots|
      ensures t.slots[i].lock == |Holders(t.writers, i)|
    {
      HoldersMove(s.writers, p, w, i);
    }
    CalledOwned(s, t, p, w);
    CalledClosed(s, t, p, w);
    forall q | q in t.writers
      ensures WriterOk(t.slots, q, t.writers[q])
    {
      assert q != p ==> WriterOk(s.slots, q, s.writers[q]);
    }
    CallPlaces(s, t, p, w);
  }

  lemma CalledOwned(s: State, t: State, p: nat, w: Writer)
    requires forall i :: 0 <= i < |s.slots| ==> SlotOwned(s.writers, i, s.slots[i])
    requires forall i :: 0 <= i < |s.slots| ==> QueueOk(s.writers, s.jobs, i, s.slots[i])
    requires p !in s.writers && w.pc == AtLoop && t.writers == s.writers[p := w]
    requires t.slots == s.slots && t.jobs == s.jobs
    ensures forall i :: 0 <= i < |t.slots| ==> SlotOwned(t.writers, i, t.slots[i])
    ensures forall i :: 0 <= i < |t.slots| ==> QueueOk(t.writers, t.jobs, i, t.slots[i])
  {
    assert forall i, c :: ClaimOwned(s.writers, i, c) <==> ClaimOwned(t.writers, i, c);
    forall i | 0 <= i < |t.slots|
      ensures SlotOwned(t.writers, i, t.slots[i]) && QueueOk(t.writers, t.jobs, i, t.slots[i])
    {
      assert SlotOwned(s.writers, i, s.slots[i]) && QueueOk(s.writers, s.jobs, i, s.slots[i]);
    }
  }

  lemma CalledClosed(s: State, t: State, p: nat, w: Writer)
    requires ClosedOk(s.slots, s.writers, s.jobs) && w.pc == AtLoop && t.writers == s.writers[p := w]
    requires t.slots == s.slots && t.jobs == s.jobs
    ensures ClosedOk(t.slots, t.writers, t.jobs)
  {
    forall i | 0 <= i < |t.slots| && IsDrained(t.jobs, i)
      ensures ClosedSlot(t.writers, i, t.slots[i])
    {
      assert ClosedSlot(s.writers, i, s.slots[i]);
    }
  }

  lemma CallPlace(s: State, t: State, p: nat, w: Writer, x: nat)
    requires p !in s.writers && w.pc == AtLoop && w.ticket == |s.calls|
    requires forall c: nat :: c in s.place <==> c < |s.calls|
    requires t.slots == s.slots && t.writers == s.writers[p := w]
    requires x in s.place ==> PlaceTrue(s.slots, s.writers, x, s.place[x])
    requires t.place == s.place[|s.calls| := Looking(p)] && x in t.place
    ensures PlaceTrue(t.slots, t.writers, x, t.place[x])
  {
  }

  lemma CallPlaces(s: State, t: State, p: nat, w: Writer)
    requires PlacesOk(s.slots, s.writers, s.place, s.calls, s.returned)
    requires p !in s.writers && w.pc == AtLoop && w.ticket == |s.calls|
    requires t.slots == s.slots && t.writers == s.writers[p := w] && t.returned == s.returned
    requires t.place == s.place[|s.calls| := Looking(p)] && t.calls == s.calls + [w.frame]
    ensures PlacesOk(t.slots, t.writers, t.place, t.calls, t.returned)
  {
    StillAtWork(s.writers, p, w);
    forall x | x in t.place
      ensures PlaceTrue(t.slots, t.writers, x, t.place[x])
    {
      assert x in s.place ==> PlaceTrue(s.slots, s.writers, x, s.place[x]);
      CallPlace(s, t, p, w, x);
    }
    forall i | 0 <= i < |t.slots|
      ensures SlotPlaced(t.place, t.calls, i, t.slots[i].claims)
    {
      assert SlotPlaced(s.place, s.calls, i, s.slots[i].claims);
    }
    forall q | q in t.writers
      ensures WriterPlaced(t.place, t.calls, q, t.writers[q])
    {
      assert q != p ==> WriterPlaced(s.place, s.calls, q, s.writers[q]);
    }
    forall x | x in t.returned
      ensures ReturnedPlaced(t.writers, t.place, x)
    {
      assert ReturnedPlaced(s.writers, s.place, x);
    }
    forall q | q in s.writers
      ensures s.writers[q].ticket != |s.calls|
    {
      assert WriterPlaced(s.place, s.calls, q, s.writers[q]);
    }
  }

  /** A writer leaves without having a claim that is still to be committed or queued. */
  lemma LeavingOwned(writers: map<nat, Writer>, p: nat, i: nat, c: Claim)
    requires p in writers
    requires c.writer == p ==> !ClaimOwned(writers, i, c)
    ensures ClaimOwned(writers, i, c) <==> ClaimOwned(writers - {p}, i, c)
  {
  }

  lemma GiveUpInv(s: State, p: nat)
    requires Inv(s) && Enabled(s, Bounce(p)) && s.writers[p].busy > s.busyLimit
    ensures Inv(Apply(s, Bounce(p)))
  {
    var w := s.writers[p];
    assert WriterOk(s.slots, p, w) && !HasClaim(w);
    LockedOk(s.slots[w.slot], -1);
    GaveUpInv(s, Apply(s, Bounce(p)), p);
  }

  lemma GaveUpInv(s: State, t: State, p: nat)
    requires Inv(s) && p in s.writers && s.writers[p].slot < |s.slots|
    requires Holds(s.writers[p], s.writers[p].slot) && !HasClaim(s.writers[p])
    requires var w := s.writers[p];
             && SlotOk(Locked(s.slots[w.slot], -1))
             && t == s.(writers := s.writers - {p}, slots := s.slots[w.slot := Locked(s.slots[w.slot], -1)],
                        place := s.place[w.ticket := TurnedAway])
    ensures Inv(t)
  {
    GiveUpLocks(s, t, p);
    GiveUpOwned(s, t, p);
    LeavingWriters(s, t, p);
    LeavingClosed(s, t, p);
    GiveUpPlaces(s, t, p);
    QuietWire(s, t.slots);
  }

  lemma GiveUpLocks(s: State, t: State, p: nat)
    requires p in s.writers && s.writers[p].slot < |s.slots| && Holds(s.writers[p], s.writers[p].slot)
    requires forall i :: 0 <= i < |s.slots| ==> s.slots[i].lock == |Holders(s.writers, i)|
    requires var i := s.writers[p].slot;
             t.writers == s.writers - {p} && t.slots == s.slots[i := Locked(s.slots[i], -1)]
    ensures forall i :: 0 <= i < |t.slots| ==> t.slots[i].lock == |Holders(t.writers, i)|
    ensures SameClaims(s.slots, t.slots)
  {
    forall i | 0 <= i < |t.slots|
      ensures t.slots[i].lock == |Holders(t.writers, i)|
    {
      HoldersLeave(s.writers, p, i);
    }
  }

  lemma GiveUpOwned(s: State, t: State, p: nat)
    requires forall i :: 0 <= i < |s.slots| ==> SlotOwned(s.writers, i, s.slots[i])
    requires forall i :: 0 <= i < |s.slots| ==> QueueOk(s.writers, s.jobs, i, s.slots[i])
    requires p in s.writers && !HasClaim(s.writers[p]) && t.writers == s.writers - {p} && t.jobs == s.jobs
    requires SameClaims(s.slots, t.slots)
    ensures forall i :: 0 <= i < |t.slots| ==> SlotOwned(t.writers, i, t.slots[i])
    ensures forall i :: 0 <= i < |t.slots| ==> QueueOk(t.writers, t.jobs, i, t.slots[i])
  {
    forall i, c: Claim
      ensures ClaimOwned(s.writers, i, c) <==> ClaimOwned(t.writers, i, c)
    {
      LeavingOwned(s.writers, p, i, c);
    }
    forall i | 0 <= i < |t.slots|
      ensures SlotOwned(t.writers, i, t.slots[i]) && QueueOk(t.writers, t.jobs, i, t.slots[i])
    {
      assert SlotOwned(s.writers, i, s.slots[i]) && QueueOk(s.writers, s.jobs, i, s.slots[i]);
      assert t.slots[i].claims == s.slots[i].claims;
    }
  }

  lemma LeavingWriters(s: State, t: State, p: nat)
    requires WritersOk(s.slots, s.writers) && t.writers == s.writers - {p} && SameClaims(s.slots, t.slots)
    ensures WritersOk(t.slots, t.writers)
  {
    forall q | q in t.writers
      ensures WriterOk(t.slots, q, t.writers[q])
    {
      assert WriterOk(s.slots, q, s.writers[q]);
    }
  }

  lemma LeavingClosed(s: State, t: State, p: nat)
    requires ClosedOk(s.slots, s.writers, s.jobs) && SameClaims(s.slots, t.slots)
    requires t.writers == s.writers - {p} && forall i :: IsDrained(t.jobs, i) ==> IsDrained(s.jobs, i)
    requires forall i :: 0 <= i < |s.slots| ==> t.slots[i].allot == s.slots[i].allot
    ensures ClosedOk(t.slots, t.writers, t.jobs)
  {
    forall i | 0 <= i < |t.slots| && IsDrained(t.jobs, i)
      ensures ClosedSlot(t.writers, i, t.slots[i])
    {
      assert ClosedSlot(s.writers, i, s.slots[i]);
    }
  }

  lemma GiveUpPlaces(s: State, t: State, p: nat)
    requires PlacesOk(s.slots, s.writers, s.place, s.calls, s.returned)
    requires p in s.writers && !HasClaim(s.writers[p]) && SameClaims(s.slots, t.slots)
    requires t.writers == s.writers - {p} && t.place == s.place[s.writers[p].ticket := TurnedAway]
    requires t.calls == s.calls && t.returned == s.returned
    ensures PlacesOk(t.slots, t.writers, t.place, t.calls, t.returned)
  {
    OthersAtWork(s.writers, p);
    var w := s.writers[p];
    assert WriterPlaced(s.place, s.calls, p, w);
    forall x | x in t.place
      ensures PlaceTrue(t.slots, t.writers, x, t.place[x])
    {
      assert PlaceTrue(s.slots, s.writers, x, s.place[x]);
    }
    forall i | 0 <= i < |t.slots|
      ensures SlotPlaced(t.place, t.calls, i, t.slots[i].claims)
    {
      assert SlotPlaced(s.place, s.calls, i, s.slots[i].claims);
    }
    forall q | q in t.writers
      ensures WriterPlaced(t.place, t.calls, q, t.writers[q])
    {
      assert WriterPlaced(s.place, s.calls, q, s.writers[q]);
    }
    forall x | x in t.returned
      ensures ReturnedPlaced(t.writers, t.place, x)
    {
      assert ReturnedPlaced(s.writers, s.place, x);
    }
  }

  /** Releasing the lock and starting over. */
  ghost predicate StartedOver(s: State, t: State, p: nat, busy: nat) {
    && p in s.writers && s.writers[p].slot < |s.slots|
    && Holds(s.writers[p], s.writers[p].slot) && !HasClaim(s.writers[p])
    && (var w := s.writers[p];
        t == s.(writers := s.writers[p := w.(pc := AtLoop, busy := busy)],
                slots := s.slots[w.slot := Locked(s.slots[w.slot], -1)]))
  }

  lemma StartOver(s: State, t: State, p: nat, busy: nat)
    requires Inv(s) && StartedOver(s, t, p, busy)
    ensures Inv(t)
  {
    var w := s.writers[p];
    assert WriterOk(s.slots, p, w);
    LockedOk(s.slots[w.slot], -1);
    QuietChangeInv(s, t, p, w.(pc := AtLoop, busy := busy), w.slot, Locked(s.slots[w.slot], -1));
  }

  lemma AfterSwapInv(s: State, p: nat)
    requires Inv(s) && Enabled(s, AfterSwap(p))
    ensures Inv(Apply(s, AfterSwap(p)))
  {
    StartOver(s, Apply(s, AfterSwap(p)), p, 0);
  }

  lemma BounceShape(s: State, p: nat)
    requires Enabled(s, Bounce(p)) && s.writers[p].busy <= s.busyLimit
    ensures StartedOver(s, Apply(s, Bounce(p)), p, s.writers[p].busy + 1)
  {
  }

  lemma BounceInv(s: State, p: nat)
    requires Inv(s) && Enabled(s, Bounce(p))
    ensures Inv(Apply(s, Bounce(p)))
  {
    if s.writers[p].busy > s.busyLimit {
      GiveUpInv(s, p);
    } else {
      BounceShape(s, p);
      StartOver(s, Apply(s, Bounce(p)), p, s.writers[p].busy + 1);
    }
  }

  /** The returning writer owns the first claim of its slot exactly if its range starts at 0. */
  lemma FirstClaimer(slot: Slot, p: nat, w: Writer, j: nat)
    requires SlotOk(slot) && j < |slot.claims| && Owns(p, w, slot.claims[j])
    ensures RangeStart(w) == 0 <==> j == 0
    ensures Owns(p, w, slot.claims[0]) <==> j == 0
  {
    var claims := slot.claims;
    TiledOrdered(claims, 0, Total(claims));
    assert ClaimInBuffer(slot.buf, claims[j]) && ClaimInBuffer(slot.buf, claims[0]);
    assert RangeStart(w) == claims[j].start;
    if j > 0 {
      assert claims[0].End() <= claims[j].start;
    }
  }

  /** Which claims of slot i have their writer at work after the return. */
  lemma FinishOwned(writers: map<nat, Writer>, p: nat, j: nat, i: nat, slot: Slot)
    requires p in writers && writers[p].pc == LockReleased && SlotOk(slot) && SlotOwned(writers, i, slot)
    requires i == writers[p].slot ==> j < |slot.claims| && Owns(p, writers[p], slot.claims[j])
    ensures SlotOwned(writers - {p}, i, slot)
    ensures slot.claims != [] ==>
              (ClaimOwned(writers - {p}, i, slot.claims[0]) <==>
                ClaimOwned(writers, i, slot.claims[0]) && !(i == writers[p].slot && j == 0))
  {
    if i == writers[p].slot {
      FirstClaimer(slot, p, writers[p], j);
    }
  }

  lemma FinishQueue(s: State, t: State, p: nat, j: nat, i: nat)
    requires i < |s.slots| && p in s.writers && s.writers[p].pc == LockReleased
    requires SlotOk(s.slots[i]) && SlotOwned(s.writers, i, s.slots[i]) && QueueOk(s.writers, s.jobs, i, s.slots[i])
    requires t.writers == s.writers - {p} && t.slots == s.slots
    requires i == s.writers[p].slot ==> j < |s.slots[i].claims| && Owns(p, s.writers[p], s.slots[i].claims[j])
    requires InQueue(t.jobs, i) <==> (InQueue(s.jobs, i) || (j == 0 && i == s.writers[p].slot))
    ensures SlotOwned(t.writers, i, t.slots[i]) && QueueOk(t.writers, t.jobs, i, t.slots[i])
  {
    FinishOwned(s.writers, p, j, i, s.slots[i]);
    if i == s.writers[p].slot {
      FirstClaimer(s.slots[i], p, s.writers[p], j);
    }
  }

  lemma FinishInQueue(s: State, t: State, p: nat, i: nat)
    requires Enabled(s, Finish(p)) && t == Apply(s, Finish(p))
    ensures var w := s.writers[p];
            InQueue(t.jobs, i) <==> (InQueue(s.jobs, i) || (RangeStart(w) == 0 && i == w.slot))
  {
    var w := s.writers[p];
    if InQueue(s.jobs, i) {
      var k :| 0 <= k < |s.jobs| && s.jobs[k].slot == i;
      assert t.jobs[k].slot == i;
    }
    if RangeStart(w) == 0 && i == w.slot {
      assert t.jobs[|s.jobs|].slot == i;
    }
  }

  lemma FinishInv(s: State, p: nat)
    requires Inv(s) && Enabled(s, Finish(p))
    ensures Inv(Apply(s, Finish(p)))
  {
    var t := Apply(s, Finish(p));
    var j := FindClaim(s, p);
    FinishLocks(s.writers, s.slots, p);
    FinishSlots(s, t, p, j);
    LeavingWriters(s, t, p);
    FinishClosed(s, t, p);
    FinishJobs(s, t, p, j);
    FinishPlaces(s, t, p);
  }

  lemma FinishLocks(writers: map<nat, Writer>, slots: seq<Slot>, p: nat)
    requires p in writers && writers[p].pc == LockReleased
    requires forall i :: 0 <= i < |slots| ==> slots[i].lock == |Holders(writers, i)|
    ensures forall i :: 0 <= i < |slots| ==> slots[i].lock == |Holders(writers - {p}, i)|
  {
    forall i | 0 <= i < |slots|
      ensures slots[i].lock == |Holders(writers - {p}, i)|
    {
      HoldersLeave(writers, p, i);
    }
  }

  lemma FinishSlots(s: State, t: State, p: nat, j: nat)
    requires Enabled(s, Finish(p)) && t == Apply(s, Finish(p))
    requires forall i :: 0 <= i < |s.slots| ==> SlotOk(s.slots[i])
    requires forall i :: 0 <= i < |s.slots| ==> SlotOwned(s.writers, i, s.slots[i])
    requires forall i :: 0 <= i < |s.slots| ==> QueueOk(s.writers, s.jobs, i, s.slots[i])
    requires var w := s.writers[p]; j < |s.slots[w.slot].claims| && Owns(p, w, s.slots[w.slot].claims[j])
    ensures forall i :: 0 <= i < |t.slots| ==> SlotOwned(t.writers, i, t.slots[i])
    ensures forall i :: 0 <= i < |t.slots| ==> QueueOk(t.writers, t.jobs, i, t.slots[i])
  {
    var w := s.writers[p];
    FirstClaimer(s.slots[w.slot], p, w, j);
    forall i | 0 <= i < |t.slots|
      ensures SlotOwned(t.writers, i, t.slots[i]) && QueueOk(t.writers, t.jobs, i, t.slots[i])
    {
      FinishInQueue(s, t, p, i);
      FinishQueue(s, t, p, j, i);
    }
  }

  lemma FinishClosed(s: State, t: State, p: nat)
    requires ClosedOk(s.slots, s.writers, s.jobs) && Enabled(s, Finish(p)) && t == Apply(s, Finish(p))
    ensures ClosedOk(t.slots, t.writers, t.jobs)
  {
    forall i | IsDrained(t.jobs, i)
      ensures IsDrained(s.jobs, i)
    {
      var k :| 0 <= k < |t.jobs| && t.jobs[k].slot == i && Past(t.jobs[k]);
      assert s.jobs[k] == t.jobs[k];
    }
    LeavingClosed(s, t, p);
  }

  lemma FinishJobs(s: State, t: State, p: nat, j: nat)
    requires Inv(s) && Enabled(s, Finish(p)) && t == Apply(s, Finish(p))
    requires var w := s.writers[p]; j < |s.slots[w.slot].claims| && Owns(p, w, s.slots[w.slot].claims[j])
    ensures JobsOk(t.slots, t.current, t.jobs) && WireOk(t.slots, t.jobs, t.wire, t.sent)
  {
    var w := s.writers[p];
    FirstClaimer(s.slots[w.slot], p, w, j);
    assert QueueOk(s.writers, s.jobs, w.slot, s.slots[w.slot]);
    if RangeStart(w) == 0 {
      NewJob(s.slots, s.current, s.jobs, w.slot);
      NewJobWire(s.slots, s.jobs, s.wire, s.sent, w.slot);
    }
  }

  lemma NewJob(slots: seq<Slot>, current: nat, jobs: seq<Job>, i: nat)
    requires JobsOk(slots, current, jobs) && i < |slots| && !InQueue(jobs, i)
    ensures JobsOk(slots, current, jobs + [Job(i, Queued)])
  {
  }

  lemma NewJobWire(slots: seq<Slot>, jobs: seq<Job>, wire: seq<Bytes>, sent: seq<nat>, i: nat)
    requires WireOk(slots, jobs, wire, sent) && !InQueue(jobs, i)
    ensures WireOk(slots, jobs + [Job(i, Queued)], wire, sent)
  {
    var after := jobs + [Job(i, Queued)];
    forall x | 0 <= x < |sent|
      ensures InQueue(after, sent[x]) && sent[x] != i
    {
      assert InQueue(jobs, sent[x]);
      var k :| 0 <= k < |jobs| && jobs[k].slot == sent[x];
      assert after[k].slot == sent[x];
    }
  }

  lemma FinishPlaces(s: State, t: State, p: nat)
    requires PlacesOk(s.slots, s.writers, s.place, s.calls, s.returned)
    requires Enabled(s, Finish(p)) && t == Apply(s, Finish(p))
    ensures PlacesOk(t.slots, t.writers, t.place, t.calls, t.returned)
  {
    OthersAtWork(s.writers, p);
    var w := s.writers[p];
    assert WriterPlaced(s.place, s.calls, p, w);
    forall x | x in t.place
      ensures PlaceTrue(t.slots, t.writers, x, t.place[x])
    {
      assert PlaceTrue(s.slots, s.writers, x, s.place[x]);
    }
    forall q | q in t.writers
      ensures WriterPlaced(t.place, t.calls, q, t.writers[q])
    {
      assert WriterPlaced(s.place, s.calls, q, s.writers[q]);
    }
    forall x | x in t.returned
      ensures ReturnedPlaced(t.writers, t.place, x)
    {
      assert x in s.returned ==> ReturnedPlaced(s.writers, s.place, x);
    }
  }

  // ---------- workers ----------

  lemma QueueSame(jobs: seq<Job>, k: nat, phase: Phase)
    requires k < |jobs|
    ensures forall i :: InQueue(jobs, i) <==> InQueue(jobs[k := jobs[k].(phase := phase)], i)
  {
    var jobs' := jobs[k := jobs[k].(phase := phase)];
    forall i: nat
      ensures InQueue(jobs, i) <==> InQueue(jobs', i)
    {
      if InQueue(jobs, i) {
        var j :| 0 <= j < |jobs| && jobs[j].slot == i;
        assert jobs'[j].slot == i;
      }
    }
  }

  lemma PhaseInv(s: State, k: nat, phase: Phase)
    requires Inv(s) && k < |s.jobs| && s.jobs[k].phase != Sent && phase != Sent
    requires phase != Queued ==> s.jobs[k].slot != s.current
    requires phase == Drained ==>
               s.jobs[k].slot < |s.slots| && ClosedSlot(s.writers, s.jobs[k].slot, s.slots[s.jobs[k].slot])
    ensures Inv(s.(jobs := s.jobs[k := s.jobs[k].(phase := phase)]))
  {
    var t := s.(jobs := s.jobs[k := s.jobs[k].(phase := phase)]);
    PhaseQueue(s.slots, s.writers, s.jobs, k, phase);
    PhaseClosed(s.slots, s.writers, s.jobs, k, phase);
    PhaseWire(s, k, phase);
  }

  lemma PhaseQueue(slots: seq<Slot>, writers: map<nat, Writer>, jobs: seq<Job>, k: nat, phase: Phase)
    requires k < |jobs| && forall i :: 0 <= i < |slots| ==> QueueOk(writers, jobs, i, slots[i])
    ensures forall i :: 0 <= i < |slots| ==> QueueOk(writers, jobs[k := jobs[k].(phase := phase)], i, slots[i])
  {
    QueueSame(jobs, k, phase);
    forall i | 0 <= i < |slots|
      ensures QueueOk(writers, jobs[k := jobs[k].(phase := phase)], i, slots[i])
    {
      assert QueueOk(writers, jobs, i, slots[i]);
    }
  }

  /** Only the job's own slot can newly be drained. */
  lemma PhaseClosed(slots: seq<Slot>, writers: map<nat, Writer>, jobs: seq<Job>, k: nat, phase: Phase)
    requires ClosedOk(slots, writers, jobs) && k < |jobs|
    requires Past(jobs[k].(phase := phase)) && !Past(jobs[k]) ==>
               jobs[k].slot < |slots| && ClosedSlot(writers, jobs[k].slot, slots[jobs[k].slot])
    ensures ClosedOk(slots, writers, jobs[k := jobs[k].(phase := phase)])
  {
    var jobs' := jobs[k := jobs[k].(phase := phase)];
    forall i | 0 <= i < |slots| && IsDrained(jobs', i)
      ensures ClosedSlot(writers, i, slots[i])
    {
      var j :| 0 <= j < |jobs'| && jobs'[j].slot == i && Past(jobs'[j]);
      if j != k || Past(jobs[k]) {
        assert jobs[j].slot == i && Past(jobs[j]);
      }
    }
  }

  lemma PhaseWire(s: State, k: nat, phase: Phase)
    requires WireOk(s.slots, s.jobs, s.wire, s.sent) && k < |s.jobs|
    requires s.jobs[k].phase != Sent && phase != Sent
    ensures WireOk(s.slots, s.jobs[k := s.jobs[k].(phase := phase)], s.wire, s.sent)
  {
    QueueSame(s.jobs, k, phase);
  }

  lemma DetachInv(s: State, k: nat)
    requires Inv(s) && Enabled(s, Detach(k))
    ensures Inv(Apply(s, Detach(k)))
  {
    ReplacedInv(s, s.jobs[k].slot);
    PhaseInv(Replaced(s, s.jobs[k].slot), k, Detached);
  }

  lemma DrainInv(s: State, k: nat)
    requires Inv(s) && Enabled(s, Drain(k))
    ensures Inv(Apply(s, Drain(k)))
  {
    UnlockedIsClosed(s, s.jobs[k].slot);
    PhaseInv(s, k, Drained);
  }

  /** Once no writer is counted, every claim is committed. */
  lemma UnlockedIsClosed(s: State, i: nat)
    requires Inv(s) && i < |s.slots| && s.slots[i].lock == 0
    ensures ClosedSlot(s.writers, i, s.slots[i])
  {
    assert SlotOwned(s.writers, i, s.slots[i]);
    forall k | 0 <= k < |s.slots[i].claims|
      ensures s.slots[i].claims[k].stage == Committed
    {
      OwnedHolds(s.writers, i, s.slots[i].claims[k]);
    }
    forall p | p in s.writers
      ensures !Holds(s.writers[p], i)
    {
      assert Holds(s.writers[p], i) <==> p in Holders(s.writers, i);
    }
  }

  lemma OwnedHolds(writers: map<nat, Writer>, i: nat, c: Claim)
    ensures c.stage != Committed && ClaimOwned(writers, i, c) ==> c.writer in Holders(writers, i)
  {
  }

  /** The batch of a settled slot: all its claims, in allotment order. */
  lemma BatchOf(slot: Slot)
    requires SlotOk(slot) && Settled(slot)
    ensures slot.avail == Total(slot.claims) <= |slot.buf|
    ensures Tiled(slot.claims, 0, slot.avail)
    ensures slot.buf[..slot.avail] == Flatten(Frames(slot.claims))
    ensures slot.claims != [] ==> slot.avail >= HEAD
  {
    CommittedContents(slot.buf, slot.claims, 0, Total(slot.claims));
    assert slot.buf[0..slot.avail] == slot.buf[..slot.avail];
    if slot.claims != [] {
      assert ClaimInBuffer(slot.buf, slot.claims[0]);
    }
  }

  /** A drained slot is settled. */
  lemma PastIsSettled(s: State, k: nat)
    requires Inv(s) && k < |s.jobs| && Past(s.jobs[k])
    ensures s.jobs[k].slot < |s.slots|
    ensures SlotOk(s.slots[s.jobs[k].slot]) && ClosedSlot(s.writers, s.jobs[k].slot, s.slots[s.jobs[k].slot])
  {
    assert IsDrained(s.jobs, s.jobs[k].slot);
  }

  /** A queued slot has a claim. */
  lemma QueuedHasClaim(s: State, k: nat)
    requires Inv(s) && k < |s.jobs|
    ensures s.jobs[k].slot < |s.slots| && s.slots[s.jobs[k].slot].claims != []
  {
    var i := s.jobs[k].slot;
    assert InQueue(s.jobs, i);
    assert QueueOk(s.writers, s.jobs, i, s.slots[i]);
  }

  lemma SendInv(s: State, k: nat)
    requires Inv(s) && Enabled(s, Send(k))
    ensures Inv(Apply(s, Send(k)))
  {
    var i := s.jobs[k].slot;
    PastIsSettled(s, k);
    BatchOf(s.slots[i]);
    QueuedHasClaim(s, k);
    SentInv(s, Apply(s, Send(k)), k);
  }

  lemma SentInv(s: State, t: State, k: nat)
    requires Inv(s) && k < |s.jobs| && s.jobs[k].phase == Drained && s.jobs[k].slot < |s.slots|
    requires t == s.(jobs := s.jobs[k := s.jobs[k].(phase := Sent)], sent := s.sent + [s.jobs[k].slot],
                     wire := s.wire + [Flatten(Frames(s.slots[s.jobs[k].slot].claims))])
    ensures Inv(t)
  {
    QueueSame(s.jobs, k, Sent);
    forall i | 0 <= i < |t.slots|
      ensures QueueOk(t.writers, t.jobs, i, t.slots[i])
    {
      assert QueueOk(s.writers, s.jobs, i, s.slots[i]);
    }
    PhaseClosed(s.slots, s.writers, s.jobs, k, Sent);
    SentWire(s, t, k);
  }

  lemma SentWire(s: State, t: State, k: nat)
    requires JobsOk(s.slots, s.current, s.jobs) && WireOk(s.slots, s.jobs, s.wire, s.sent)
    requires k < |s.jobs| && s.jobs[k].phase == Drained && s.jobs[k].slot < |s.slots|
    requires t == s.(jobs := s.jobs[k := s.jobs[k].(phase := Sent)], sent := s.sent + [s.jobs[k].slot],
                     wire := s.wire + [Flatten(Frames(s.slots[s.jobs[k].slot].claims))])
    ensures WireOk(t.slots, t.jobs, t.wire, t.sent)
  {
    var i := s.jobs[k].slot;
    QueueSame(s.jobs, k, Sent);
    assert t.jobs[k].slot == i && InQueue(t.jobs, i);
    assert i !in s.sent;
    forall j | 0 <= j < |t.jobs|
      ensures t.jobs[j].phase == Sent <==> t.jobs[j].slot in t.sent
    {
      if j != k {
        assert t.jobs[j] == s.jobs[j] && s.jobs[j].slot != i;
      } else {
        assert t.sent[|s.sent|] == i;
      }
    }
  }

  /** Every step keeps the invariant. */
  lemma StepInv(s: State, step: Step)
    requires Inv(s) && Enabled(s, step) && Fair(s, step)
    ensures Inv(Apply(s, step))
  {
    match step
    case Call(p, data) => CallInv(s, p, data);
    case Load(p) => LoadInv(s, p);
    case Lock(p) => LockInv(s, p);
    case Allot(p) => AllotInv(s, p);
    case Bounce(p) => BounceInv(s, p);
    case Swap(p) => SwapInv(s, p);
    case AfterSwap(p) => AfterSwapInv(s, p);
    case CopyFrame(p) => CopyFrameInv(s, p);
    case Commit(p) => CommitInv(s, p);
    case Unlock(p) => UnlockInv(s, p);
    case Finish(p) => FinishInv(s, p);
    case Detach(k) => DetachInv(s, k);
    case Drain(k) => DrainInv(s, k);
    case Send(k) => SendInv(s, k);
  }
}
