/** util/ring.go as a class: its methods run one at a time against the memory of RingMemory. */
module RingBuffers {
  import opened Bits
  import opened Conver
  import opened Slices
  import opened RingMemory
  import opened RingProtocol
  import opened RingTheorems
  import opened RingRuns

  datatype RunState = Unset | Die | Work | Pause

  datatype WriteError = NoError | ErrRingBufferClose | ErrWriteToRingBufferData | ErrRingBufferOverflow

  /** A ring at rest: no call in progress, every claim finished. */
  ghost predicate Rests(m: Mem, claims: seq<Claim>) {
    Holds(m, claims) && forall i :: 0 <= i < |claims| ==> claims[i].status == Flagged
  }

  function AtRest(m: Mem, claims: seq<Claim>): State {
    State(m, map[], Idle, claims, Datas(claims), [], [])
  }

  function NewClaim(m: Mem, data: Bytes): Claim {
    Claim(m.ask, data, 0, Upto(|data|), Flagged)
  }

  /** A write without interference keeps the memory consistent and appends its message. */
  lemma WriteAtRest(m: Mem, claims: seq<Claim>, data: Bytes)
    requires Rests(m, claims) && LengthPrefixed(data)
    requires m.ask + |data| < m.avail + m.size && m.ask + |data| <= CURSOR_LIMIT
    ensures Rests(WriteMem(m, data), claims + [NewClaim(m, data)])
  {
    WriteAlone(AtRest(m, claims), 0, data);
  }

  /** Clearing the flag and storing the cursor removes the oldest message. */
  lemma ReleaseAtRest(m: Mem, claims: seq<Claim>)
    requires Rests(m, claims) && claims != []
    ensures Rests(ReleaseMem(m, claims[0].End()), claims[1..])
  {
    ReadAlone(AtRest(m, claims));
  }

  /** The same, for the cursor that the read of the oldest message returned. */
  lemma ReleaseNext(m: Mem, claims: seq<Claim>, val: nat)
    requires Rests(m, claims) && Datas(claims) != [] && val == m.avail + |Datas(claims)[0]|
    ensures Rests(ReleaseMem(m, val), claims[1..]) && Datas(claims[1..]) == Datas(claims)[1..]
  {
    HeadEnds(claims, m.avail, m.ask);
    ReleaseAtRest(m, claims);
  }

  lemma HeadEnds(claims: seq<Claim>, from: nat, to: nat)
    requires Tiled(claims, from, to) && claims != []
    ensures claims[0].End() == from + |Datas(claims)[0]| && Datas(claims[1..]) == Datas(claims)[1..]
  {
  }

  /** The length word, the flag and the bytes at the head of the ring are those of one message. */
  ghost predicate OldestIs(m: Mem, head: Bytes) {
    && 4 < m.size == |m.ring| == |m.submit| && LengthWord(m) == |head|
    && m.submit[Index(m.avail + |head|, m.size)] == 1
    && GetBytes(m, m.avail, m.avail + |head|) == head
  }

  /** What the consumer finds in a ring at rest. */
  lemma OldestAtRest(m: Mem, claims: seq<Claim>)
    requires Rests(m, claims)
    ensures m.ask > m.avail <==> claims != []
    ensures claims != [] ==>
      claims[0].start == m.avail && |claims[0].data| >= 4 && OldestIs(m, claims[0].data)
  {
    TiledOrdered(claims, m.avail, m.ask);
    if claims != [] {
      HeadAtRest(m, claims);
    }
  }

  lemma HeadAtRest(m: Mem, claims: seq<Claim>)
    requires Rests(m, claims) && claims != [] && claims[0].start == m.avail
    ensures OldestIs(m, claims[0].data)
  {
    HeadWord(m, claims);
    FlagMeansClaim(m, claims, 0);
    ReadBack(m, claims, 0);
  }

  class RingBuffer {
    var ringBufferShift: nat
    var ringBufferSize: nat
    var state: RunState
    var ring: array<byte>
    var submitRing: array<byte>
    var askCursor: nat
    var availableCursor: nat
    ghost var claims: seq<Claim> // accepted and not yet released

    /** The messages accepted and not yet released, oldest first. */
    ghost function Queue(): seq<Bytes>
      reads this
    {
      Datas(claims)
    }

    ghost function Memory(): Mem
      reads this, ring, submitRing
    {
      Mem(ringBufferSize, ring[..], submitRing[..], askCursor, availableCursor)
    }

    ghost predicate Valid()
      reads this, ring, submitRing
    {
      && ring != submitRing
      && ringBufferShift == ringBufferSize - 1
      && Rests(Memory(), claims)
    }

    /** For 0 and for sizes above 2^63 the size wraps to 0, and there is no memory. */
    constructor InitRingBuffer(n: nat)
      requires n < TWO64
      ensures fresh(ring) && fresh(submitRing) && ring.Length == submitRing.Length == ringBufferSize
      ensures 1 <= n <= Pow2(63) ==> Valid() && Queue() == [] && LeastPow2NotBelow(n, ringBufferSize)
      ensures !(1 <= n <= Pow2(63)) ==> ringBufferSize == 0 && ringBufferShift == TWO64 - 1
      ensures state == Unset && askCursor == availableCursor == 0
    {
      var size: nat := MinQuantity(n);
      ringBufferSize := size;
      ringBufferShift := U64(size - 1);
      ring := new byte[size](_ => 0);
      submitRing := new byte[size](_ => 0);
      askCursor := 0;
      availableCursor := 0;
      state := Unset;
      claims := [];
      new;
      if 1 <= n <= Pow2(63) {
        Pow2Monotone(0, 63);
        FitsRegister(size);
        assert IsPow2(size);
      }
    }

    method SetState(s: RunState)
      requires Valid()
      modifies this`state
      ensures Valid() && state == s
    {
      state := s;
    }

    method CompareAndSwapAsk(before: nat, after: nat) returns (ok: bool)
      modifies this`askCursor
      ensures ok == (old(askCursor) == before)
      ensures askCursor == if ok then after else old(askCursor)
    {
      ok := askCursor == before;
      if ok {
        askCursor := after;
      }
    }

    /**
     A message is appended if the ring works, the message has a length word and there is space for it;
     otherwise the error says what is missing and nothing changes.
     */
    method WriteToRingBuffer(data: Bytes) returns (err: WriteError)
      requires Valid() && askCursor + |data| <= CURSOR_LIMIT
      requires |data| >= 4 ==> LengthPrefixed(data)
      modifies this`askCursor, this`claims, ring, submitRing
      ensures Valid()
      ensures err == ErrRingBufferClose <==> state != Work
      ensures err == ErrWriteToRingBufferData <==> state == Work && |data| < 4
      ensures err == ErrRingBufferOverflow <==>
                state == Work && |data| >= 4 && TotalLength(old(claims)) + |data| >= ringBufferSize
      ensures err == NoError ==> Queue() == old(Queue()) + [data] && Memory() == WriteMem(old(Memory()), data)
      ensures err != NoError ==> claims == old(claims) && Memory() == old(Memory())
    {
      if state != Work {
        return ErrRingBufferClose;
      }
      if |data| < 4 {
        return ErrWriteToRingBufferData;
      }
      ghost var m := Memory();
      TiledTotal(claims, availableCursor, askCursor);
      var ok, end := ClaimSpace(|data|);
      if !ok {
        return ErrRingBufferOverflow;
      }
      WriteAtRest(m, claims, data);
      claims := claims + [NewClaim(m, data)];
      Fill(m, end, data);
      return NoError;
    }

    /** Copying a claimed message in and setting its flag. */
    method Fill(ghost m: Mem, end: nat, data: Bytes)
      requires ring != submitRing && IsPow2(ringBufferSize) && ringBufferShift == ringBufferSize - 1
      requires ring.Length == submitRing.Length == ringBufferSize
      requires |data| < ringBufferSize && end == m.ask + |data|
      requires Memory() == m.(ask := end)
      modifies ring, submitRing
      ensures Memory() == WriteMem(m, data)
    {
      CopyIn(end, data);
      assert submitRing[..] == m.submit;
      SetFlag(end, 1);
      assert ring[..] == PutBytes(m.ring, m.ask, data);
    }

    /** The compare-and-swap loop: it claims space for a message of length l if there is any. */
    method ClaimSpace(l: nat) returns (ok: bool, end: nat)
      requires availableCursor <= askCursor && askCursor + l <= CURSOR_LIMIT && l < TWO32
      modifies this`askCursor
      ensures ok <==> old(askCursor) + l < availableCursor + ringBufferSize
      ensures ok ==> end == askCursor == old(askCursor) + l
      ensures !ok ==> askCursor == old(askCursor)
    {
      ok := false;
      end := 0;
      while !ok
        invariant askCursor == if ok then end else old(askCursor)
        invariant ok ==> end == old(askCursor) + l < availableCursor + ringBufferSize
        decreases !ok
      {
        var ask := askCursor;
        end := U64(ask + l);
        assert end == ask + l;
        if U64(end - availableCursor) >= ringBufferSize {
          return false, end;
        }
        ok := CompareAndSwapAsk(ask, end);
      }
    }

    method SetFlag(cursor: nat, flag: byte)
      requires 0 < ringBufferSize == submitRing.Length && IsPow2(ringBufferSize)
      requires ringBufferShift == ringBufferSize - 1
      modifies submitRing
      ensures submitRing[..] == old(submitRing[..])[Index(cursor, ringBufferSize) := flag]
    {
      MaskIsIndex(cursor, ringBufferSize);
      submitRing[BitAnd(cursor, ringBufferShift)] := flag;
    }

    /** The two copies of a claim that may wrap around put every byte at its cursor's index. */
    method CopyIn(end: nat, data: Bytes)
      requires IsPow2(ringBufferSize) && ring.Length == ringBufferSize && ringBufferShift == ringBufferSize - 1
      requires |data| < ringBufferSize && |data| <= end
      modifies ring
      ensures ring[..] == PutBytes(old(ring[..]), end - |data|, data)
    {
      var l := |data|;
      MaskIsIndex(end, ringBufferSize);
      IndexForward(end - l, l, ringBufferSize);
      var cut := BitAnd(end, ringBufferShift);
      if cut >= l {
        forall i | 0 <= i < l {
          ring[cut - l + i] := data[i];
        }
      } else {
        CopyWrapped(end, cut, data);
      }
    }

    method CopyWrapped(end: nat, cut: nat, data: Bytes)
      requires 0 < ring.Length == ringBufferSize && cut < |data| < ringBufferSize && |data| <= end
      requires Index(end - |data|, ringBufferSize) == ringBufferSize + cut - |data|
      modifies ring
      ensures ring[..] == PutBytes(old(ring[..]), end - |data|, data)
    {
      var l := |data|;
      forall i | 0 <= i < cut {
        ring[i] := data[l - cut + i];
      }
      forall i | 0 <= i < l - cut {
        ring[ringBufferSize + cut - l + i] := data[i];
      }
    }

    /** getBytes */
    method ReadBytes(ghost m: Mem, start: nat, end: nat) returns (b: Bytes)
      requires IsPow2(ringBufferSize) && ring.Length == ringBufferSize && ringBufferShift == ringBufferSize - 1
      requires m.size == ringBufferSize && m.ring == ring[..] && start <= end
      ensures b == GetBytes(m, start, end)
    {
      MaskIsIndex(start, ringBufferSize);
      MaskIsIndex(end, ringBufferSize);
      var s := BitAnd(start, ringBufferShift);
      var e := BitAnd(end, ringBufferShift);
      if e >= s {
        return ring[s..e];
      }
      WrapLength(start, end, ringBufferSize);
      b := Join(s, e, end - start);
    }

    /** The two copies of bytes that wrap around, into a new buffer of l bytes. */
    method Join(s: nat, e: nat, l: nat) returns (b: Bytes)
      requires e < s < ring.Length && l - e >= ring.Length - s
      ensures b == ring[s..] + Zeros(l - e - (ring.Length - s)) + ring[..e]
    {
      var buf := new byte[l](_ => 0);
      Copy(buf, 0, ring[s..]);
      Copy(buf, l - e, ring[..e]);
      b := buf[..];
    }

    /** The oldest message and the cursor behind it, or nothing and zero if there is none. */
    method ReadFromRingBuffer() returns (data: Bytes, end: nat)
      requires Valid()
      ensures Queue() == [] ==> data == [] && end == 0
      ensures Queue() != [] ==> data == Queue()[0] && end == availableCursor + |Queue()[0]| && end > 0
    {
      OldestAtRest(Memory(), claims);
      data, end := ReadOldest(Memory(), if claims == [] then [] else claims[0].data);
    }

    /** The body of the read, given what is known about the oldest message. */
    method ReadOldest(ghost m: Mem, ghost head: Bytes) returns (data: Bytes, end: nat)
      requires IsPow2(ringBufferSize) && ring.Length == submitRing.Length == ringBufferSize
      requires ringBufferShift == ringBufferSize - 1
      requires m.size == ringBufferSize && m.ring == ring[..] && m.submit == submitRing[..]
      requires m.ask == askCursor && m.avail == availableCursor && (m.ask > m.avail <==> head != [])
      requires head != [] ==> OldestIs(m, head)
      ensures data == head && end == if head == [] then 0 else availableCursor + |head|
    {
      var available := availableCursor;
      if askCursor > available {
        var length := ReadLength(m);
        end := available + length;
        MaskIsIndex(end, ringBufferSize);
        if submitRing[BitAnd(end, ringBufferShift)] == 1 {
          data := ReadBytes(m, available, end);
          return data, end;
        }
      }
      return [], 0;
    }

    /** The length word at availableCursor. */
    method ReadLength(ghost m: Mem) returns (length: nat)
      requires IsPow2(ringBufferSize) && ring.Length == ringBufferSize && ringBufferShift == ringBufferSize - 1
      requires m.size == ringBufferSize > 4 && m.ring == ring[..] && m.avail == availableCursor
      ensures length == LengthWord(m)
    {
      var word := ReadBytes(m, availableCursor, availableCursor + 4);
      GetBytesAt(m, availableCursor, availableCursor + 4);
      length := BytesToUint32(word);
    }

    /** Releasing the message that was read removes it. */
    method SetAvailableCursor(val: nat)
      requires Valid() && Queue() != [] && val == availableCursor + |Queue()[0]|
      modifies this`availableCursor, this`claims, submitRing
      ensures Valid() && Queue() == old(Queue())[1..] && availableCursor == val
    {
      ghost var m := Memory();
      ReleaseNext(m, claims, val);
      claims := claims[1..];
      Unflag(m, val);
    }

    method Unflag(ghost m: Mem, val: nat)
      requires ring != submitRing && 0 < ringBufferSize == submitRing.Length && IsPow2(ringBufferSize)
      requires ringBufferShift == ringBufferSize - 1 && Memory() == m
      modifies this`availableCursor, submitRing
      ensures Memory() == ReleaseMem(m, val)
    {
      SetFlag(val, 0);
      availableCursor := val;
      assert ring[..] == m.ring;
    }
  }
}
