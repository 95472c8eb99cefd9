/** The memory of util/ring.go's RingBuffer as a value, and what its bytes and flags stand for. */
module RingMemory {
  import opened Bits
  import opened Conver
  import opened Slices

  /** The shared fields; `size` is ringBufferSize and `size - 1` is ringBufferShift. */
  datatype Mem = Mem(size: nat, ring: Bytes, submit: Bytes, ask: nat, avail: nat)

  /** Cursors stay at least one length word away from 2^64, so cursor additions do not wrap. */
  const CURSOR_LIMIT: nat := TWO64 - TWO32

  ghost predicate IsPow2(size: nat) {
    exists k: nat :: k <= 63 && size == Pow2(k)
  }

  ghost predicate Sized(m: Mem) {
    && IsPow2(m.size)
    && |m.ring| == m.size
    && |m.submit| == m.size
    && m.avail <= m.ask <= CURSOR_LIMIT
  }

  /** Where a cursor falls in the ring: its remainder by the ring's size. */
  function Index(x: nat, size: nat): (i: nat)
    requires size > 0
    ensures i < size
  {
    if x < size then x else Index(x - size, size)
  }

  lemma {:induction false} IndexIsMod(x: nat, size: nat)
    requires size > 0
    ensures Index(x, size) == x % size
    decreases x
  {
    if x < size {
      DivModUnique(x, size, 0, x);
    } else {
      IndexIsMod(x - size, size);
      var q, r := (x - size) / size, (x - size) % size;
      assert x == (q + 1) * size + r;
      DivModUnique(x, size, q + 1, r);
    }
  }

  /** The code's `cursor & ringBufferShift` is that remainder, because the size is a power of two. */
  lemma MaskIsIndex(x: nat, size: nat)
    requires IsPow2(size)
    ensures BitAnd(x, size - 1) == Index(x, size)
  {
    var k: nat :| k <= 63 && size == Pow2(k);
    MaskIsMod(x, k);
    IndexIsMod(x, size);
  }

  /** Two cursors less than a ring apart share an index only if they are equal. */
  lemma {:induction false} IndexInjective(x: nat, y: nat, size: nat)
    requires size > 0 && x < y + size && y < x + size && Index(x, size) == Index(y, size)
    ensures x == y
    decreases x
  {
    if x >= size && y >= size {
      IndexInjective(x - size, y - size, size);
    }
  }

  /** Where a cursor d bytes further falls. */
  lemma {:induction false} IndexForward(x: nat, d: nat, size: nat)
    requires size > 0 && d <= size
    ensures var s := Index(x, size);
            Index(x + d, size) == if s + d < size then s + d else s + d - size
    decreases x
  {
    if x >= size {
      IndexForward(x - size, d, size);
    } else if d == size {
      assert Index(x + d, size) == Index(x, size);
    }
  }

  /** getBytes: the bytes from one cursor to another, joined when they wrap around the end. */
  function GetBytes(m: Mem, start: nat, end: nat): Bytes
    requires m.size > 0 && |m.ring| == m.size && start <= end
  {
    var s, e := Index(start, m.size), Index(end, m.size);
    if e >= s then
      m.ring[s..e]
    else
      WrapLength(start, end, m.size);
      m.ring[s..] + Zeros(end - start - e - (m.size - s)) + m.ring[..e]
  }

  /** The wrapped copy always has room for the bytes up to the end of the ring. */
  lemma {:induction false} WrapLength(start: nat, end: nat, size: nat)
    requires size > 0 && start <= end && Index(end, size) < Index(start, size)
    ensures end - start - Index(end, size) >= size - Index(start, size)
    decreases end
  {
    if start >= size {
      WrapLength(start - size, end - size, size);
    } else {
      IndexDrop(end, size);
    }
  }

  lemma {:induction false} IndexDrop(x: nat, size: nat)
    requires size > 0
    ensures Index(x, size) <= x && (x >= size ==> x - Index(x, size) >= size)
    decreases x
  {
    if x >= size {
      IndexDrop(x - size, size);
    }
  }

  /** For less than a ring of bytes, byte k of the result is the one at cursor start + k. */
  lemma GetBytesAt(m: Mem, start: nat, end: nat)
    requires m.size > 0 && |m.ring| == m.size && start <= end < start + m.size
    ensures |GetBytes(m, start, end)| == end - start
    ensures forall k :: 0 <= k < end - start ==> GetBytes(m, start, end)[k] == m.ring[Index(start + k, m.size)]
  {
    IndexForward(start, end - start, m.size);
    forall k | 0 <= k < end - start
      ensures GetBytes(m, start, end)[k] == m.ring[Index(start + k, m.size)]
    {
      IndexForward(start, k, m.size);
    }
  }

  /** How far position i of the ring lies ahead of a cursor. */
  function Ahead(i: nat, start: nat, size: nat): (k: nat)
    requires i < size
    ensures k < size
  {
    var s := Index(start, size);
    if i >= s then i - s else i + size - s
  }

  lemma AheadIndex(start: nat, k: nat, size: nat)
    requires k < size
    ensures Ahead(Index(start + k, size), start, size) == k
    ensures forall i :: 0 <= i < size && Ahead(i, start, size) == k ==> i == Index(start + k, size)
  {
    IndexForward(start, k, size);
  }

  /** The ring after a whole message has been copied in at a cursor. */
  function PutBytes(ring: Bytes, start: nat, data: Bytes): (r: Bytes)
    ensures |r| == |ring|
  {
    seq(|ring|, i requires 0 <= i < |ring| =>
      var k := Ahead(i, start, |ring|);
      if k < |data| then data[k] else ring[i])
  }

  /** Position i of the ring belongs to the given number of bytes from a cursor on. */
  predicate Covered(i: nat, start: nat, length: nat, size: nat)
    requires size > 0
  {
    exists x: nat :: start <= x < start + length && Index(x, size) == i
  }

  /** A copied message can be read back at its cursors, and no byte at any other position changes. */
  lemma PutBytesAt(ring: Bytes, start: nat, data: Bytes)
    requires |data| <= |ring| && |ring| > 0
    ensures var r := PutBytes(ring, start, data);
            && (forall k :: 0 <= k < |data| ==> r[Index(start + k, |ring|)] == data[k])
            && (forall i :: 0 <= i < |ring| && !Covered(i, start, |data|, |ring|) ==> r[i] == ring[i])
            && (forall x: nat :: x < start && start + |data| <= x + |ring|
                  ==> r[Index(x, |ring|)] == ring[Index(x, |ring|)])
  {
    var r := PutBytes(ring, start, data);
    forall i | 0 <= i < |ring| && !Covered(i, start, |data|, |ring|)
      ensures r[i] == ring[i]
    {
      AheadIndex(start, Ahead(i, start, |ring|), |ring|);
      assert Index(start + Ahead(i, start, |ring|), |ring|) == i;
    }
    forall k | 0 <= k < |data|
      ensures r[Index(start + k, |ring|)] == data[k]
    {
      AheadIndex(start, k, |ring|);
    }
    forall x: nat | x < start && start + |data| <= x + |ring|
      ensures r[Index(x, |ring|)] == ring[Index(x, |ring|)]
    {
      IndexForward(x, start - x, |ring|);
    }
  }

  /** Copying one more byte extends the copied part of the message by one. */
  lemma PutBytesNext(ring: Bytes, start: nat, data: Bytes, n: nat)
    requires n < |data| <= |ring|
    ensures PutBytes(ring, start, data[..n + 1])
         == PutBytes(ring, start, data[..n])[Index(start + n, |ring|) := data[n]]
  {
    AheadIndex(start, n, |ring|);
  }

  // ---------- what the memory stands for ----------

  /** A message that starts with its own length, as ReadFromRingBuffer demands. */
  ghost predicate LengthPrefixed(data: Bytes) {
    4 <= |data| < TWO32 && BytesToUint32(data[..4]) == |data|
  }

  datatype Status = Writing | Flagged | Cleared

  /** An unreleased claim of [start, start + |data|); `done` holds the byte numbers copied so far. */
  datatype Claim = Claim(start: nat, data: Bytes, writer: nat, done: set<nat>, status: Status) {
    function End(): nat {
      start + |data|
    }
  }

  /** The claims cover [from, to) one after the other, without gap or overlap. */
  ghost predicate Tiled(claims: seq<Claim>, from: nat, to: nat) {
    if claims == [] then from == to
    else claims[0].start == from && |claims[0].data| >= 4 && Tiled(claims[1..], claims[0].End(), to)
  }

  ghost predicate Ordered(claims: seq<Claim>, from: nat, to: nat) {
    && (forall i :: 0 <= i < |claims| ==>
          from <= claims[i].start && claims[i].End() <= to && |claims[i].data| >= 4)
    && (forall i, j :: 0 <= i < j < |claims| ==> claims[i].End() <= claims[j].start)
  }

  lemma {:induction false} TiledOrdered(claims: seq<Claim>, from: nat, to: nat)
    requires Tiled(claims, from, to)
    ensures from <= to && (from < to <==> claims != []) && Ordered(claims, from, to)
    ensures claims != [] ==> claims[0].start == from && claims[|claims| - 1].End() == to
    decreases |claims|
  {
    if claims != [] {
      var rest := claims[1..];
      TiledOrdered(rest, claims[0].End(), to);
      assert forall i :: 1 <= i < |claims| ==> claims[i] == rest[i - 1];
    }
  }

  lemma {:induction false} TiledAppend(claims: seq<Claim>, from: nat, to: nat, c: Claim)
    requires Tiled(claims, from, to) && c.start == to && |c.data| >= 4
    ensures Tiled(claims + [c], from, c.End())
    decreases |claims|
  {
    if claims == [] {
      assert (claims + [c])[1..] == [];
    } else {
      TiledAppend(claims[1..], claims[0].End(), to, c);
      assert (claims + [c])[1..] == claims[1..] + [c];
    }
  }

  /** Tiling only looks at where claims start and how long they are. */
  lemma {:induction false} TiledSame(a: seq<Claim>, b: seq<Claim>, from: nat, to: nat)
    requires Tiled(a, from, to) && |a| == |b|
    requires forall i :: 0 <= i < |a| ==> a[i].start == b[i].start && a[i].data == b[i].data
    ensures Tiled(b, from, to)
    decreases |a|
  {
    if a != [] {
      TiledSame(a[1..], b[1..], a[0].End(), to);
    }
  }

  ghost predicate FlagFor(m: Mem, claims: seq<Claim>, p: nat)
    requires m.size > 0
  {
    exists i :: 0 <= i < |claims| && claims[i].status == Flagged && Index(claims[i].End(), m.size) == p
  }

  /** Every byte copied so far is in the ring where the claim's cursors point. */
  ghost predicate InPlace(m: Mem, c: Claim)
    requires m.size > 0 && |m.ring| == m.size
  {
    && (forall k :: k in c.done ==> k < |c.data|)
    && (forall k :: k in c.done ==> m.ring[Index(c.start + k, m.size)] == c.data[k])
    && (c.status != Writing ==> forall k :: 0 <= k < |c.data| ==> k in c.done)
  }

  /** The memory holds exactly these unreleased claims. */
  ghost predicate Holds(m: Mem, claims: seq<Claim>) {
    && Sized(m)
    && Tiled(claims, m.avail, m.ask)
    && m.ask - m.avail < m.size
    && (forall i :: 0 <= i < |claims| ==> LengthPrefixed(claims[i].data) && InPlace(m, claims[i]))
    && (forall p :: 0 <= p < m.size ==> (m.submit[p] == 1 <==> FlagFor(m, claims, p)))
  }

  /** Claim ends have distinct indices, and no other cursor of the window shares one. */
  lemma EndsDistinct(m: Mem, claims: seq<Claim>, i: nat, j: nat)
    requires Holds(m, claims) && i < |claims| && j < |claims|
    requires Index(claims[i].End(), m.size) == Index(claims[j].End(), m.size)
    ensures i == j
  {
    TiledOrdered(claims, m.avail, m.ask);
    IndexInjective(claims[i].End(), claims[j].End(), m.size);
  }

  /** The first n bytes of a finished claim are read back exactly. */
  lemma ReadBytes(m: Mem, c: Claim, n: nat)
    requires m.size > 0 && |m.ring| == m.size && InPlace(m, c) && c.status != Writing
    requires n <= |c.data| && n < m.size
    ensures GetBytes(m, c.start, c.start + n) == c.data[..n]
  {
    GetBytesAt(m, c.start, c.start + n);
    var b := GetBytes(m, c.start, c.start + n);
    forall k | 0 <= k < n
      ensures b[k] == c.data[k]
    {
      assert k in c.done;
    }
  }

  /** A finished claim is read back exactly. */
  lemma ReadBack(m: Mem, claims: seq<Claim>, i: nat)
    requires Holds(m, claims) && i < |claims| && claims[i].status != Writing
    ensures GetBytes(m, claims[i].start, claims[i].End()) == claims[i].data
  {
    TiledOrdered(claims, m.avail, m.ask);
    ReadWhole(m, claims[i]);
  }

  lemma ReadWhole(m: Mem, c: Claim)
    requires m.size > 0 && |m.ring| == m.size && InPlace(m, c) && c.status != Writing && |c.data| < m.size
    ensures GetBytes(m, c.start, c.End()) == c.data
  {
    ReadBytes(m, c, |c.data|);
    assert c.data[..|c.data|] == c.data;
  }

  /** The length word ReadFromRingBuffer decodes at availableCursor. */
  function LengthWord(m: Mem): nat
    requires 4 < m.size && |m.ring| == m.size
  {
    GetBytesAt(m, m.avail, m.avail + 4);
    BytesToUint32(GetBytes(m, m.avail, m.avail + 4))
  }

  /** The length word of a finished head claim is that claim's length. */
  lemma HeadWord(m: Mem, claims: seq<Claim>)
    requires Holds(m, claims) && claims != [] && claims[0].status != Writing
    ensures 4 < m.size && LengthWord(m) == |claims[0].data|
  {
    TiledOrdered(claims, m.avail, m.ask);
    ReadBytes(m, claims[0], 4);
  }

  /** What a flag at the index of some cursor of the window means. */
  lemma FlagMeansClaim(m: Mem, claims: seq<Claim>, i: nat)
    requires Holds(m, claims) && i < |claims|
    ensures m.submit[Index(claims[i].End(), m.size)] == 1 <==> claims[i].status == Flagged
  {
    var p := Index(claims[i].End(), m.size);
    if FlagFor(m, claims, p) {
      var j :| 0 <= j < |claims| && claims[j].status == Flagged && Index(claims[j].End(), m.size) == p;
      EndsDistinct(m, claims, i, j);
    }
  }

  // ---------- how the memory changes ----------

  /** Claiming space at askCursor adds a claim at the end. */
  lemma HoldsClaim(m: Mem, claims: seq<Claim>, c: Claim)
    requires Holds(m, claims)
    requires c.start == m.ask && LengthPrefixed(c.data) && c.done == {} && c.status == Writing
    requires c.End() < m.avail + m.size && c.End() <= CURSOR_LIMIT
    ensures Holds(m.(ask := c.End()), claims + [c])
  {
    var m', claims' := m.(ask := c.End()), claims + [c];
    TiledAppend(claims, m.avail, m.ask, c);
    forall i | 0 <= i < |claims'|
      ensures LengthPrefixed(claims'[i].data) && InPlace(m', claims'[i])
    {
      assert i < |claims| ==> InPlace(m, claims[i]);
    }
    forall p | 0 <= p < m.size
      ensures m'.submit[p] == 1 <==> FlagFor(m', claims', p)
    {
      if FlagFor(m, claims, p) {
        var i :| 0 <= i < |claims| && claims[i].status == Flagged && Index(claims[i].End(), m.size) == p;
        assert claims'[i] == claims[i];
      }
    }
  }

  /** Copying a byte of one claim puts it in place and touches no other claim's bytes. */
  lemma HoldsCopy(m: Mem, claims: seq<Claim>, j: nat, k: nat, m': Mem, claims': seq<Claim>)
    requires Holds(m, claims) && j < |claims| && k < |claims[j].data|
    requires m' == m.(ring := m.ring[Index(claims[j].start + k, m.size) := claims[j].data[k]])
    requires claims' == claims[j := claims[j].(done := claims[j].done + {k})]
    ensures Holds(m', claims')
  {
    TiledOrdered(claims, m.avail, m.ask);
    TiledSame(claims, claims', m.avail, m.ask);
    forall i | 0 <= i < |claims'|
      ensures LengthPrefixed(claims'[i].data) && InPlace(m', claims'[i])
    {
      CopyKeepsBytes(m, claims, j, k, m', i);
    }
    SameFlags(m, claims, m', claims');
  }

  lemma CopyKeepsBytes(m: Mem, claims: seq<Claim>, j: nat, k: nat, m': Mem, i: nat)
    requires Holds(m, claims) && Ordered(claims, m.avail, m.ask)
    requires j < |claims| && k < |claims[j].data| && i < |claims|
    requires m' == m.(ring := m.ring[Index(claims[j].start + k, m.size) := claims[j].data[k]])
    ensures LengthPrefixed(claims[i].data)
    ensures InPlace(m', if i == j then claims[j].(done := claims[j].done + {k}) else claims[i])
  {
    if i == j {
      CopyOwnByte(m, claims[j], k, m');
    } else {
      CopyOtherByte(m, claims[i], claims[j].start + k, claims[j].data[k], m');
    }
  }

  lemma CopyOwnByte(m: Mem, c: Claim, k: nat, m': Mem)
    requires m.size > 0 && |m.ring| == m.size && InPlace(m, c) && |c.data| < m.size && k < |c.data|
    requires m' == m.(ring := m.ring[Index(c.start + k, m.size) := c.data[k]])
    ensures InPlace(m', c.(done := c.done + {k}))
  {
    forall n | n in c.done + {k}
      ensures m'.ring[Index(c.start + n, m.size)] == c.data[n]
    {
      OtherIndex(c.start + n, c.start + k, m.size);
    }
  }

  lemma OtherIndex(x: nat, y: nat, size: nat)
    requires size > 0 && x < y + size && y < x + size
    ensures x != y ==> Index(x, size) != Index(y, size)
  {
    if Index(x, size) == Index(y, size) {
      IndexInjective(x, y, size);
    }
  }

  lemma CopyOtherByte(m: Mem, c: Claim, x: nat, b: byte, m': Mem)
    requires m.size > 0 && |m.ring| == m.size && InPlace(m, c)
    requires (x < c.start && c.End() < x + m.size) || (c.End() <= x && x < c.start + m.size)
    requires m' == m.(ring := m.ring[Index(x, m.size) := b])
    ensures InPlace(m', c)
  {
    forall n | n in c.done
      ensures Index(c.start + n, m.size) != Index(x, m.size)
    {
      OtherIndex(c.start + n, x, m.size);
    }
  }

  /** Flags depend only on where flagged claims end. */
  lemma SameFlags(m: Mem, claims: seq<Claim>, m': Mem, claims': seq<Claim>)
    requires m.size > 0 && m'.size == m.size && m'.submit == m.submit && |m.submit| == m.size
    requires |claims'| == |claims|
    requires forall i :: 0 <= i < |claims| ==>
               claims'[i].End() == claims[i].End() && claims'[i].status == claims[i].status
    requires forall p :: 0 <= p < m.size ==> (m.submit[p] == 1 <==> FlagFor(m, claims, p))
    ensures forall p :: 0 <= p < m.size ==> (m'.submit[p] == 1 <==> FlagFor(m', claims', p))
  {
    forall p | 0 <= p < m.size
      ensures FlagFor(m, claims, p) <==> FlagFor(m', claims', p)
    {
      if FlagFor(m, claims, p) {
        var i :| 0 <= i < |claims| && claims[i].status == Flagged && Index(claims[i].End(), m.size) == p;
        assert claims'[i].status == Flagged;
      }
    }
  }

  /** Setting or clearing the flag at one claim's end changes the status of that claim only. */
  lemma HoldsStatus(m: Mem, claims: seq<Claim>, j: nat, m': Mem, claims': seq<Claim>)
    requires Holds(m, claims) && j < |claims|
    requires claims[j].status == Writing ==> forall k: nat :: k < |claims[j].data| ==> k in claims[j].done
    requires |claims'| == |claims| && claims' == claims[j := claims[j].(status := claims'[j].status)]
    requires claims'[j].status != Writing
    requires m' == m.(submit :=
               m.submit[Index(claims[j].End(), m.size) := if claims'[j].status == Flagged then 1 else 0])
    ensures Holds(m', claims')
  {
    TiledSame(claims, claims', m.avail, m.ask);
    forall i | 0 <= i < |claims'|
      ensures LengthPrefixed(claims'[i].data) && InPlace(m', claims'[i])
    {
      assert InPlace(m, claims[i]);
    }
    forall i | 0 <= i < |claims| && i != j
      ensures Index(claims[i].End(), m.size) != Index(claims[j].End(), m.size)
    {
      if Index(claims[i].End(), m.size) == Index(claims[j].End(), m.size) {
        EndsDistinct(m, claims, i, j);
      }
    }
    forall p | 0 <= p < m.size
      ensures m'.submit[p] == 1 <==> FlagFor(m', claims', p)
    {
      FlagAfterStatus(m, claims, j, m', claims', p);
    }
  }

  lemma FlagAfterStatus(m: Mem, claims: seq<Claim>, j: nat, m': Mem, claims': seq<Claim>, p: nat)
    requires m.size > 0 && |m.submit| == m.size && j < |claims| == |claims'| && p < m.size
    requires m.submit[p] == 1 <==> FlagFor(m, claims, p)
    requires forall i :: 0 <= i < |claims| && i != j ==>
      Index(claims[i].End(), m.size) != Index(claims[j].End(), m.size)
    requires claims' == claims[j := claims[j].(status := claims'[j].status)]
    requires m' == m.(submit :=
               m.submit[Index(claims[j].End(), m.size) := if claims'[j].status == Flagged then 1 else 0])
    ensures m'.submit[p] == 1 <==> FlagFor(m', claims', p)
  {
    var e := Index(claims[j].End(), m.size);
    assert claims'[j].End() == claims[j].End();
    if p == e {
      if claims'[j].status == Flagged {
        assert FlagFor(m', claims', p);
      }
    } else {
      if FlagFor(m, claims, p) {
        var i :| 0 <= i < |claims| && claims[i].status == Flagged && Index(claims[i].End(), m.size) == p;
        assert claims'[i] == claims[i];
      }
      if FlagFor(m', claims', p) {
        var i :| 0 <= i < |claims'| && claims'[i].status == Flagged && Index(claims'[i].End(), m.size) == p;
        assert claims[i] == claims'[i];
      }
    }
  }

  /** Releasing the oldest claim, once its flag is cleared, gives its bytes back. */
  lemma HoldsRelease(m: Mem, claims: seq<Claim>)
    requires Holds(m, claims) && claims != [] && claims[0].status == Cleared
    ensures Holds(m.(avail := claims[0].End()), claims[1..])
  {
    var m', claims' := m.(avail := claims[0].End()), claims[1..];
    TiledOrdered(claims, m.avail, m.ask);
    forall i | 0 <= i < |claims'|
      ensures LengthPrefixed(claims'[i].data) && InPlace(m', claims'[i])
    {
      assert claims'[i] == claims[i + 1] && InPlace(m, claims[i + 1]);
    }
    forall p | 0 <= p < m.size
      ensures m'.submit[p] == 1 <==> FlagFor(m', claims', p)
    {
      ReleaseFlags(m, claims, p);
    }
  }

  /** A cleared claim has no flag, so its release changes none. */
  lemma ReleaseFlags(m: Mem, claims: seq<Claim>, p: nat)
    requires 0 < m.size && claims != [] && claims[0].status == Cleared
    ensures FlagFor(m, claims, p) <==> FlagFor(m.(avail := claims[0].End()), claims[1..], p)
  {
    var claims' := claims[1..];
    if FlagFor(m, claims, p) {
      var i :| 0 <= i < |claims| && claims[i].status == Flagged && Index(claims[i].End(), m.size) == p;
      assert claims'[i - 1] == claims[i];
    }
    if FlagFor(m, claims', p) {
      var i :| 0 <= i < |claims'| && claims'[i].status == Flagged && Index(claims'[i].End(), m.size) == p;
      assert claims[i + 1] == claims'[i];
    }
  }
}
