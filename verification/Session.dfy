/**
 The receive path: a fixed buffer with compaction, read in arbitrary pieces (transport/tcp_session.go and
 transport/tcp_server.go).
 */
module Sessions {
  import opened Bits
  import opened Conver
  import opened Slices
  import opened FrameCodec

  // ---------- parsing a byte stream ----------

  /** getFrameType on the unread bytes. */
  function HeadType(b: Bytes): nat {
    if |b| < HEAD then TYPE_NIL
    else if BytesToUint32(b[..4]) > |b| then TYPE_NIL
    else BytesToUint16(b[6..8])
  }

  function HeadLength(b: Bytes): nat
    requires |b| >= HEAD
  {
    BytesToUint32(b[..4])
  }

  /** What the frame loop does with some unread bytes. */
  datatype Parsed = Parsed(frames: seq<Bytes>, rest: Bytes, exited: bool)

  /**
   The frame loop: route frames until none is complete or an exit frame has been routed. A length field
   of 0 makes the loop spin; `Advances` rules it out.
   */
  function Parse(b: Bytes): Parsed
    decreases |b|
  {
    var ft := HeadType(b);
    if ft == TYPE_NIL then Parsed([], b, false)
    else if ft == TYPE_EXIT then Parsed([b[..HeadLength(b)]], b, true)
    else if HeadLength(b) == 0 then Parsed([], b, false)
    else
      var tail := Parse(b[HeadLength(b)..]);
      Parsed([b[..HeadLength(b)]] + tail.frames, tail.rest, tail.exited)
  }

  /** No complete frame has length 0. */
  ghost predicate Advances(b: Bytes)
    decreases |b|
  {
    var ft := HeadType(b);
    ft == TYPE_NIL || ft == TYPE_EXIT || (HeadLength(b) > 0 && Advances(b[HeadLength(b)..]))
  }

  /** More bytes behind a complete frame do not change it. */
  lemma HeadStable(a: Bytes, c: Bytes)
    requires HeadType(a) != TYPE_NIL
    ensures HeadType(a + c) == HeadType(a) && HeadLength(a + c) == HeadLength(a) <= |a|
    ensures (a + c)[..HeadLength(a)] == a[..HeadLength(a)]
    ensures (a + c)[HeadLength(a)..] == a[HeadLength(a)..] + c
  {
    assert (a + c)[..4] == a[..4] && (a + c)[6..8] == a[6..8];
  }

  /** Parsing what has arrived and later the rest is parsing everything at once. */
  lemma {:induction false} ParseAppend(a: Bytes, c: Bytes)
    ensures ParseJoins(a, c)
    decreases |a|
  {
    if HeadType(a) != TYPE_NIL {
      HeadStable(a, c);
      if HeadType(a) != TYPE_EXIT && HeadLength(a) > 0 {
        ParseAppend(a[HeadLength(a)..], c);
        JoinsMore(a, c);
      }
    }
  }

  ghost predicate ParseJoins(a: Bytes, c: Bytes) {
    var p := Parse(a);
    if p.exited then
      Parse(a + c).exited && Parse(a + c).frames == p.frames
    else
      var q := Parse(p.rest + c);
      Parse(a + c) == Parsed(p.frames + q.frames, q.rest, q.exited)
  }

  lemma JoinsMore(a: Bytes, c: Bytes)
    requires HeadType(a) != TYPE_NIL && HeadType(a) != TYPE_EXIT && HeadLength(a) > 0
    requires HeadType(a + c) == HeadType(a) && HeadLength(a + c) == HeadLength(a) <= |a|
    requires (a + c)[..HeadLength(a)] == a[..HeadLength(a)]
    requires (a + c)[HeadLength(a)..] == a[HeadLength(a)..] + c
    requires ParseJoins(a[HeadLength(a)..], c)
    ensures ParseJoins(a, c)
  {
    var tail := a[HeadLength(a)..];
    assert Parse(a) == Parsed([a[..HeadLength(a)]] + Parse(tail).frames, Parse(tail).rest, Parse(tail).exited);
    assert Parse(a + c) ==
      Parsed([a[..HeadLength(a)]] + Parse(tail + c).frames, Parse(tail + c).rest, Parse(tail + c).exited);
    if !Parse(a).exited {
      Regroup([a[..HeadLength(a)]], Parse(tail).frames, Parse(Parse(tail).rest + c).frames);
    }
  }

  /** Without an exit frame, what was routed and what is left are all the bytes. */
  lemma {:induction false} ParseConserves(b: Bytes)
    requires !Parse(b).exited
    ensures Flatten(Parse(b).frames) + Parse(b).rest == b
    decreases |b|
  {
    if HeadType(b) != TYPE_NIL && HeadLength(b) > 0 {
      ParseConserves(b[HeadLength(b)..]);
      var tail := Parse(b[HeadLength(b)..]);
      assert Parse(b).frames[1..] == tail.frames;
      assert b == b[..HeadLength(b)] + b[HeadLength(b)..];
    }
  }

  // ---------- well-formed frames ----------

  /** A frame whose length field is its length and whose type is not the one that stands for "none". */
  ghost predicate WellFormed(f: Bytes) {
    HEAD <= |f| < TWO32 && BytesToUint32(f[..4]) == |f| && BytesToUint16(f[6..8]) != TYPE_NIL
  }

  predicate IsExit(f: Bytes)
    requires |f| >= HEAD
  {
    BytesToUint16(f[6..8]) == TYPE_EXIT
  }

  ghost predicate AllWellFormed(frames: seq<Bytes>) {
    forall i :: 0 <= i < |frames| ==> WellFormed(frames[i])
  }

  /** The frames a receiver has routed once n bytes of them have arrived: up to the first exit frame. */
  ghost function Completed(frames: seq<Bytes>, n: nat): seq<Bytes>
    requires AllWellFormed(frames)
  {
    if frames == [] || |frames[0]| > n then []
    else if IsExit(frames[0]) then [frames[0]]
    else
      assert forall i :: 1 <= i < |frames| ==> frames[i] == frames[1..][i - 1];
      assert AllWellFormed(frames[1..]);
      [frames[0]] + Completed(frames[1..], n - |frames[0]|)
  }

  /**
   Which ones these are: as many whole frames as n bytes hold, and if there is an exit frame among them, none
   behind the first one.
   */
  lemma {:induction false} CompletedIs(frames: seq<Bytes>, n: nat) returns (k: nat)
    requires AllWellFormed(frames)
    ensures k <= |frames| && Completed(frames, n) == frames[..k] && |Flatten(frames[..k])| <= n
    ensures forall i :: 0 <= i < k - 1 ==> !IsExit(frames[i])
    ensures k == |frames| || (k > 0 && IsExit(frames[k - 1])) || |Flatten(frames[..k + 1])| > n
    decreases |frames|
  {
    k := 0;
    if frames != [] && |frames[0]| <= n {
      var rest := frames[1..];
      assert forall i :: 1 <= i < |frames| ==> frames[i] == rest[i - 1];
      k := 1;
      if !IsExit(frames[0]) {
        k := CompletedIs(rest, n - |frames[0]|);
        FlattenFront(frames, k);
        if k < |rest| {
          FlattenFront(frames, k + 1);
        }
        k := k + 1;
      } else {
        FlattenFront(frames, 0);
      }
    } else if frames != [] {
      FlattenFront(frames, 0);
    }
  }

  lemma FlattenFront(frames: seq<Bytes>, k: nat)
    requires k < |frames|
    ensures frames[..k + 1] == [frames[0]] + frames[1..][..k]
    ensures |Flatten(frames[..k + 1])| == |frames[0]| + |Flatten(frames[1..][..k])|
  {
    assert frames[..k + 1][1..] == frames[1..][..k];
  }

  /** Part of a frame is not yet a frame. */
  lemma HeadPartial(f: Bytes, b: Bytes)
    requires WellFormed(f) && b <= f && |b| < |f|
    ensures HeadType(b) == TYPE_NIL
  {
    if |b| >= HEAD {
      assert b[..4] == f[..4];
    }
  }

  /** A whole frame at the head is recognised whatever follows it. */
  lemma HeadWhole(f: Bytes, b: Bytes)
    requires WellFormed(f) && f <= b
    ensures HeadType(b) == BytesToUint16(f[6..8]) && HeadLength(b) == |f| && b[..|f|] == f
  {
    assert b[..4] == f[..4] && b[6..8] == f[6..8];
  }

  /** Every frame but the last partial one has been routed, and none of them is an exit frame. */
  ghost predicate Leaves(frames: seq<Bytes>, p: Parsed)
    requires AllWellFormed(frames)
  {
    var k := |p.frames|;
    && k <= |frames| && p.frames == frames[..k]
    && (forall i :: 0 <= i < k ==> !IsExit(frames[i]))
    && if k == |frames| then p.rest == [] else p.rest <= frames[k] && |p.rest| < |frames[k]|
  }

  lemma LeavesMore(frames: seq<Bytes>, p: Parsed, q: Parsed)
    requires AllWellFormed(frames) && frames != [] && !IsExit(frames[0])
    requires AllWellFormed(frames[1..]) && Leaves(frames[1..], q)
    requires p == Parsed([frames[0]] + q.frames, q.rest, q.exited)
    ensures Leaves(frames, p)
  {
    var k := |p.frames|;
    assert forall i :: 1 <= i < |frames| ==> frames[i] == frames[1..][i - 1];
    assert p.frames == frames[..k];
  }

  /** Parsing the first bytes of well-formed frames routes the completed ones, whole and in order. */
  lemma {:induction false} ParseFrames(frames: seq<Bytes>, b: Bytes)
    requires AllWellFormed(frames) && b <= Flatten(frames)
    ensures Parse(b).frames == Completed(frames, |b|) && Advances(b)
    ensures !Parse(b).exited ==> Leaves(frames, Parse(b))
    decreases |frames|
  {
    if frames != [] {
      var f := frames[0];
      assert Flatten(frames) == f + Flatten(frames[1..]);
      if |b| < |f| {
        HeadPartial(f, b);
      } else {
        HeadWhole(f, b);
        if !IsExit(f) {
          var rest := b[|f|..];
          assert rest <= Flatten(frames[1..]);
          ParseFrames(frames[1..], rest);
          if !Parse(rest).exited {
            LeavesMore(frames, Parse(b), Parse(rest));
          }
        }
      }
    }
  }

  // ---------- reading in pieces ----------

  /** The receiver between two reads, with a buffer of `capacity` bytes. */
  datatype Receiver = Receiver(capacity: nat, pending: Bytes, routed: seq<Bytes>, exited: bool, failed: bool)

  /** One round of the outer loop: ioRead fails on a full buffer; otherwise the frame loop runs. */
  function Receive(rc: Receiver, piece: Bytes): Receiver {
    if rc.exited || rc.failed then rc
    else if |rc.pending| >= rc.capacity then rc.(failed := true)
    else
      var p := Parse(rc.pending + piece);
      rc.(pending := p.rest, routed := rc.routed + p.frames, exited := p.exited)
  }

  function ReceiveAll(rc: Receiver, pieces: seq<Bytes>): Receiver
    decreases |pieces|
  {
    if pieces == [] then rc else ReceiveAll(Receive(rc, pieces[0]), pieces[1..])
  }

  function Start(capacity: nat): Receiver {
    Receiver(capacity, [], [], false, false)
  }

  /** A receiver without a complete frame pending. */
  ghost predicate Drained(rc: Receiver) {
    !rc.exited && !rc.failed && Parse(rc.pending) == Parsed([], rc.pending, false)
  }

  /** What a receiver that starts from rc has to show for the bytes b. */
  ghost predicate HasParsed(rc: Receiver, b: Bytes, t: Receiver) {
    var p := Parse(b);
    && t.routed == rc.routed + p.frames && t.exited == p.exited
    && (!t.exited ==> t.pending == p.rest)
  }

  lemma {:induction false} ReceiveParses(rc: Receiver, pieces: seq<Bytes>)
    requires Drained(rc)
    ensures var t := ReceiveAll(rc, pieces);
            !t.failed ==> HasParsed(rc, rc.pending + Flatten(pieces), t)
    decreases |pieces|
  {
    if pieces == [] {
      assert rc.pending + Flatten(pieces) == rc.pending;
    } else {
      var u := Receive(rc, pieces[0]);
      var now, more := rc.pending + pieces[0], Flatten(pieces[1..]);
      assert rc.pending + Flatten(pieces) == now + more;
      if u.failed || u.exited {
        StayStopped(u, pieces[1..]);
        ParseAppend(now, more);
      } else {
        ParseRest(now);
        ReceiveParses(u, pieces[1..]);
        JoinParsed(rc, now, more, u, ReceiveAll(u, pieces[1..]));
      }
    }
  }

  lemma JoinParsed(rc: Receiver, now: Bytes, more: Bytes, u: Receiver, t: Receiver)
    requires !Parse(now).exited && u.pending == Parse(now).rest && u.routed == rc.routed + Parse(now).frames
    requires !t.failed ==> HasParsed(u, u.pending + more, t)
    ensures !t.failed ==> HasParsed(rc, now + more, t)
  {
    ParseAppend(now, more);
    var p, q := Parse(now), Parse(Parse(now).rest + more);
    assert (rc.routed + p.frames) + q.frames == rc.routed + (p.frames + q.frames);
  }

  lemma {:induction false} StayStopped(rc: Receiver, pieces: seq<Bytes>)
    requires rc.failed || rc.exited
    ensures ReceiveAll(rc, pieces) == rc
    decreases |pieces|
  {
    if pieces != [] {
      StayStopped(rc, pieces[1..]);
    }
  }

  /** What is left after parsing holds no complete frame. */
  lemma {:induction false} ParseRest(b: Bytes)
    requires !Parse(b).exited
    ensures Parse(Parse(b).rest) == Parsed([], Parse(b).rest, false)
    decreases |b|
  {
    if HeadType(b) != TYPE_NIL && HeadLength(b) > 0 {
      ParseRest(b[HeadLength(b)..]);
    }
  }

  /** However a byte stream is cut, the same frames are routed and the same bytes are left. */
  lemma ChunkingIndependent(capacity: nat, pieces: seq<Bytes>, others: seq<Bytes>)
    requires Flatten(pieces) == Flatten(others)
    ensures var a, b := ReceiveAll(Start(capacity), pieces), ReceiveAll(Start(capacity), others);
            !a.failed && !b.failed ==>
              a.routed == b.routed && a.exited == b.exited && (!a.exited ==> a.pending == b.pending)
  {
    ReceiveParses(Start(capacity), pieces);
    ReceiveParses(Start(capacity), others);
    assert Start(capacity).pending + Flatten(pieces) == Start(capacity).pending + Flatten(others);
  }

  /** For well-formed frames that fit the buffer no read ever fails. */
  lemma {:induction false} NoOverflow(rc: Receiver, frames: seq<Bytes>, pieces: seq<Bytes>)
    requires Drained(rc) && AllWellFormed(frames) && forall i :: 0 <= i < |frames| ==> |frames[i]| <= rc.capacity
    requires rc.capacity > 0 && rc.pending + Flatten(pieces) <= Flatten(frames)
    ensures !ReceiveAll(rc, pieces).failed
    decreases |pieces|
  {
    ParseFrames(frames, rc.pending) by {
      assert rc.pending <= rc.pending + Flatten(pieces);
    }
    if pieces != [] {
      var u := Receive(rc, pieces[0]);
      var b := rc.pending + pieces[0];
      assert b + Flatten(pieces[1..]) == rc.pending + Flatten(pieces);
      ParseFrames(frames, b) by {
        assert b <= rc.pending + Flatten(pieces);
      }
      if u.exited {
        StayStopped(u, pieces[1..]);
      } else {
        ParseRest(b);
        var k := |Parse(b).frames|;
        RestOfFrames(frames, k, b, Flatten(pieces[1..]));
        NoOverflow(u, frames[k..], pieces[1..]);
      }
    }
  }

  lemma RestOfFrames(frames: seq<Bytes>, k: nat, b: Bytes, more: Bytes)
    requires !Parse(b).exited && k <= |frames| && Parse(b).frames == frames[..k] && b + more <= Flatten(frames)
    ensures Parse(b).rest + more <= Flatten(frames[k..])
  {
    FlattenSplit(frames, k);
    ParseConserves(b);
    PrefixRest(Flatten(frames[..k]), Parse(b).rest, more, Flatten(frames[k..]), b, Flatten(frames));
  }

  lemma PrefixRest(front: Bytes, rest: Bytes, more: Bytes, tail: Bytes, b: Bytes, all: Bytes)
    requires b == front + rest && all == front + tail && b + more <= all
    ensures rest + more <= tail
  {
    assert (front + rest) + more == front + (rest + more);
    PrefixCancel(front, rest + more, tail);
  }

  lemma FlattenSplit(frames: seq<Bytes>, k: nat)
    requires k <= |frames|
    ensures Flatten(frames) == Flatten(frames[..k]) + Flatten(frames[k..])
  {
    assert frames == frames[..k] + frames[k..];
    FlattenAppend(frames[..k], frames[k..]);
  }

  lemma PrefixCancel(a: Bytes, x: Bytes, y: Bytes)
    requires a + x <= a + y
    ensures x <= y
  {
    forall i | 0 <= i < |x|
      ensures x[i] == y[i]
    {
      assert (a + x)[|a| + i] == (a + y)[|a| + i];
    }
  }

  /**
   Reassembly: for well-formed frames no longer than the buffer, and every way of cutting the first n bytes
   of them, no read fails, exactly the completed frames are routed in order, and the bytes routed and
   pending are all the bytes received.
   */
  lemma Reassembly(capacity: nat, frames: seq<Bytes>, pieces: seq<Bytes>)
    requires AllWellFormed(frames) && forall i :: 0 <= i < |frames| ==> |frames[i]| <= capacity
    requires capacity > 0 && Flatten(pieces) <= Flatten(frames)
    ensures var t := ReceiveAll(Start(capacity), pieces);
            && !t.failed
            && t.routed == Completed(frames, |Flatten(pieces)|)
            && (!t.exited ==> Flatten(t.routed) + t.pending == Flatten(pieces))
  {
    var s := Start(capacity);
    assert s.pending + Flatten(pieces) == Flatten(pieces);
    NoOverflow(s, frames, pieces);
    ReceiveParses(s, pieces);
    ParseFrames(frames, Flatten(pieces));
    if !Parse(Flatten(pieces)).exited {
      ParseConserves(Flatten(pieces));
    }
  }

  /** A frame longer than the buffer is never routed: once the buffer is full of it, the next read fails. */
  lemma OversizeFails(rc: Receiver, f: Bytes, piece: Bytes)
    requires !rc.exited && !rc.failed && WellFormed(f) && |f| > rc.capacity
    requires rc.pending <= f
    ensures |rc.pending| >= rc.capacity ==> Receive(rc, piece).failed
    ensures |rc.pending| < rc.capacity && rc.pending + piece <= f && |rc.pending + piece| <= rc.capacity ==>
              Receive(rc, piece) == rc.(pending := rc.pending + piece)
  {
    var b := rc.pending + piece;
    if |rc.pending| < rc.capacity && b <= f && |b| <= rc.capacity {
      if |b| >= HEAD {
        assert b[..4] == f[..4];
      }
      assert Parse(b) == Parsed([], b, false);
    }
  }

  /** Reads return non-empty pieces that fit the free space; on a full buffer nothing is read. */
  ghost predicate Readable(rc: Receiver, pieces: seq<Bytes>)
    decreases |pieces|
  {
    pieces == [] ||
    (&& (|rc.pending| < rc.capacity ==> 1 <= |pieces[0]| <= rc.capacity - |rc.pending|)
     && Readable(Receive(rc, pieces[0]), pieces[1..]))
  }

  /** Reading the frames before an oversize one whole, then filling the buffer with it, makes the next read fail. */
  lemma {:induction false} OversizeCut(rc: Receiver, frames: seq<Bytes>) returns (pieces: seq<Bytes>)
    requires rc.pending == [] && !rc.exited && !rc.failed && rc.capacity > 0
    requires AllWellFormed(frames) && forall i :: 0 <= i < |frames| ==> !IsExit(frames[i])
    requires exists i :: 0 <= i < |frames| && |frames[i]| > rc.capacity
    ensures Readable(rc, pieces) && Flatten(pieces) <= Flatten(frames) && ReceiveAll(rc, pieces).failed
    decreases |frames|
  {
    var f := frames[0];
    if |f| > rc.capacity {
      pieces := OversizeFirst(rc, f);
      assert Flatten(pieces) <= f <= f + Flatten(frames[1..]);
    } else {
      assert forall i :: 1 <= i < |frames| ==> frames[i] == frames[1..][i - 1];
      WholeFrame(rc, f);
      var rest := OversizeCut(Receive(rc, f), frames[1..]);
      pieces := [f] + rest;
      assert pieces[1..] == rest;
      assert f + Flatten(rest) <= f + Flatten(frames[1..]);
    }
  }

  lemma WholeFrame(rc: Receiver, f: Bytes)
    requires rc.pending == [] && !rc.exited && !rc.failed && rc.capacity > 0
    requires WellFormed(f) && !IsExit(f) && |f| <= rc.capacity
    ensures Receive(rc, f) == rc.(routed := rc.routed + [f])
  {
    assert rc.pending + f == f;
    assert f[..|f|] == f && f[|f|..] == [];
    assert Parse([]) == Parsed([], [], false);
    assert Parse(f) == Parsed([f], [], false);
  }

  lemma OversizeFirst(rc: Receiver, f: Bytes) returns (pieces: seq<Bytes>)
    requires rc.pending == [] && !rc.exited && !rc.failed && rc.capacity > 0 && WellFormed(f) && |f| > rc.capacity
    ensures Readable(rc, pieces) && Flatten(pieces) <= f && ReceiveAll(rc, pieces).failed
  {
    var n := rc.capacity;
    var a, b := f[..n], f[n..n + 1];
    assert rc.pending + a == a;
    OversizeFails(rc, f, a);
    var u := Receive(rc, a);
    OversizeFails(u, f, b);
    pieces := [a, b];
    assert pieces[1..] == [b];
    OnePiece(u, b);
    FlattenTwo(a, b);
  }

  lemma OnePiece(rc: Receiver, piece: Bytes)
    ensures ReceiveAll(rc, [piece]) == Receive(rc, piece)
    ensures |rc.pending| >= rc.capacity ==> Readable(rc, [piece])
  {
    assert [piece][1..] == [];
  }

  lemma FlattenTwo(a: Bytes, b: Bytes)
    ensures Flatten([b]) == b && Flatten([a, b]) == a + b
  {
    assert [b][1..] == [] && [a, b][1..] == [b];
  }

  /** For frames that are no exit frames: no cut makes a read fail if and only if every frame fits the buffer. */
  lemma FitsIffNoFailure(capacity: nat, frames: seq<Bytes>)
    requires capacity > 0 && AllWellFormed(frames) && forall i :: 0 <= i < |frames| ==> !IsExit(frames[i])
    ensures (forall i :: 0 <= i < |frames| ==> |frames[i]| <= capacity) <==>
            (forall pieces :: Readable(Start(capacity), pieces) && Flatten(pieces) <= Flatten(frames) ==>
               !ReceiveAll(Start(capacity), pieces).failed)
  {
    if forall i :: 0 <= i < |frames| ==> |frames[i]| <= capacity {
      forall pieces | Readable(Start(capacity), pieces) && Flatten(pieces) <= Flatten(frames)
        ensures !ReceiveAll(Start(capacity), pieces).failed
      {
        Reassembly(capacity, frames, pieces);
      }
    } else {
      var pieces := OversizeCut(Start(capacity), frames);
    }
  }

  // ---------- the session ----------

  /** The peer's bytes; a read returns any non-empty part of what is left that fits. */
  class Conn {
    const stream: Bytes
    var pos: nat

    ghost predicate Valid()
      reads this
    {
      pos <= |stream|
    }

    constructor (stream: Bytes)
      ensures this.stream == stream && pos == 0 && Valid()
    {
      this.stream := stream;
      pos := 0;
    }

    method Read(room: nat) returns (data: Bytes)
      requires Valid() && room > 0 && pos < |stream|
      modifies this
      ensures Valid() && pos == old(pos) + |data| && 1 <= |data| <= room
      ensures data == stream[old(pos)..pos]
    {
      var n :| 1 <= n <= room && pos + n <= |stream|;
      data := stream[pos..pos + n];
      pos := pos + n;
    }
  }

  datatype ReadResult = ReadOk | ErrFailureIORead | EndOfStream

  class SessionTCP {
    var rBuf: array<byte>
    var r: nat
    var w: nat

    ghost predicate Valid()
      reads this
    {
      r <= w <= rBuf.Length && rBuf.Length > 0
    }

    /** The bytes received and not yet routed. */
    ghost function Pending(): Bytes
      requires Valid()
      reads this, rBuf
    {
      rBuf[r..w]
    }

    constructor (capacity: nat)
      requires capacity > 0
      ensures Valid() && fresh(rBuf) && rBuf.Length == capacity && Pending() == []
    {
      rBuf := new byte[capacity](_ => 0);
      r, w := 0, 0;
    }

    method GetFrameType() returns (ft: nat)
      requires Valid()
      ensures ft == HeadType(Pending())
    {
      if w < r + HEAD {
        return TYPE_NIL;
      }
      ghost var b := Pending();
      assert rBuf[r..r + 4] == b[..4];
      assert rBuf[r + 6] == b[6] && rBuf[r + 7] == b[7];
      var length := BytesToUint32(rBuf[r..r + 4]);
      if r + length > w {
        return TYPE_NIL;
      }
      return BytesToUint16(rBuf[r + 6..r + 8]);
    }

    /** The bytes of the current frame as a handler sees them, or nothing if none is complete. */
    method GetFrameSlice() returns (base: Bytes)
      requires Valid()
      ensures var b := Pending();
              base == if |b| < HEAD || HeadLength(b) > |b| then [] else b[..HeadLength(b)]
    {
      if w < r + HEAD {
        return [];
      }
      ghost var b := Pending();
      assert rBuf[r..r + 4] == b[..4];
      var length := BytesToUint32(rBuf[r..r + 4]);
      if r + length <= w {
        assert rBuf[r..r + length] == b[..length];
        return rBuf[r..r + length];
      }
      return [];
    }

    /** ioRead: unread bytes move to the front, then the connection fills in behind them. */
    method IoRead(conn: Conn) returns (result: ReadResult)
      requires Valid() && conn.Valid()
      modifies this, rBuf, conn
      ensures Valid() && conn.Valid() && rBuf == old(rBuf)
      ensures result == ErrFailureIORead <==> |old(Pending())| >= rBuf.Length
      ensures result == EndOfStream <==> |old(Pending())| < rBuf.Length && old(conn.pos) == |conn.stream|
      ensures result == ReadOk ==> conn.pos > old(conn.pos) && r == 0
      ensures result == ReadOk ==> Pending() == old(Pending()) + conn.stream[old(conn.pos)..conn.pos]
      ensures result != ReadOk ==> conn.pos == old(conn.pos) && Pending() == old(Pending())
    {
      ghost var b := Pending();
      Compact();
      if w >= rBuf.Length {
        return ErrFailureIORead;
      }
      if conn.pos == |conn.stream| {
        return EndOfStream;
      }
      var data := conn.Read(rBuf.Length - w);
      Copy(rBuf, w, data);
      r := 0;
      w := w + |data|;
      assert rBuf[..w] == b + data;
      return ReadOk;
    }

    method Compact()
      requires Valid()
      modifies this`r, this`w, rBuf
      ensures Valid() && rBuf == old(rBuf) && r == 0 && Pending() == old(Pending())
    {
      if r > 0 {
        if r < w {
          Copy(rBuf, 0, rBuf[r..w]);
          w := w - r;
        } else {
          w := 0;
        }
        r := 0;
      }
    }

    /** One round of the inner loop on a complete frame: it is routed, and skipped unless it is an exit. */
    method RouteOne() returns (frame: Bytes, ft: nat)
      requires Valid()
      modifies this`r
      ensures Valid() && ft == HeadType(old(Pending()))
      ensures ft == TYPE_NIL ==> r == old(r)
      ensures ft != TYPE_NIL ==>
                var b := old(Pending());
                && |b| >= HEAD
                && HeadLength(b) <= |b| && frame == b[..HeadLength(b)]
                && r == old(r) + (if ft == TYPE_EXIT then 0 else HeadLength(b))
                && Pending() == if ft == TYPE_EXIT then b else b[HeadLength(b)..]
    {
      ghost var b := Pending();
      ft := GetFrameType();
      if ft == TYPE_NIL {
        return [], ft;
      }
      frame := GetFrameSlice();
      if ft != TYPE_EXIT {
        assert rBuf[r..r + 4] == b[..4];
        r := r + BytesToUint32(rBuf[r..r + 4]);
        assert Pending() == b[HeadLength(b)..];
      }
    }

    /** The inner loop: every complete frame is routed, up to an exit frame. */
    method RouteFrames() returns (routed: seq<Bytes>, exited: bool)
      requires Valid() && Advances(Pending())
      modifies this`r
      ensures Valid() && exited == Parse(old(Pending())).exited
      ensures routed == Parse(old(Pending())).frames && Pending() == Parse(old(Pending())).rest
    {
      routed := [];
      ghost var b := Pending();
      ghost var now := b;
      while true
        invariant Valid() && now == Pending() && Advances(now)
        invariant ParsesTo(b, routed, now)
        decreases w - r
      {
        var frame, ft := RouteOne();
        if ft == TYPE_NIL {
          ParsedEnd(b, routed, now);
          return routed, false;
        }
        if ft == TYPE_EXIT {
          ParsedEnd(b, routed, now);
          return routed + [frame], true;
        }
        ParsedMore(b, routed, now);
        routed := routed + [frame];
        now := Pending();
      }
    }

    /**
     ioLoop until the peer's bytes are used up, a read fails, or an exit frame arrives. For frames of the
     well-formed kind, whatever the reads return, the frames routed are the completed ones of what arrived,
     and a read can only fail on a frame longer than the buffer.
     */
    method IoLoop(conn: Conn, ghost frames: seq<Bytes>)
      returns (routed: seq<Bytes>, exited: bool, result: ReadResult)
      requires Valid() && conn.Valid() && Pending() == [] && conn.pos == 0
      requires AllWellFormed(frames) && conn.stream <= Flatten(frames)
      modifies this, rBuf, conn
      ensures Valid() && conn.Valid()
      ensures exited <==> result == ReadOk
      ensures routed == Completed(frames, conn.pos)
      ensures !exited ==> Flatten(routed) + Pending() == conn.stream[..conn.pos]
      ensures result == EndOfStream ==> conn.pos == |conn.stream|
      ensures result == ErrFailureIORead ==> |routed| < |frames| && |frames[|routed|]| > rBuf.Length
    {
      routed := [];
      assert conn.stream[..0] == [];
      while true
        invariant Valid() && conn.Valid() && rBuf == old(rBuf)
        invariant Parse(conn.stream[..conn.pos]) == Parsed(routed, Pending(), false)
        decreases |conn.stream| - conn.pos
      {
        BetweenReads(frames, conn.stream[..conn.pos], routed, Pending());
        var more, stop;
        more, stop, result := ReadAndRoute(conn, frames, routed);
        routed := routed + more;
        if stop || result != ReadOk {
          return routed, stop, result;
        }
      }
    }

    /** One read and, if it succeeds, the inner loop behind it. */
    method ReadAndRoute(conn: Conn, ghost frames: seq<Bytes>, ghost before: seq<Bytes>)
      returns (routed: seq<Bytes>, exited: bool, result: ReadResult)
      requires Valid() && conn.Valid() && AllWellFormed(frames) && conn.stream <= Flatten(frames)
      requires Parse(conn.stream[..conn.pos]) == Parsed(before, Pending(), false)
      modifies this, rBuf, conn
      ensures Valid() && conn.Valid() && rBuf == old(rBuf)
      ensures result == ErrFailureIORead <==> |old(Pending())| >= rBuf.Length
      ensures result == EndOfStream ==> old(conn.pos) == |conn.stream|
      ensures result != ReadOk ==>
                !exited && routed == [] && conn.pos == old(conn.pos) && Pending() == old(Pending())
      ensures result == ReadOk ==>
                conn.pos > old(conn.pos) && Parse(conn.stream[..conn.pos]) == Parsed(before + routed, Pending(), exited)
      ensures result == ReadOk ==> before + routed == Completed(frames, conn.pos)
    {
      ghost var got, pending, pos := conn.stream[..conn.pos], Pending(), conn.pos;
      result := IoRead(conn);
      if result != ReadOk {
        return [], false, result;
      }
      ghost var piece := conn.stream[pos..conn.pos];
      assert conn.stream[..conn.pos] == got + piece;
      AfterRead(frames, got, before, pending, piece);
      routed, exited := RouteFrames();
    }
  }

  lemma BetweenReads(frames: seq<Bytes>, got: Bytes, routed: seq<Bytes>, pending: Bytes)
    requires AllWellFormed(frames) && got <= Flatten(frames) && Parse(got) == Parsed(routed, pending, false)
    ensures routed == Completed(frames, |got|) && Flatten(routed) + pending == got
    ensures pending != [] ==> |routed| < |frames| && |pending| < |frames[|routed|]|
  {
    ParseFrames(frames, got);
    ParseConserves(got);
  }

  lemma AfterRead(frames: seq<Bytes>, got: Bytes, routed: seq<Bytes>, pending: Bytes, piece: Bytes)
    requires AllWellFormed(frames) && got + piece <= Flatten(frames) && Parse(got) == Parsed(routed, pending, false)
    ensures Advances(pending + piece)
    ensures var p := Parse(pending + piece);
            && Parse(got + piece) == Parsed(routed + p.frames, p.rest, p.exited)
            && routed + p.frames == Completed(frames, |got + piece|)
  {
    ParseFrames(frames, got + piece);
    ParseAppend(got, piece);
    AdvancesRest(got, piece);
  }

  /** Parsing b has routed these frames and goes on with the bytes `now`. */
  ghost predicate ParsesTo(b: Bytes, routed: seq<Bytes>, now: Bytes) {
    var p := Parse(now);
    Parse(b) == Parsed(routed + p.frames, p.rest, p.exited)
  }

  lemma ParsedEnd(b: Bytes, routed: seq<Bytes>, now: Bytes)
    requires ParsesTo(b, routed, now) && (HeadType(now) == TYPE_NIL || HeadType(now) == TYPE_EXIT)
    ensures HeadType(now) == TYPE_NIL ==> Parse(b) == Parsed(routed, now, false)
    ensures HeadType(now) == TYPE_EXIT ==> Parse(b) == Parsed(routed + [now[..HeadLength(now)]], now, true)
  {
    assert routed + [] == routed;
  }

  lemma ParsedMore(b: Bytes, routed: seq<Bytes>, now: Bytes)
    requires ParsesTo(b, routed, now) && Advances(now) && HeadType(now) != TYPE_NIL && HeadType(now) != TYPE_EXIT
    ensures HeadLength(now) > 0 && Advances(now[HeadLength(now)..])
    ensures ParsesTo(b, routed + [now[..HeadLength(now)]], now[HeadLength(now)..])
  {
    var p := Parse(now[HeadLength(now)..]);
    assert routed + ([now[..HeadLength(now)]] + p.frames) == (routed + [now[..HeadLength(now)]]) + p.frames;
  }

  lemma {:induction false} AdvancesRest(a: Bytes, c: Bytes)
    requires Advances(a + c) && !Parse(a).exited
    ensures Advances(Parse(a).rest + c)
    decreases |a|
  {
    if HeadType(a) != TYPE_NIL {
      HeadStable(a, c);
      if HeadLength(a) > 0 {
        AdvancesRest(a[HeadLength(a)..], c);
      }
    }
  }
}
