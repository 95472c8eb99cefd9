/** serial.go: the ring is drained into handlers, and the bags of SubscribeAll zip message streams. */
module Serials {
  import opened Bits
  import opened Conver
  import opened Slices
  import opened FrameCodec
  import opened RingMemory
  import opened RingBuffers
  import RingTheorems

  /** An entry of a bag's buffer: nil, or the data of a message. */
  datatype Entry = Nil | Data(bytes: Bytes)

  // ---------- zipping columns ----------

  /** The r-th message of every column; Nil where a column is too short. */
  function Row(columns: seq<seq<Bytes>>, r: nat): (row: seq<Entry>)
    ensures |row| == |columns|
    ensures forall i :: 0 <= i < |columns| ==> row[i] == if r < |columns[i]| then Data(columns[i][r]) else Nil
  {
    seq(|columns|, i requires 0 <= i < |columns| => if r < |columns[i]| then Data(columns[i][r]) else Nil)
  }

  /** Rows one after the other. */
  function Rows(columns: seq<seq<Bytes>>, from: nat, end: nat): seq<Entry>
    requires from <= end
    decreases end - from
  {
    if from == end then [] else Row(columns, from) + Rows(columns, from + 1, end)
  }

  lemma {:induction false} RowsSplit(columns: seq<seq<Bytes>>, from: nat, mid: nat, end: nat)
    requires from <= mid <= end
    ensures Rows(columns, from, end) == Rows(columns, from, mid) + Rows(columns, mid, end)
    decreases mid - from
  {
    if from < mid {
      RowsSplit(columns, from + 1, mid, end);
      Regroup(Row(columns, from), Rows(columns, from + 1, mid), Rows(columns, mid, end));
    }
  }

  lemma {:induction false} RowsLength(columns: seq<seq<Bytes>>, from: nat, end: nat)
    requires from <= end
    ensures |Rows(columns, from, end)| == (end - from) * |columns|
    decreases end - from
  {
    if from < end {
      RowsLength(columns, from + 1, end);
    }
  }

  /** The length of the shortest column. */
  function Shortest(columns: seq<seq<Bytes>>): (n: nat)
    requires columns != []
    ensures forall i :: 0 <= i < |columns| ==> n <= |columns[i]|
    ensures exists i :: 0 <= i < |columns| && n == |columns[i]|
  {
    if |columns| == 1 then |columns[0]|
    else
      var m := Shortest(columns[1..]);
      assert forall i :: 1 <= i < |columns| ==> columns[i] == columns[1..][i - 1];
      if |columns[0]| <= m then |columns[0]| else m
  }

  /** The k-th element holds the k-th message of every column, as long as every column has one. */
  function Zip(columns: seq<seq<Bytes>>): (z: seq<seq<Entry>>)
    requires columns != []
    ensures |z| == Shortest(columns)
    ensures forall k, i :: 0 <= k < |z| && 0 <= i < |columns| ==>
              |z[k]| == |columns| && k < |columns[i]| && z[k][i] == Data(columns[i][k])
  {
    seq(Shortest(columns), k requires 0 <= k < Shortest(columns) => Row(columns, k))
  }

  /** One more message in column i. */
  function Put(columns: seq<seq<Bytes>>, i: nat, data: Bytes): seq<seq<Bytes>>
    requires i < |columns|
  {
    columns[i := columns[i] + [data]]
  }

  /** Rows that column i already fills do not change when it gets another message. */
  lemma {:induction false} PutBelow(columns: seq<seq<Bytes>>, i: nat, data: Bytes, from: nat, end: nat)
    requires i < |columns| && from <= end <= |columns[i]|
    ensures Rows(Put(columns, i, data), from, end) == Rows(columns, from, end)
    decreases end - from
  {
    if from < end {
      assert Row(Put(columns, i, data), from) == Row(columns, from);
      PutBelow(columns, i, data, from + 1, end);
    }
  }

  /** Nor do the rows behind the new message. */
  lemma {:induction false} PutAbove(columns: seq<seq<Bytes>>, i: nat, data: Bytes, from: nat, end: nat)
    requires i < |columns| && |columns[i]| < from <= end
    ensures Rows(Put(columns, i, data), from, end) == Rows(columns, from, end)
    decreases end - from
  {
    if from < end {
      assert Row(Put(columns, i, data), from) == Row(columns, from);
      PutAbove(columns, i, data, from + 1, end);
    }
  }

  lemma PutRow(columns: seq<seq<Bytes>>, i: nat, data: Bytes, end: nat)
    requires i < |columns| && |columns[i]| < end
    ensures i < |Rows(columns, |columns[i]|, end)|
    ensures Rows(columns, |columns[i]|, end)[i := Data(data)] == Rows(Put(columns, i, data), |columns[i]|, end)
  {
    var r := |columns[i]|;
    PutAbove(columns, i, data, r + 1, end);
    assert Row(Put(columns, i, data), r) == Row(columns, r)[i := Data(data)];
    UpdateFront(Row(columns, r), Rows(columns, r + 1, end), i, Data(data));
  }

  lemma UpdateFront<T>(a: seq<T>, b: seq<T>, i: nat, x: T)
    requires i < |a|
    ensures (a + b)[i := x] == a[i := x] + b
  {
  }

  lemma UpdateBehind<T>(a: seq<T>, b: seq<T>, i: nat, x: T)
    requires i < |b|
    ensures (a + b)[|a| + i := x] == a + b[i := x]
  {
  }

  /** Storing the data in the first nil entry of column i puts it behind the column. */
  lemma PutStores(columns: seq<seq<Bytes>>, i: nat, data: Bytes, from: nat, end: nat, at: nat)
    requires i < |columns| && from <= |columns[i]| < end
    requires at == |Rows(columns, from, |columns[i]|)| + i
    ensures at < |Rows(columns, from, end)|
    ensures Rows(columns, from, end)[at := Data(data)] == Rows(Put(columns, i, data), from, end)
  {
    var r := |columns[i]|;
    var after := Put(columns, i, data);
    RowsSplit(columns, from, r, end);
    RowsSplit(after, from, r, end);
    PutBelow(columns, i, data, from, r);
    PutRow(columns, i, data, end);
    UpdateBehind(Rows(columns, from, r), Rows(columns, r, end), i, Data(data));
  }

  /** Where the entries of row r are. */
  lemma EntryOf(columns: seq<seq<Bytes>>, from: nat, r: nat, end: nat, i: nat)
    requires from <= r < end && i < |columns|
    ensures |Rows(columns, from, r)| + i < |Rows(columns, from, end)|
    ensures Rows(columns, from, end)[|Rows(columns, from, r)| + i] == Row(columns, r)[i]
  {
    RowsSplit(columns, from, r, end);
  }

  lemma NextRow(columns: seq<seq<Bytes>>, from: nat, r: nat)
    requires from <= r
    ensures |Rows(columns, from, r + 1)| == |Rows(columns, from, r)| + |columns|
  {
    RowsSplit(columns, from, r, r + 1);
    assert Rows(columns, r, r + 1) == Row(columns, r);
  }

  // ---------- bags ----------

  /** A bag as values: what its columns received, and the requests of its calls so far. */
  datatype BagState = BagState(channels: seq<nat>, heard: seq<seq<Bytes>>, requests: seq<seq<Entry>>)

  /** The first entry of every column is there. */
  predicate RowReady(b: BagState) {
    forall i :: 0 <= i < |b.heard| ==> |b.requests| < |b.heard[i]|
  }

  /** A message for column i. */
  function Received(b: BagState, i: nat, data: Bytes): BagState
    requires i < |b.heard|
  {
    b.(heard := Put(b.heard, i, data))
  }

  /** One call with the first complete row that has not been handed out. */
  function Fired(b: BagState): BagState {
    b.(requests := b.requests + [Row(b.heard, |b.requests|)])
  }

  class Bag {
    const channelsSize: nat
    const channels: seq<nat>
    var buf: seq<Entry>
    var requests: seq<seq<Entry>> // the arguments of the calls of fs so far
    ghost var heard: seq<seq<Bytes>> // the messages received so far, by column
    ghost var top: nat // rows ever put in the buffer

    /** The buffer holds, row by row, what has been received and not yet handed to fs. */
    ghost predicate Valid()
      reads this
    {
      && 1 <= channelsSize == |channels| == |heard|
      && |requests| < top && buf == Rows(heard, |requests|, top)
      && (forall i :: 0 <= i < |heard| ==> |requests| <= |heard[i]| <= top)
      && (forall k :: 0 <= k < |requests| ==> requests[k] == Row(heard, k))
    }

    ghost function Values(): BagState
      reads this
    {
      BagState(channels, heard, requests)
    }

    constructor (channels: seq<nat>)
      requires channels != []
      ensures Valid() && this.channels == channels && requests == []
      ensures heard == seq(|channels|, _ => [])
    {
      channelsSize := |channels|;
      this.channels := channels;
      buf := seq(|channels|, _ => Nil);
      requests := [];
      heard := seq(|channels|, _ => []);
      top := 1;
      new;
      assert Rows(heard, 0, 1) == Row(heard, 0) == buf;
    }

    /**
     The buffer is a positive number of whole rows; reading column i from the top gives the messages that
     no call has received yet, and then nil entries to the end.
     */
    lemma BufferIsRest(r: nat, i: nat)
      requires Valid() && |requests| <= r < top && i < channelsSize
      ensures |buf| == (top - |requests|) * |heard| && |heard| == channelsSize
      ensures 0 <= (r - |requests|) * |heard| + i < |buf|
      ensures buf[(r - |requests|) * |heard| + i] == if r < |heard[i]| then Data(heard[i][r]) else Nil
    {
      RowsLength(heard, |requests|, top);
      RowsLength(heard, |requests|, r);
      EntryOf(heard, |requests|, r, top, i);
    }

    /** The search of column index has come to entry i, in row r. */
    ghost predicate At(i: nat, r: nat, index: nat)
      requires Valid() && index < channelsSize
      reads this
    {
      |requests| <= r <= |heard[index]| && i == |Rows(heard, |requests|, r)| + index
    }

    lemma EntryAt(i: nat, r: nat, index: nat)
      requires Valid() && index < channelsSize && At(i, r, index) && r < top
      ensures i < |buf| && (buf[i] == Nil <==> r == |heard[index]|)
      ensures buf[i] != Nil ==> At(i + channelsSize, r + 1, index)
    {
      EntryOf(heard, |requests|, r, top, index);
      NextRow(heard, |requests|, r);
    }

    /** serialProcessWrapper: the data goes to the first nil entry of its column, in a new row if need be. */
    method SerialProcessWrapper(index: nat, data: Bytes)
      requires Valid() && index < channelsSize
      modifies this
      ensures Valid() && Values() == Received(old(Values()), index, data)
    {
      var i: nat := index;
      ghost var r: nat := |requests|;
      while true
        invariant Valid() && Values() == old(Values()) && At(i, r, index)
        decreases |heard[index]| - r
      {
        if i >= |buf| {
          AddRow(i, r, index);
        }
        EntryAt(i, r, index);
        if buf[i] == Nil {
          Store(i, index, data);
          return;
        }
        i := i + channelsSize;
        r := r + 1;
      }
    }

    /** Storing the data in the first nil entry of its column. */
    method Store(i: nat, index: nat, data: Bytes)
      requires Valid() && index < channelsSize && |heard[index]| < top && At(i, |heard[index]|, index)
      modifies this`buf, this`heard
      ensures Valid() && Values() == Received(old(Values()), index, data)
    {
      PutStores(heard, index, data, |requests|, top, i);
      buf := buf[i := Data(data)];
      heard := Put(heard, index, data);
    }

    /** Appending a row of nil entries, when the search has run past the buffer. */
    method AddRow(i: nat, ghost r: nat, ghost index: nat)
      requires Valid() && index < channelsSize && At(i, r, index) && i >= |buf|
      modifies this`buf, this`top
      ensures Valid() && r < top && At(i, r, index)
    {
      if r < top {
        EntryAt(i, r, index);
      }
      RowsSplit(heard, |requests|, top, top + 1);
      assert Rows(heard, top, top + 1) == Row(heard, top) == seq(channelsSize, _ => Nil);
      buf := buf + seq(channelsSize, _ => Nil);
      top := top + 1;
    }

    /** The front of the buffer has no nil entry exactly when a row can be fired. */
    lemma ReadyIffFull()
      requires Valid()
      ensures channelsSize <= |buf|
      ensures RowReady(Values()) <==> forall i :: 0 <= i < channelsSize ==> buf[i] != Nil
    {
      var row := Row(heard, |requests|);
      RowsSplit(heard, |requests|, |requests| + 1, top);
      assert Rows(heard, |requests|, |requests| + 1) == row;
      assert forall i :: 0 <= i < channelsSize ==> buf[i] == row[i];
    }

    /** The firing loop of assignmentTask: afterwards fs has been called with the zip of the columns. */
    method Fire()
      requires Valid()
      modifies this
      ensures Valid() && heard == old(heard) && requests == Zip(heard)
    {
      var count := 0;
      while buf[count] != Nil
        invariant Valid() && heard == old(heard) && count < channelsSize <= |buf|
        invariant forall i :: 0 <= i < count ==> |requests| < |heard[i]|
        decreases |heard[0]| - |requests|, channelsSize - count
      {
        assert buf[count] == Row(heard, |requests|)[count];
        count := count + 1;
        if count == channelsSize {
          TakeRow();
          count := 0;
        }
      }
      assert buf[count] == Row(heard, |requests|)[count];
      assert |requests| == Shortest(heard);
    }

    /** One call of fs with the first row of the buffer, which is then cut off. */
    method TakeRow()
      requires Valid() && RowReady(Values())
      modifies this
      ensures Valid() && Values() == Fired(old(Values()))
    {
      assert buf[..channelsSize] == Row(heard, |requests|);
      requests := requests + [buf[..channelsSize]];
      buf := buf[channelsSize..];
      assert buf == Rows(heard, |requests|, top);
      if |buf| == 0 {
        buf := seq(channelsSize, _ => Nil);
        top := |requests| + 1;
        assert Rows(heard, |requests|, top) == Row(heard, |requests|);
      }
    }
  }

  // ---------- the serial ----------

  /** What is registered for a channel: a function of its own, or column `index` of a bag. */
  datatype Handler = Plain | Column(bag: nat, index: nat)

  /** A handler call: the frame's type, data and extend. */
  datatype Call = Call(channel: nat, data: Bytes, extend: Bytes)

  /** A frame whose extend part lies within it. */
  ghost predicate Decodes(frame: Bytes) {
    |frame| >= HEAD && HEAD <= DecodeByBytes(frame).splitLength
  }

  function CallOf(frame: Bytes): Call
    requires Decodes(frame)
  {
    var f := DecodeByBytes(frame);
    Call(f.GetFrameType(), f.GetData(), f.GetExtend())
  }

  function CallsOf(frames: seq<Bytes>): seq<Call>
    requires forall i :: 0 <= i < |frames| ==> Decodes(frames[i])
  {
    if frames == [] then [] else [CallOf(frames[0])] + CallsOf(frames[1..])
  }

  // ---------- frames that were encoded ----------

  /** The frame of a message to a channel. */
  function EncodeCall(c: Call): Bytes {
    EncodeFrame(c.channel, c.data, c.extend)
  }

  function EncodeCalls(calls: seq<Call>): (frames: seq<Bytes>)
    ensures |frames| == |calls| && forall i :: 0 <= i < |calls| ==> frames[i] == EncodeCall(calls[i])
  {
    seq(|calls|, i requires 0 <= i < |calls| => EncodeCall(calls[i]))
  }

  /** Types and lengths of extend parts that fit their fields. */
  predicate Encodable(calls: seq<Call>) {
    forall i :: 0 <= i < |calls| ==> calls[i].channel < TWO16 && |calls[i].extend| < TWO16
  }

  /** The handler of an encoded message gets its own type, data and extend. */
  lemma CallOfEncoded(c: Call)
    requires c.channel < TWO16 && |c.extend| < TWO16
    ensures Decodes(EncodeCall(c)) && CallOf(EncodeCall(c)) == c
  {
    FrameRoundTrip(c.channel, c.data, c.extend);
  }

  lemma {:induction false} CallsOfEncoded(calls: seq<Call>)
    requires Encodable(calls)
    ensures forall i :: 0 <= i < |calls| ==> Decodes(EncodeCalls(calls)[i])
    ensures CallsOf(EncodeCalls(calls)) == calls
    decreases |calls|
  {
    if calls != [] {
      CallOfEncoded(calls[0]);
      CallsOfEncoded(calls[1..]);
      assert EncodeCalls(calls)[1..] == EncodeCalls(calls[1..]);
    }
  }

  /** The messages of one channel, in order. */
  function Messages(calls: seq<Call>, channel: nat): seq<Bytes> {
    if calls == [] then []
    else
      var last := calls[|calls| - 1];
      Messages(calls[..|calls| - 1], channel) + if last.channel == channel then [last.data] else []
  }

  /** Column i of bag j is the handler of its channel, that is, no later subscription took it over. */
  ghost predicate Owns(handler: map<nat, Handler>, channels: seq<nat>, j: nat, i: nat)
    requires i < |channels|
  {
    channels[i] in handler && handler[channels[i]] == Column(j, i)
  }

  /** What column i of bag j gets to see of the calls. */
  function Heard(calls: seq<Call>, handler: map<nat, Handler>, channels: seq<nat>, j: nat, i: nat): seq<Bytes>
    requires i < |channels|
  {
    if channels[i] in handler && handler[channels[i]] == Column(j, i) then Messages(calls, channels[i]) else []
  }

  function Streams(calls: seq<Call>, handler: map<nat, Handler>, channels: seq<nat>, j: nat): (s: seq<seq<Bytes>>)
    ensures |s| == |channels| && forall i :: 0 <= i < |s| ==> s[i] == Heard(calls, handler, channels, j, i)
  {
    seq(|channels|, i requires 0 <= i < |channels| => Heard(calls, handler, channels, j, i))
  }

  /** The index a channel's last subscription in the list has. */
  function LastIndex(channels: seq<nat>, channel: nat): (i: nat)
    requires channel in channels
    ensures i < |channels| && channels[i] == channel
    ensures forall k :: i < k < |channels| ==> channels[k] != channel
  {
    if channels[|channels| - 1] == channel then |channels| - 1
    else
      assert channels == channels[..|channels| - 1] + [channels[|channels| - 1]];
      LastIndex(channels[..|channels| - 1], channel)
  }

  /** The table after registering a list of channels for bag j, one after the other. */
  function Registered(handler: map<nat, Handler>, channels: seq<nat>, j: nat): map<nat, Handler> {
    if channels == [] then handler
    else
      var n := |channels| - 1;
      Registered(handler, channels[..n], j)[channels[n] := Column(j, n)]
  }

  /** A channel ends up with the column of its last occurrence in the list; the others keep what they had. */
  lemma {:induction false} RegisteredAt(handler: map<nat, Handler>, channels: seq<nat>, j: nat)
    ensures var h := Registered(handler, channels, j);
            && h.Keys == handler.Keys + (set c | c in channels)
            && forall c :: c in h ==> h[c] == if c in channels then Column(j, LastIndex(channels, c)) else handler[c]
  {
    if channels != [] {
      var n := |channels| - 1;
      RegisteredAt(handler, channels[..n], j);
      assert channels == channels[..n] + [channels[n]];
    }
  }

  /** So a bag owns all of its columns exactly if its channels are distinct. */
  lemma RegisteredOwns(handler: map<nat, Handler>, channels: seq<nat>, j: nat)
    ensures (forall i :: 0 <= i < |channels| ==> Owns(Registered(handler, channels, j), channels, j, i)) <==>
            (forall i, k :: 0 <= i < k < |channels| ==> channels[i] != channels[k])
  {
    RegisteredAt(handler, channels, j);
    var h := Registered(handler, channels, j);
    forall i | 0 <= i < |channels|
      ensures Owns(h, channels, j, i) <==> forall k :: i < k < |channels| ==> channels[k] != channels[i]
    {
      assert channels[i] in h && h[channels[i]] == Column(j, LastIndex(channels, channels[i]));
    }
    forall i, k | 0 <= i < k < |channels| && channels[i] == channels[k]
      ensures !Owns(h, channels, j, i)
    {
    }
  }

  /** A bag whose columns are all registered zips the streams of its channels. */
  lemma OwnedBagZips(calls: seq<Call>, handler: map<nat, Handler>, channels: seq<nat>, j: nat)
    requires channels != [] && forall i :: 0 <= i < |channels| ==> Owns(handler, channels, j, i)
    ensures forall k, i :: 0 <= k < |Zip(Streams(calls, handler, channels, j))| && 0 <= i < |channels| ==>
              && k < |Messages(calls, channels[i])|
              && Zip(Streams(calls, handler, channels, j))[k][i] == Data(Messages(calls, channels[i])[k])
    ensures forall i :: 0 <= i < |channels| ==>
              |Zip(Streams(calls, handler, channels, j))| <= |Messages(calls, channels[i])|
    ensures exists i :: 0 <= i < |channels| &&
              |Zip(Streams(calls, handler, channels, j))| == |Messages(calls, channels[i])|
  {
    var s := Streams(calls, handler, channels, j);
    forall i | 0 <= i < |channels|
      ensures s[i] == Messages(calls, channels[i])
    {
      assert Owns(handler, channels, j, i);
    }
    var i :| 0 <= i < |s| && Shortest(s) == |s[i]|;
    assert |Zip(s)| == |Messages(calls, channels[i])|;
  }

  /** A bag that lost a channel, to a later subscription or to a repetition in its own list, never fires. */
  lemma RobbedBagIsSilent(calls: seq<Call>, handler: map<nat, Handler>, channels: seq<nat>, j: nat, i: nat)
    requires i < |channels| && !Owns(handler, channels, j, i)
    ensures Zip(Streams(calls, handler, channels, j)) == []
  {
    var s := Streams(calls, handler, channels, j);
    assert s[i] == [] && |Zip(s)| == Shortest(s) <= |s[i]|;
  }

  /** Another call is one more message in the column registered for its channel, and in no other. */
  lemma StreamsStep(calls: seq<Call>, c: Call, handler: map<nat, Handler>, channels: seq<nat>, j: nat)
    requires c.channel in handler
    requires forall d :: d in handler && handler[d].Column? && handler[d].bag == j ==>
               handler[d].index < |channels| && channels[handler[d].index] == d
    ensures Streams(calls + [c], handler, channels, j) ==
              match handler[c.channel]
              case Plain => Streams(calls, handler, channels, j)
              case Column(b, i) =>
                if b == j then Put(Streams(calls, handler, channels, j), i, c.data)
                else Streams(calls, handler, channels, j)
  {
    assert (calls + [c])[..|calls|] == calls;
    var s, t := Streams(calls, handler, channels, j), Streams(calls + [c], handler, channels, j);
    forall i | 0 <= i < |channels|
      ensures t[i] == if handler[c.channel] == Column(j, i) then s[i] + [c.data] else s[i]
    {
    }
    if handler[c.channel].Column? && handler[c.channel].bag == j {
      assert t == Put(s, handler[c.channel].index, c.data);
    } else {
      assert t == s;
    }
  }

  const DEFAULT_RING: nat := 2097152 // 2^21

  lemma DefaultFits()
    ensures DEFAULT_RING <= Pow2(63)
  {
    Pow2Of64();
  }

  /** The size of the ring, 2^21 if none is given. */
  function RingSize(ringBufferSize: nat): nat {
    if ringBufferSize == 0 then DEFAULT_RING else ringBufferSize
  }

  /** A paused ring of at least the given size. */
  method NewRing(ringBufferSize: nat) returns (ring: RingBuffer)
    requires ringBufferSize <= Pow2(63)
    ensures fresh(ring) && ring.Valid() && ring.Queue() == [] && ring.state == Pause
    ensures LeastPow2NotBelow(RingSize(ringBufferSize), ring.ringBufferSize)
    ensures fresh(ring.ring) && fresh(ring.submitRing)
  {
    DefaultFits();
    FitsRegister(RingSize(ringBufferSize));
    ring := new RingBuffer.InitRingBuffer(RingSize(ringBufferSize));
    ring.SetState(Pause);
  }

  class Serial {
    const ring: RingBuffer
    var bags: seq<Bag>
    var handler: map<nat, Handler> // by frame type
    var calls: seq<Call> // the handler calls so far

    ghost predicate Separate()
      reads this
    {
      forall j, k :: 0 <= j < k < |bags| ==> bags[j] != bags[k]
    }

    /** Column entries of the table belong to the bag they name. */
    ghost predicate TableOk()
      reads this, bags
    {
      forall c :: c in handler && handler[c].Column? ==>
        && handler[c].bag < |bags| && handler[c].index < |bags[handler[c].bag].channels|
        && bags[handler[c].bag].channels[handler[c].index] == c
    }

    ghost predicate BagOk(j: nat)
      requires j < |bags|
      reads this, bags
    {
      bags[j].Valid() && bags[j].heard == Streams(calls, handler, bags[j].channels, j)
    }

    /** The bags received what their channels are registered for. */
    ghost predicate BagsOk()
      reads this, bags
    {
      Separate() && TableOk() && forall j :: 0 <= j < |bags| ==> BagOk(j)
    }

    ghost predicate QueueOk()
      reads this, ring
    {
      forall f :: f in ring.Queue() ==> Decodes(f) && CallOf(f).channel in handler
    }

    ghost predicate Valid()
      reads this, bags, ring, ring.ring, ring.submitRing
    {
      ring.Valid() && QueueOk() && BagsOk()
    }

    /** The calls the queued frames will make. */
    ghost function Pending(): seq<Call>
      requires QueueOk()
      reads this, ring
    {
      CallsOf(ring.Queue())
    }

    ghost function Requests(): seq<seq<seq<Entry>>>
      reads this, bags
    {
      seq(|bags|, j requires 0 <= j < |bags| reads this, bags => bags[j].requests)
    }

    /** Bag j has been called with the zip of its columns. */
    ghost predicate Fired(j: nat)
      requires j < |bags|
      reads this, bags
    {
      bags[j].channels != [] && bags[j].requests == Zip(Streams(calls, handler, bags[j].channels, j))
    }

    constructor Init(ringBufferSize: nat)
      requires ringBufferSize <= Pow2(63)
      ensures Valid() && bags == [] && handler == map[] && calls == [] && ring.Queue() == []
      ensures ring.state == Pause && fresh(ring) && fresh(ring.ring) && fresh(ring.submitRing)
      ensures LeastPow2NotBelow(RingSize(ringBufferSize), ring.ringBufferSize)
    {
      var r := NewRing(ringBufferSize);
      ring := r;
      bags := [];
      handler := map[];
      calls := [];
    }

    /** One handler call. */
    method Handle(c: Call)
      requires BagsOk() && c.channel in handler
      modifies this`calls, bags
      ensures BagsOk() && calls == old(calls) + [c]
      ensures Requests() == old(Requests())
    {
      var h := handler[c.channel];
      ghost var before := calls;
      if h.Column? {
        assert BagOk(h.bag);
        bags[h.bag].SerialProcessWrapper(h.index, c.data);
      }
      calls := calls + [c];
      forall j | 0 <= j < |bags|
        ensures BagOk(j)
      {
        assert old(BagOk(j));
        StreamsStep(before, c, handler, bags[j].channels, j);
      }
    }

    /** serialProcessWrapper: while the serial works, a received frame goes into the ring. */
    method SerialProcessWrapper(frame: Bytes) returns (err: WriteError)
      requires Valid() && Decodes(frame) && CallOf(frame).channel in handler
      requires LengthPrefixed(frame) && ring.askCursor + |frame| <= CURSOR_LIMIT
      modifies ring`askCursor, ring`claims, ring.ring, ring.submitRing
      ensures Valid()
      ensures ring.state == Work && err == NoError ==> ring.Queue() == old(ring.Queue()) + [frame]
      ensures ring.state != Work ==> err == NoError
      ensures err == NoError || err == ErrRingBufferOverflow
      ensures err == ErrRingBufferOverflow <==>
                ring.state == Work && RingTheorems.TotalLength(old(ring.claims)) + |frame| >= ring.ringBufferSize
      ensures ring.state != Work || err != NoError ==> ring.Queue() == old(ring.Queue())
    {
      err := NoError;
      if ring.state == Work {
        err := ring.WriteToRingBuffer(frame);
      }
    }

    /** What a read of the ring returns. */
    ghost predicate IsOldest(data: Bytes, available: nat)
      reads ring
    {
      if ring.Queue() == [] then available == 0
      else data == ring.Queue()[0] && available == ring.availableCursor + |data| > 0
    }

    /** The first loop of assignmentTask: every queued frame is handled, in order, and then released. */
    method Drain()
      requires Valid()
      modifies this`calls, bags, ring`availableCursor, ring`claims, ring.submitRing
      ensures Valid() && ring.Queue() == [] && calls == old(calls) + old(Pending())
      ensures Requests() == old(Requests())
      ensures forall cs :: Encodable(cs) && old(ring.Queue()) == EncodeCalls(cs) ==> calls == old(calls) + cs
    {
      PendingEncoded();
      ghost var all, before := calls + Pending(), Requests();
      var data, available := Oldest();
      while available != 0
        invariant Valid()
        invariant IsOldest(data, available)
        invariant calls + Pending() == all
        invariant Requests() == before
        decreases |ring.Queue()|
      {
        data, available := HandleOldest(data, available);
      }
    }

    /** Encoded messages will be handled as they were. */
    lemma PendingEncoded()
      requires QueueOk()
      ensures forall cs :: Encodable(cs) && ring.Queue() == EncodeCalls(cs) ==> Pending() == cs
    {
      forall cs | Encodable(cs) && ring.Queue() == EncodeCalls(cs)
        ensures Pending() == cs
      {
        CallsOfEncoded(cs);
      }
    }

    method Oldest() returns (data: Bytes, available: nat)
      requires ring.Valid()
      ensures IsOldest(data, available)
    {
      data, available := ring.ReadFromRingBuffer();
    }

    /** One round of the loop. */
    method HandleOldest(data: Bytes, available: nat) returns (next: Bytes, nextAvailable: nat)
      requires Valid() && available != 0 && IsOldest(data, available)
      modifies this`calls, bags, ring`availableCursor, ring`claims, ring.submitRing
      ensures Valid() && |ring.Queue()| < old(|ring.Queue()|) && IsOldest(next, nextAvailable)
      ensures calls + Pending() == old(calls + Pending())
      ensures Requests() == old(Requests())
    {
      HandleAndRelease(data, available);
      next, nextAvailable := Oldest();
    }

    method HandleAndRelease(data: Bytes, available: nat)
      requires Valid() && available != 0 && IsOldest(data, available)
      modifies this`calls, bags, ring`availableCursor, ring`claims, ring.submitRing
      ensures Valid() && |ring.Queue()| < old(|ring.Queue()|)
      ensures calls + Pending() == old(calls + Pending())
      ensures Requests() == old(Requests())
    {
      assert data in ring.Queue();
      Handle(CallOf(data));
      Release(available);
      Regroup(old(calls), [CallOf(data)], Pending());
    }

    method Release(available: nat)
      requires ring.Valid() && QueueOk() && ring.Queue() != []
      requires available == ring.availableCursor + |ring.Queue()[0]|
      modifies ring`availableCursor, ring`claims, ring.submitRing
      ensures ring.Valid() && QueueOk() && ring.Queue() == old(ring.Queue())[1..]
      ensures [CallOf(old(ring.Queue())[0])] + Pending() == old(Pending())
    {
      assert old(ring.Queue())[0] in old(ring.Queue());
      ring.SetAvailableCursor(available);
    }

    /** The second loop of assignmentTask. */
    method FireBags()
      requires BagsOk()
      modifies bags
      ensures BagsOk() && forall j :: 0 <= j < |bags| ==> Fired(j)
    {
      for i := 0 to |bags|
        invariant BagsOk()
        invariant forall j :: 0 <= j < i ==> Fired(j)
      {
        FireBag(i);
      }
    }

    method FireBag(i: nat)
      requires BagsOk() && i < |bags|
      modifies bags[i]
      ensures BagsOk() && Fired(i)
      ensures forall j :: 0 <= j < i && old(Fired(j)) ==> Fired(j)
    {
      assert BagOk(i);
      bags[i].Fire();
      assert forall j :: 0 <= j < |bags| && j != i ==> old(BagOk(j)) && bags[j] != bags[i];
    }

    /**
     One run of assignmentTask: the queued frames are handled in order, and every bag has been called
     with the zip of the messages its columns got since the serial began.
     */
    method AssignmentTask()
      requires Valid()
      modifies this`calls, bags, ring`availableCursor, ring`claims, ring.submitRing
      ensures Valid() && ring.Queue() == [] && calls == old(calls) + old(Pending())
      ensures forall cs :: Encodable(cs) && old(ring.Queue()) == EncodeCalls(cs) ==> calls == old(calls) + cs
      ensures forall j :: 0 <= j < |bags| ==> Fired(j)
    {
      Drain();
      FireBags();
    }

    /** Before any call the table does not matter to the bags. */
    lemma NothingHeard(before: map<nat, Handler>)
      requires calls == []
      requires forall j :: 0 <= j < |bags| ==>
                 bags[j].Valid() && bags[j].heard == Streams(calls, before, bags[j].channels, j)
      ensures forall j :: 0 <= j < |bags| ==> BagOk(j)
    {
      forall j | 0 <= j < |bags|
        ensures BagOk(j)
      {
        assert Streams(calls, before, bags[j].channels, j) == Streams(calls, handler, bags[j].channels, j);
      }
    }

    /** Before the serial runs: a channel gets a handler of its own, replacing what it had. */
    method Subscribe(channel: nat)
      requires Valid() && ring.state != Work && calls == []
      modifies this`handler
      ensures Valid() && handler == old(handler)[channel := Plain]
    {
      handler := handler[channel := Plain];
      forall j | 0 <= j < |bags|
        ensures bags[j].Valid() && bags[j].heard == Streams(calls, old(handler), bags[j].channels, j)
      {
        assert old(BagOk(j));
      }
      NothingHeard(old(handler));
    }

    /** Before the serial runs: a new bag, registered for all of its channels. */
    method SubscribeAll(channels: seq<nat>)
      requires Valid() && ring.state != Work && calls == [] && channels != []
      modifies this`handler, this`bags
      ensures Valid() && |bags| == |old(bags)| + 1 && bags[..|old(bags)|] == old(bags)
      ensures bags[|old(bags)|].channels == channels
      ensures handler == Registered(old(handler), channels, |old(bags)|)
    {
      ghost var j := |bags|;
      AddBag(channels);
      label Added:
      Register(channels, j);
      RegisteredAt(old(handler), channels, j);
      forall k | 0 <= k < |bags|
        ensures bags[k].Valid() && bags[k].heard == Streams(calls, old(handler), bags[k].channels, k)
      {
        assert old@Added(BagOk(k));
      }
      NothingHeard(old(handler));
    }

    method AddBag(channels: seq<nat>)
      requires BagsOk() && calls == [] && channels != []
      modifies this`bags
      ensures BagsOk() && |bags| == |old(bags)| + 1 && bags[..|old(bags)|] == old(bags)
      ensures bags[|old(bags)|].channels == channels
    {
      var b := new Bag(channels);
      bags := bags + [b];
      forall k | 0 <= k < |bags|
        ensures BagOk(k)
      {
        if k < |bags| - 1 {
          assert old(BagOk(k));
        } else {
          assert b.heard == Streams(calls, handler, channels, k);
        }
      }
    }

    /** The loop of SubscribeAll over the channels and their indices. */
    method Register(channels: seq<nat>, ghost j: nat)
      requires |bags| == j + 1
      modifies this`handler
      ensures handler == Registered(old(handler), channels, j)
    {
      for i := 0 to |channels|
        invariant handler == Registered(old(handler), channels[..i], j)
      {
        handler := handler[channels[i] := Column(|bags| - 1, i)];
        assert channels[..i + 1][..i] == channels[..i];
      }
      assert channels[..|channels|] == channels;
    }
  }
}
