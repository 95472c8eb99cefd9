/** sidecar/cluster.go: the channel table, the buckets in it and the requests sent through them. */
module Clusters {
  import opened Bits
  import opened Conver
  import opened Lists
  import opened Rotation

  // ---------- the table as a list of events ----------

  /** What happens to the key of channel `channel` and machine `id`. */
  datatype Event = Put(channel: nat, id: nat) | Delete(channel: nat, id: nat)

  /** The list without the first occurrence of x. */
  function RemoveFirst(s: seq<nat>, x: nat): seq<nat> {
    if s == [] then []
    else if s[0] == x then s[1..]
    else [s[0]] + RemoveFirst(s[1..], x)
  }

  /** A channel's machines after the events: a put appends, a delete removes the first occurrence. */
  function Members(events: seq<Event>, channel: nat): seq<nat> {
    if events == [] then []
    else
      var k := |events| - 1;
      var before := Members(events[..k], channel);
      if events[k].channel != channel then before
      else if events[k].Put? then before + [events[k].id]
      else RemoveFirst(before, events[k].id)
  }

  /** The last event of the key was a put. */
  function Alive(events: seq<Event>, channel: nat, id: nat): bool {
    events != [] &&
    var k := |events| - 1;
    if events[k].channel == channel && events[k].id == id then events[k].Put?
    else Alive(events[..k], channel, id)
  }

  /** No key is put while it is alive. */
  ghost predicate FreshPuts(events: seq<Event>) {
    forall k :: 0 <= k < |events| && events[k].Put? ==> !Alive(events[..k], events[k].channel, events[k].id)
  }

  lemma {:induction false} RemoveFirstMember(s: seq<nat>, x: nat, y: nat)
    ensures y in RemoveFirst(s, x) ==> y in s
    ensures y != x && y in s ==> y in RemoveFirst(s, x)
    ensures |RemoveFirst(s, x)| == if x in s then |s| - 1 else |s|
    ensures multiset(RemoveFirst(s, x)) == multiset(s) - multiset{x}
    decreases |s|
  {
    if s != [] {
      assert s == [s[0]] + s[1..];
      RemoveFirstMember(s[1..], x, y);
      if s[0] != x {
        assert multiset(s) == multiset{s[0]} + multiset(s[1..]);
        assert multiset(RemoveFirst(s, x)) == multiset{s[0]} + multiset(RemoveFirst(s[1..], x));
      }
    }
  }

  lemma {:induction false} RemoveFirstDistinct(s: seq<nat>, x: nat)
    requires Distinct(s)
    ensures Distinct(RemoveFirst(s, x)) && x !in RemoveFirst(s, x)
    decreases |s|
  {
    if s != [] && s[0] != x {
      RemoveFirstDistinct(s[1..], x);
      RemoveFirstMember(s[1..], x, s[0]);
      assert forall i :: 1 <= i < |s| ==> s[i] == s[1..][i - 1];
    }
  }

  /** Without a put of a live key, a channel's machines are distinct and exactly the live ones. */
  lemma {:induction false} MembersAreAlive(events: seq<Event>, channel: nat)
    requires FreshPuts(events)
    ensures Distinct(Members(events, channel))
    ensures forall id :: id in Members(events, channel) <==> Alive(events, channel, id)
    decreases |events|
  {
    if events != [] {
      var k := |events| - 1;
      var e := events[k];
      FreshBefore(events, k);
      MembersAreAlive(events[..k], channel);
      if e.channel == channel && e.Delete? {
        var before := Members(events[..k], channel);
        RemoveFirstDistinct(before, e.id);
        forall id
          ensures id in RemoveFirst(before, e.id) <==> id != e.id && id in before
        {
          RemoveFirstMember(before, e.id, id);
        }
      }
    }
  }

  lemma FreshBefore(events: seq<Event>, k: nat)
    requires FreshPuts(events) && k <= |events|
    ensures FreshPuts(events[..k])
  {
    forall j | 0 <= j < k && events[..k][j].Put?
      ensures !Alive(events[..k][..j], events[j].channel, events[j].id)
    {
      assert events[..k][..j] == events[..j];
    }
  }

  /**
   Members stay distinct at all times exactly if no key is ever put while it is alive: a second put, which
   the watch delivers just like a first one, enters the machine twice.
   */
  lemma {:induction false} DistinctIffFresh(events: seq<Event>)
    ensures (forall n, channel :: 0 <= n <= |events| ==> Distinct(Members(events[..n], channel))) <==> FreshPuts(events)
    decreases |events|
  {
    if FreshPuts(events) {
      forall n, channel | 0 <= n <= |events|
        ensures Distinct(Members(events[..n], channel))
      {
        FreshBefore(events, n);
        MembersAreAlive(events[..n], channel);
      }
    } else if events != [] {
      var k := |events| - 1;
      var e := events[k];
      DistinctIffFresh(events[..k]);
      if FreshPuts(events[..k]) {
        assert e.Put? && Alive(events[..k], e.channel, e.id) by {
          StaleLast(events);
        }
        MembersAreAlive(events[..k], e.channel);
        var before := Members(events[..k], e.channel);
        var i :| 0 <= i < |before| && before[i] == e.id;
        assert events[..|events|] == events;
        var after := Members(events, e.channel);
        assert after == before + [e.id] && after[i] == after[|before|];
        assert !Distinct(Members(events[..|events|], e.channel));
      } else {
        var n, channel :| 0 <= n <= k && !Distinct(Members(events[..k][..n], channel));
        assert events[..k][..n] == events[..n] && !Distinct(Members(events[..n], channel));
      }
    }
  }

  lemma StaleLast(events: seq<Event>)
    requires events != [] && !FreshPuts(events) && FreshPuts(events[..|events| - 1])
    ensures var k := |events| - 1;
            events[k].Put? && Alive(events[..k], events[k].channel, events[k].id)
  {
    var k := |events| - 1;
    forall j | 0 <= j < k && events[j].Put?
      ensures !Alive(events[..j], events[j].channel, events[j].id)
    {
      assert events[..k][..j] == events[..j] && events[..k][j] == events[j];
    }
  }

  /** A machine put twice gets two places in the rotation, and one of them survives its delete. */
  lemma PutTwice()
    ensures Members([Put(1, 7), Put(1, 7)], 1) == [7, 7]
    ensures Members([Put(1, 7), Put(1, 7), Delete(1, 7)], 1) == [7]
    ensures !Alive([Put(1, 7), Put(1, 7), Delete(1, 7)], 1, 7)
  {
    var one, two := [Put(1, 7)], [Put(1, 7), Put(1, 7)];
    var three := two + [Delete(1, 7)];
    assert one[..0] == [] && two[..1] == one && three[..2] == two;
    assert Members(one, 1) == [7];
    assert Members(two, 1) == [7, 7];
    assert RemoveFirst([7, 7], 7) == [7];
    assert three == [Put(1, 7), Put(1, 7), Delete(1, 7)];
  }

  lemma {:induction false} MembersFit(events: seq<Event>, channel: nat)
    ensures |Members(events, channel)| <= |events|
    decreases |events|
  {
    if events != [] {
      var k := |events| - 1;
      MembersFit(events[..k], channel);
      RemoveFirstMember(Members(events[..k], channel), events[k].id, 0);
    }
  }

  lemma AppendEvent(events: seq<Event>, e: Event)
    ensures Members(events + [e], e.channel) ==
              if e.Put? then Members(events, e.channel) + [e.id] else RemoveFirst(Members(events, e.channel), e.id)
    ensures forall c :: c != e.channel ==> Members(events + [e], c) == Members(events, c)
  {
    assert (events + [e])[..|events|] == events;
  }

  // ---------- keys and values ----------

  const CHANNEL_PREFIX: Bytes := [99, 104, 97, 110, 110, 101, 108, 47] // "channel/"

  function ChannelValue(id: nat, channel: nat): Bytes {
    Uint16Bytes(id) + Uint16Bytes(channel)
  }

  function ChannelKey(id: nat, channel: nat): Bytes {
    CHANNEL_PREFIX + Uint16Bytes(channel) + [47] + Uint16Bytes(id)
  }

  /** valueTOChannelMsg, which a put delivers */
  function ValueToChannelMsg(b: Bytes): Event
    requires |b| >= 4
  {
    Put(BytesToUint16(b[2..4]), BytesToUint16(b[..2]))
  }

  /** keyTOChannelMsg, which a delete delivers */
  function KeyToChannelMsg(b: Bytes): Event
    requires |b| >= 5
  {
    var l := |b|;
    Delete(BytesToUint16(b[l - 5..l - 3]), BytesToUint16(b[l - 2..l]))
  }

  /** Putting and deleting what SetChannel writes reaches the watchers as events of the same key. */
  lemma EventsMatch(id: nat, channel: nat)
    requires id < TWO16 && channel < TWO16
    ensures ValueToChannelMsg(ChannelValue(id, channel)) == Put(channel, id)
    ensures KeyToChannelMsg(ChannelKey(id, channel)) == Delete(channel, id)
  {
    Uint16RoundTrip(id);
    Uint16RoundTrip(channel);
    var v, k := ChannelValue(id, channel), ChannelKey(id, channel);
    assert v[..2] == Uint16Bytes(id) && v[2..4] == Uint16Bytes(channel);
    assert k[|k| - 5..|k| - 3] == Uint16Bytes(channel) && k[|k| - 2..|k|] == Uint16Bytes(id);
  }

  /** The byte positions of a value and of a key: machine id and channel, and channel and machine id at the end. */
  lemma KeyLayout(id: nat, channel: nat)
    requires id < TWO16 && channel < TWO16
    ensures var v := ChannelValue(id, channel);
            |v| == 4 && v[0] as int + 0x100 * v[1] as int == id && v[2] as int + 0x100 * v[3] as int == channel
    ensures var k := ChannelKey(id, channel);
            && |k| == 13 && k[..8] == CHANNEL_PREFIX && k[10] == 47
            && k[8] as int + 0x100 * k[9] as int == channel && k[11] as int + 0x100 * k[12] as int == id
  {
  }

  // ---------- buckets ----------

  class Bucket {
    var cursorAndLenght: nat
    var sets: seq<nat>

    ghost predicate Valid()
      reads this
    {
      && |sets| < TWO32 && cursorAndLenght < TWO64
      && LengthOf(cursorAndLenght) == |sets|
      && (sets != [] ==> CursorOf(cursorAndLenght) < |sets|)
    }

    constructor NewBucket()
      ensures sets == [] && cursorAndLenght == 0
    {
      cursorAndLenght := 0;
      sets := [];
    }

    method SetLength()
      requires |sets| < TWO32
      modifies this`cursorAndLenght
      ensures Valid() && cursorAndLenght == Pack(0, |sets|)
    {
      PackRoundTrip(0, |sets|);
      cursorAndLenght := Pack(0, |sets|);
    }

    method Add(base: seq<nat>, id: nat)
      requires sets == [] && |base| + 1 < TWO32
      modifies this
      ensures Valid() && sets == base + [id] && cursorAndLenght == Pack(0, |sets|)
    {
      sets := sets + base;
      sets := sets + [id];
      SetLength();
    }

    method Remove(base: seq<nat>, id: nat)
      requires sets == [] && |base| < TWO32
      modifies this
      ensures Valid() && sets == RemoveFirst(base, id) && cursorAndLenght == Pack(0, |sets|)
    {
      var l := |base|;
      sets := sets + base;
      var i := 0;
      while i < l
        invariant 0 <= i <= l && sets == base && id !in base[..i]
      {
        if base[i] == id {
          RemoveFirstAt(base, id, i);
          if i < l - 1 {
            sets := sets[..i] + sets[i + 1..] + sets[l - 1..];
          }
          sets := sets[..l - 1];
          break;
        }
        i := i + 1;
      }
      if i == l {
        RemoveFirstAbsent(base, id);
      }
      RemoveFirstMember(base, id, id);
      SetLength();
    }

    /** Run alone, next moves the cursor one place on, back to the front behind the last one. */
    method Next() returns (id: nat, lenght: nat)
      requires Valid() && sets != []
      modifies this`cursorAndLenght
      ensures Valid() && lenght == |sets|
      ensures CursorOf(cursorAndLenght) == NextIndex(old(CursorOf(cursorAndLenght)), |sets|)
      ensures id == sets[CursorOf(cursorAndLenght)]
    {
      NextWord(cursorAndLenght);
      cursorAndLenght := U64(cursorAndLenght + 1);
      var cursor, length := CursorOf(cursorAndLenght), LengthOf(cursorAndLenght);
      if cursor >= length {
        cursor := 0;
        PackRoundTrip(cursor, length);
        cursorAndLenght := Pack(cursor, length);
      }
      return sets[cursor], length;
    }
  }

  lemma {:induction false} RemoveFirstAt(s: seq<nat>, x: nat, i: nat)
    requires i < |s| && s[i] == x && x !in s[..i]
    ensures RemoveFirst(s, x) == s[..i] + s[i + 1..]
    decreases |s|
  {
    if i > 0 {
      assert s[0] in s[..i] && s[1..][..i - 1] == s[1..i];
      assert forall y :: y in s[1..i] ==> y in s[..i];
      RemoveFirstAt(s[1..], x, i - 1);
    }
  }

  lemma {:induction false} RemoveFirstAbsent(s: seq<nat>, x: nat)
    requires x !in s
    ensures RemoveFirst(s, x) == s
    decreases |s|
  {
    if s != [] {
      assert s == [s[0]] + s[1..];
      RemoveFirstAbsent(s[1..], x);
    }
  }

  // ---------- asking one ----------

  /** Round k of a caller that runs alone, counting from 0, meets a machine that accepts. */
  ghost predicate AcceptedInRound(sets: seq<nat>, cursor: nat, accepting: set<nat>, k: nat)
    requires sets != []
  {
    sets[SoloIndex(cursor, |sets|, k)] in accepting
  }

  /**
   Run alone, the loop of AskOne ends if and only if some member accepts, and then within one lap. Its own
   round counter starts anew in every round and never ends it.
   */
  lemma AskOneEndsIff(sets: seq<nat>, cursor: nat, accepting: set<nat>)
    requires cursor < |sets|
    ensures (exists k: nat :: AcceptedInRound(sets, cursor, accepting, k)) <==>
            (exists i :: 0 <= i < |sets| && sets[i] in accepting)
    ensures (exists k: nat :: AcceptedInRound(sets, cursor, accepting, k)) ==>
            exists k: nat :: k < |sets| && AcceptedInRound(sets, cursor, accepting, k)
  {
    if i :| 0 <= i < |sets| && sets[i] in accepting {
      var k := EachPositionOnce(cursor, |sets|, i);
      assert AcceptedInRound(sets, cursor, accepting, k);
    }
  }

  /** A connection: it takes frames or turns them away. */
  class Session {
    var accepts: bool
    var offered: seq<Bytes> // every write attempt
    var written: seq<Bytes>

    constructor (accepts: bool)
      ensures this.accepts == accepts && offered == written == []
    {
      this.accepts := accepts;
      offered := [];
      written := [];
    }

    method WriteFrameDataToCache(frame: Bytes) returns (ok: bool)
      modifies this`offered, this`written
      ensures ok == accepts && offered == old(offered) + [frame]
      ensures written == old(written) + if accepts then [frame] else []
    {
      ok := accepts;
      offered := offered + [frame];
      if ok {
        written := written + [frame];
      }
    }
  }

  /** The buckets hold the members that the events add up to, and no channel has an empty one. */
  ghost predicate Grouped(buckets: map<nat, Bucket>, events: seq<Event>)
    reads buckets.Values
  {
    && (forall c, d :: c in buckets && d in buckets && c != d ==> buckets[c] != buckets[d])
    && (forall c :: c in buckets <==> Members(events, c) != [])
    && forall c :: c in buckets ==> buckets[c].Valid() && buckets[c].sets == Members(events, c)
  }

  /** The table with a new bucket for the channel of an event. */
  lemma Published(buckets: map<nat, Bucket>, events: seq<Event>, e: Event, nb: Bucket)
    requires Grouped(buckets, events) && nb !in buckets.Values && nb.Valid() && nb.sets != []
    requires nb.sets == if e.Put? then Members(events, e.channel) + [e.id]
                        else RemoveFirst(Members(events, e.channel), e.id)
    ensures Grouped(buckets[e.channel := nb], events + [e])
  {
    AppendEvent(events, e);
  }

  /** The table without the channel of a delete that leaves it empty. */
  lemma Dropped(buckets: map<nat, Bucket>, events: seq<Event>, e: Event)
    requires Grouped(buckets, events) && e.Delete? && RemoveFirst(Members(events, e.channel), e.id) == []
    ensures Grouped(buckets - {e.channel}, events + [e])
  {
    AppendEvent(events, e);
  }

  /** Every rotation starts at the front. */
  ghost predicate AtFront(buckets: map<nat, Bucket>)
    reads buckets.Values
  {
    forall c :: c in buckets ==> buckets[c].cursorAndLenght == Pack(0, |buckets[c].sets|)
  }

  class Cluster {
    var sessions: map<nat, Session> // by machine id
    var channels: map<nat, Bucket> // absent channels are nil
    ghost var events: seq<Event>

    ghost predicate SessionsOk()
      reads this
    {
      forall i, j :: i in sessions && j in sessions && i != j ==> sessions[i] != sessions[j]
    }

    ghost predicate Valid()
      reads this, channels.Values
    {
      SessionsOk() && Grouped(channels, events)
    }

    constructor ()
      ensures Valid() && events == [] && sessions == map[] && channels == map[]
    {
      sessions := map[];
      channels := map[];
      events := [];
    }

    /** The other channels keep their buckets; this one's, if it has one, starts at the front. */
    ghost predicate OnlyChanged(before: map<nat, Bucket>, channel: nat)
      reads this, channels.Values
    {
      && (forall c :: c in channels && c != channel ==> c in before && channels[c] == before[c])
      && (forall c :: c in before && c != channel ==> c in channels)
      && (channel in channels ==> channels[channel].cursorAndLenght == Pack(0, |channels[channel].sets|))
    }

    /** The machines of a channel, none for a channel that is nil. */
    function Sets(channel: nat): seq<nat>
      reads this, channels.Values
    {
      if channel in channels then channels[channel].sets else []
    }

    /** The bucket that a put publishes. */
    method WithMachine(channel: nat, id: nat) returns (nb: Bucket)
      requires |Sets(channel)| + 1 < TWO32
      ensures fresh(nb) && nb.Valid() && nb.sets == Sets(channel) + [id]
      ensures nb.cursorAndLenght == Pack(0, |nb.sets|)
    {
      nb := new Bucket.NewBucket();
      if channel !in channels {
        nb.sets := nb.sets + [id];
        nb.SetLength();
      } else {
        nb.Add(channels[channel].sets, id);
      }
    }

    /** The bucket that a delete publishes, unless it is empty. */
    method WithoutMachine(base: seq<nat>, id: nat) returns (nb: Bucket)
      requires |base| < TWO32
      ensures fresh(nb) && nb.Valid() && nb.sets == RemoveFirst(base, id)
      ensures nb.cursorAndLenght == Pack(0, |nb.sets|)
    {
      nb := new Bucket.NewBucket();
      nb.Remove(base, id);
    }

    /** A put of the watched key. */
    method ChannelPut(channel: nat, id: nat)
      requires Valid() && |events| + 1 < TWO32
      modifies this`channels, this`events
      ensures Valid() && events == old(events) + [Put(channel, id)]
      ensures OnlyChanged(old(channels), channel)
    {
      MembersFit(events, channel);
      var nb := WithMachine(channel, id);
      Published(channels, events, Put(channel, id), nb);
      channels := channels[channel := nb];
      events := events + [Put(channel, id)];
    }

    /** A delete of the watched key. */
    method ChannelDelete(channel: nat, id: nat)
      requires Valid() && |events| < TWO32
      modifies this`channels, this`events
      ensures Valid() && events == old(events) + [Delete(channel, id)]
      ensures OnlyChanged(old(channels), channel)
    {
      MembersFit(events, channel);
      if channel in channels {
        Shrink(channel, id);
      } else {
        Dropped(channels, events, Delete(channel, id));
        assert channels - {channel} == channels;
      }
      events := events + [Delete(channel, id)];
    }

    method Shrink(channel: nat, id: nat)
      requires Valid() && channel in channels
      modifies this`channels
      ensures SessionsOk() && Grouped(channels, events + [Delete(channel, id)])
      ensures OnlyChanged(old(channels), channel)
    {
      var nb := WithoutMachine(channels[channel].sets, id);
      if nb.cursorAndLenght != 0 {
        Published(channels, events, Delete(channel, id), nb);
        channels := channels[channel := nb];
      } else {
        Dropped(channels, events, Delete(channel, id));
        channels := channels - {channel};
      }
    }

    predicate Accepts(id: nat)
      reads this, sessions.Values
    {
      id in sessions && sessions[id].accepts
    }

    /** Writing to a machine's session, if it has one. */
    method TryWrite(id: nat, frame: Bytes) returns (ok: bool)
      requires SessionsOk()
      modifies sessions.Values`offered, sessions.Values`written
      ensures ok == Accepts(id)
      ensures forall i :: i in sessions ==>
                sessions[i].offered == old(sessions[i].offered) + if i == id then [frame] else []
      ensures ok ==> id in sessions
      ensures Writings() == if ok then old(Writings())[id := old(Writings())[id] + [frame]] else old(Writings())
    {
      ok := false;
      ghost var was := Writings();
      if id in sessions {
        ok := sessions[id].WriteFrameDataToCache(frame);
        assert forall i :: i in was ==>
            Writings()[i] == if ok && i == id then was[i] + [frame] else was[i];
      }
      assert Writings().Keys == was.Keys;
    }

    /** What each machine's session has written. */
    ghost function Writings(): map<nat, seq<Bytes>>
      reads this, sessions.Values
    {
      map i | i in sessions :: sessions[i].written
    }

    /**
     One lap at most: the frame is written by the first accepting machine behind the cursor and by no other.
     Without an accepting machine the loop of the source does not end, so the caller needs one.
     */
    method AskOne(channel: nat, frame: Bytes) returns (found: bool, ghost rounds: nat)
      requires Valid()
      requires channel in channels ==>
                 exists i :: 0 <= i < |channels[channel].sets| && Accepts(channels[channel].sets[i])
      modifies channels.Values`cursorAndLenght, sessions.Values`offered, sessions.Values`written
      ensures channels == old(channels) && sessions == old(sessions)
      ensures Valid() && found == (channel in channels)
      ensures !found ==> Writings() == old(Writings())
      ensures found ==>
                var b := channels[channel];
                && b.sets != []
                && WroteOnce(b, old(CursorOf(channels[channel].cursorAndLenght)), frame, rounds, old(Writings()))
      ensures forall c :: c in channels && c != channel ==>
                channels[c].cursorAndLenght == old(channels[c].cursorAndLenght)
    {
      rounds := 0;
      found := channel in channels;
      if found {
        rounds := AskRounds(channels[channel], frame);
      }
    }

    /** The machine that round k asks. */
    ghost function Asked(b: Bucket, cursor: nat, k: nat): nat
      requires b.sets != []
      reads b`sets
    {
      b.sets[SoloIndex(cursor, |b.sets|, k)]
    }

    /** The machine of round `rounds` is the first one that accepts, and the only one that wrote the frame. */
    ghost predicate WroteOnce(b: Bucket, cursor: nat, frame: Bytes, rounds: nat, before: map<nat, seq<Bytes>>)
      requires b.sets != []
      reads this, b, sessions.Values
    {
      && rounds < |b.sets| && CursorOf(b.cursorAndLenght) == SoloIndex(cursor, |b.sets|, rounds)
      && Accepts(Asked(b, cursor, rounds))
      && (forall k: nat :: k < rounds ==> !Accepts(Asked(b, cursor, k)))
      && Asked(b, cursor, rounds) in before
      && Writings() == before[Asked(b, cursor, rounds) := before[Asked(b, cursor, rounds)] + [frame]]
    }

    /** Taking the next machine and writing to its session. */
    method AskNext(b: Bucket, frame: Bytes) returns (ok: bool, l: nat)
      requires SessionsOk() && b.Valid() && b.sets != []
      modifies b`cursorAndLenght, sessions.Values`offered, sessions.Values`written
      ensures b.Valid() && l == |b.sets|
      ensures CursorOf(b.cursorAndLenght) == NextIndex(old(CursorOf(b.cursorAndLenght)), |b.sets|)
      ensures ok == Accepts(b.sets[CursorOf(b.cursorAndLenght)])
      ensures var id := b.sets[CursorOf(b.cursorAndLenght)];
              && (ok ==> id in sessions)
              && Writings() == if ok then old(Writings())[id := old(Writings())[id] + [frame]] else old(Writings())
    {
      var id;
      id, l := b.Next();
      ok := TryWrite(id, frame);
    }

    /** The cursor and the answers after the given number of rounds without an accepting machine. */
    ghost predicate Skipped(b: Bucket, cursor: nat, rounds: nat)
      requires b.sets != []
      reads this, b, sessions.Values
    {
      && CursorOf(b.cursorAndLenght) == (if rounds == 0 then cursor else SoloIndex(cursor, |b.sets|, rounds - 1))
      && forall k: nat :: k < rounds ==> !Accepts(Asked(b, cursor, k))
    }

    lemma AcceptingRound(b: Bucket, cursor: nat) returns (k: nat)
      requires cursor < |b.sets| && exists i :: 0 <= i < |b.sets| && Accepts(b.sets[i])
      ensures k < |b.sets| && Accepts(Asked(b, cursor, k))
    {
      var i :| 0 <= i < |b.sets| && Accepts(b.sets[i]);
      k := EachPositionOnce(cursor, |b.sets|, i);
    }

    /** The loop of AskOne. */
    method AskRounds(b: Bucket, frame: Bytes) returns (ghost rounds: nat)
      requires SessionsOk() && b.Valid() && exists i :: 0 <= i < |b.sets| && Accepts(b.sets[i])
      modifies b`cursorAndLenght, sessions.Values`offered, sessions.Values`written
      ensures b.Valid() && b.sets != []
      ensures WroteOnce(b, old(CursorOf(b.cursorAndLenght)), frame, rounds, old(Writings()))
    {
      ghost var cursor := CursorOf(b.cursorAndLenght);
      ghost var last := AcceptingRound(b, cursor);
      rounds := 0;
      while true
        invariant b.Valid() && rounds <= last && Skipped(b, cursor, rounds)
        invariant Writings() == old(Writings())
        decreases last - rounds
      {
        var count := 0;
        var ok, l := AskNext(b, frame);
        if ok {
          return;
        }
        count := count + 1;
        if count > l {
          assert false;
        }
        rounds := rounds + 1;
      }
    }

    /**
     Every occurrence of a machine in the bucket is one write attempt if the machine has a session; a failed
     one is reported. If no live key was put again, that is one attempt per live machine with a session.
     */
    method AskAll(channel: nat, frame: Bytes) returns (found: bool, failed: seq<nat>)
      requires Valid()
      modifies sessions.Values`offered, sessions.Values`written
      ensures found == (channel in channels)
      ensures forall i :: i in sessions ==>
                && sessions[i].offered == old(sessions[i].offered) + Copies(frame, Count(Members(events, channel), i))
                && Count(failed, i) == (if Accepts(i) then 0 else Count(Members(events, channel), i))
                && (FreshPuts(events) ==>
                      sessions[i].offered ==
                        old(sessions[i].offered) + if Alive(events, channel, i) then [frame] else [])
      ensures forall i :: i in failed ==> i in sessions
    {
      failed := [];
      found := channel in channels;
      if found {
        failed := AskSets(channels[channel].sets, frame);
      }
      if FreshPuts(events) {
        MembersAreAlive(events, channel);
        forall i
          ensures Count(Members(events, channel), i) == if Alive(events, channel, i) then 1 else 0
        {
          DistinctCount(Members(events, channel), i);
        }
      }
    }

    /** One attempt, if the machine has a session; a failed one is reported. */
    method AskMachine(id: nat, frame: Bytes, failed: seq<nat>) returns (after: seq<nat>)
      requires SessionsOk()
      modifies sessions.Values`offered, sessions.Values`written
      ensures forall i :: i in sessions ==>
                sessions[i].offered == old(sessions[i].offered) + if i == id then [frame] else []
      ensures forall i :: i in sessions ==>
                Count(after, i) == Count(failed, i) + if i == id && !Accepts(i) then 1 else 0
      ensures forall i :: i in after ==> i in failed || i in sessions
    {
      after := failed;
      if id in sessions {
        var ok := TryWrite(id, frame);
        if !ok {
          CountAppend(failed, id);
          after := failed + [id];
        }
      }
    }

    /** Session i has been offered the frame n times since `before`. */
    ghost predicate Offered(i: nat, before: seq<Bytes>, frame: Bytes, n: nat)
      requires i in sessions
      reads this, sessions[i]
    {
      sessions[i].offered == before + Copies(frame, n)
    }

    /** The machines of the list that have a session and turn frames away are reported, each time they occur. */
    ghost predicate Reported(failed: seq<nat>, sets: seq<nat>)
      reads this, sessions.Values
    {
      && (forall i :: i in sessions ==> Count(failed, i) == if Accepts(i) then 0 else Count(sets, i))
      && forall i :: i in failed ==> i in sessions
    }

    /** The loop of AskAll. */
    method AskSets(sets: seq<nat>, frame: Bytes) returns (failed: seq<nat>)
      requires SessionsOk()
      modifies sessions.Values`offered, sessions.Values`written
      ensures forall i :: i in sessions ==> Offered(i, old(sessions[i].offered), frame, Count(sets, i))
      ensures Reported(failed, sets)
    {
      failed := [];
      ghost var was := map i | i in sessions :: sessions[i].offered;
      for k := 0 to |sets|
        invariant forall i :: i in sessions ==> Offered(i, was[i], frame, Count(sets[..k], i))
        invariant Reported(failed, sets[..k])
      {
        failed := AskNth(sets, k, frame, failed, was);
      }
      assert sets[..|sets|] == sets;
    }

    /** One round of it. */
    method AskNth(sets: seq<nat>, k: nat, frame: Bytes, failed: seq<nat>, ghost was: map<nat, seq<Bytes>>)
      returns (after: seq<nat>)
      requires SessionsOk() && k < |sets| && was.Keys == sessions.Keys
      requires forall i :: i in sessions ==> Offered(i, was[i], frame, Count(sets[..k], i))
      requires Reported(failed, sets[..k])
      modifies sessions.Values`offered, sessions.Values`written
      ensures forall i :: i in sessions ==> Offered(i, was[i], frame, Count(sets[..k + 1], i))
      ensures Reported(after, sets[..k + 1])
    {
      CountNext(sets, k);
      after := AskMachine(sets[k], frame, failed);
      forall i | i in sessions
        ensures Offered(i, was[i], frame, Count(sets[..k + 1], i))
      {
        assert old(Offered(i, was[i], frame, Count(sets[..k], i)));
        OneMoreCopy(was[i], frame, Count(sets[..k], i));
      }
    }

    /** One entry of the snapshot goes into the bucket of its channel, or into a new one. */
    method Group(temp: map<nat, Bucket>, e: Event, ghost puts: seq<Event>) returns (after: map<nat, Bucket>)
      requires Grouped(temp, puts) && AtFront(temp) && |puts| + 1 < TWO32 && e.Put?
      modifies temp.Values
      ensures Grouped(after, puts + [e]) && AtFront(after)
      ensures forall c :: c in after ==> (c in temp && after[c] == temp[c]) || fresh(after[c])
    {
      MembersFit(puts, e.channel);
      AppendEvent(puts, e);
      if e.channel in temp {
        var v := temp[e.channel];
        v.sets := v.sets + [e.id];
        v.SetLength();
        after := temp;
      } else {
        var nb := new Bucket.NewBucket();
        nb.sets := nb.sets + [e.id];
        nb.SetLength();
        after := temp[e.channel := nb];
      }
    }

    /**
     The snapshot's entries become puts, in their order. Pending messages at this point mean that the table
     may be out of step, and the cluster does not start.
     */
    method InitStateAndChannels(entries: seq<Bytes>, pending: bool) returns (ok: bool)
      requires Valid() && events == [] && |entries| < TWO32
      requires forall k :: 0 <= k < |entries| ==> |entries[k]| >= 4
      modifies this`channels, this`events
      ensures Valid() && ok == !pending
      ensures ok ==> events == seq(|entries|, k requires 0 <= k < |entries| => ValueToChannelMsg(entries[k]))
      ensures !ok ==> events == []
      ensures ok ==> AtFront(channels)
    {
      assert forall c :: c !in channels;
      var temp, puts := GroupAll(entries);
      if pending {
        return false;
      }
      assert channels + temp == temp;
      channels := channels + temp;
      events := puts;
      return true;
    }

    /** The first loop: the buckets of the snapshot. */
    method GroupAll(entries: seq<Bytes>) returns (temp: map<nat, Bucket>, ghost puts: seq<Event>)
      requires |entries| < TWO32 && forall k :: 0 <= k < |entries| ==> |entries[k]| >= 4
      ensures puts == seq(|entries|, k requires 0 <= k < |entries| => ValueToChannelMsg(entries[k]))
      ensures Grouped(temp, puts) && AtFront(temp)
    {
      temp := map[];
      puts := [];
      for k := 0 to |entries|
        invariant puts == seq(k, j requires 0 <= j < k => ValueToChannelMsg(entries[j]))
        invariant forall c :: c in temp ==> fresh(temp[c])
        invariant Grouped(temp, puts) && AtFront(temp)
      {
        var e := ValueToChannelMsg(entries[k]);
        temp := Group(temp, e, puts);
        puts := puts + [e];
      }
    }
  }

  lemma OneMoreCopy(before: seq<Bytes>, frame: Bytes, n: nat)
    ensures before + Copies(frame, n) + [frame] == before + Copies(frame, n + 1)
    ensures before + Copies(frame, n) + [] == before + Copies(frame, n)
  {
  }

  function Copies(frame: Bytes, n: nat): seq<Bytes> {
    seq(n, _ => frame)
  }
}
