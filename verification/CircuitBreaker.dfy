/** util/circuitBreaker.go: the sliding error window and the state it trips. */
module CircuitBreakers {

  /** The errors of one tick; total is only kept up to date in the last bucket. */
  datatype Bucket = Bucket(stamp: nat, count: nat, total: nat)

  datatype BreakerState = Closed | Open

  // ---------- the naive window ----------

  ghost predicate NonDecreasing(log: seq<nat>) {
    forall i, j :: 0 <= i < j < |log| ==> log[i] <= log[j]
  }

  /** The number of errors logged at tick c or later. */
  function Since(log: seq<nat>, c: int): nat {
    if log == [] then 0
    else Since(log[..|log| - 1], c) + if log[|log| - 1] >= c then 1 else 0
  }

  /** The number of errors in the n ticks up to and including the last one. */
  function WindowCount(log: seq<nat>, n: nat): nat
    requires log != []
  {
    Since(log, log[|log| - 1] - n + 1)
  }

  /** All errors so far fell into one tick. */
  predicate OneTick(log: seq<nat>)
    requires log != []
  {
    log[0] == log[|log| - 1]
  }

  // ---------- the bucket list ----------

  function SumSince(item: seq<Bucket>, c: int): nat {
    if item == [] then 0
    else (if item[0].stamp >= c then item[0].count else 0) + SumSince(item[1..], c)
  }

  ghost predicate Increasing(item: seq<Bucket>) {
    forall i, j :: 0 <= i < j < |item| ==> item[i].stamp < item[j].stamp
  }

  /** The buckets hold the non-empty ticks of the window, with their exact counts. */
  ghost predicate Represents(item: seq<Bucket>, log: seq<nat>, n: nat) {
    && (log == [] <==> item == [])
    && Increasing(item)
    && (forall i :: 0 <= i < |item| ==> item[i].count > 0)
    && (log != [] ==>
          && item[|item| - 1].stamp == log[|log| - 1]
          && (forall i :: 0 <= i < |item| ==> item[i].stamp > log[|log| - 1] - n)
          && (forall c: int :: c > log[|log| - 1] - n ==> SumSince(item, c) == Since(log, c)))
  }

  /** The cached total: the window's count, and one more unless all errors fell into one tick. */
  ghost predicate TotalOk(item: seq<Bucket>, log: seq<nat>, n: nat) {
    log != [] && item != [] ==>
      item[|item| - 1].total == WindowCount(log, n) + if OneTick(log) then 0 else 1
  }

  /** When the cached total has reached the threshold. */
  predicate Trips(log: seq<nat>, n: nat, threshold: nat)
    requires log != []
  {
    WindowCount(log, n) + (if OneTick(log) then 0 else 1) >= threshold
  }

  lemma {:induction false} SumAppend(a: seq<Bucket>, b: seq<Bucket>, c: int)
    ensures SumSince(a + b, c) == SumSince(a, c) + SumSince(b, c)
    decreases |a|
  {
    if a == [] {
      assert a + b == b;
    } else {
      assert (a + b)[1..] == a[1..] + b;
      SumAppend(a[1..], b, c);
    }
  }

  lemma {:induction false} SumBelow(item: seq<Bucket>, c: int)
    requires forall i :: 0 <= i < |item| ==> item[i].stamp < c
    ensures SumSince(item, c) == 0
    decreases |item|
  {
    if item != [] {
      SumBelow(item[1..], c);
    }
  }

  lemma SumSplit(item: seq<Bucket>, k: nat, c: int)
    requires k <= |item|
    ensures SumSince(item, c) == SumSince(item[..k], c) + SumSince(item[k..], c)
  {
    SumAppend(item[..k], item[k..], c);
    assert item == item[..k] + item[k..];
  }

  /** A strictly increasing run of stamps is no longer than the range it lies in. */
  lemma {:induction false} RunFits(item: seq<Bucket>, low: int, high: int)
    requires Increasing(item) && low <= high
    requires forall i :: 0 <= i < |item| ==> low < item[i].stamp <= high
    ensures |item| <= high - low
    decreases |item|
  {
    if item != [] {
      var k := |item| - 1;
      RunFits(item[..k], low, item[k].stamp - 1);
    }
  }

  /** At most n buckets, and for every tick of the window exactly its errors. */
  lemma BucketsAreTicks(item: seq<Bucket>, log: seq<nat>, n: nat, c: int)
    requires Represents(item, log, n) && log != [] && n > 0
    requires log[|log| - 1] - n < c
    ensures |item| <= n
    ensures (exists i :: 0 <= i < |item| && item[i].stamp == c) <==> c in log
    ensures forall i :: 0 <= i < |item| && item[i].stamp == c ==> item[i].count == multiset(log)[c]
  {
    RunFits(item, log[|log| - 1] - n, log[|log| - 1]);
    assert SumSince(item, c) == Since(log, c) && SumSince(item, c + 1) == Since(log, c + 1);
    SinceStep(log, c);
    if k :| 0 <= k < |item| && item[k].stamp == c {
      SumStep(item, k);
    } else {
      SumGap(item, c);
    }
  }

  lemma {:induction false} SinceStep(log: seq<nat>, c: int)
    ensures Since(log, c) == Since(log, c + 1) + if c >= 0 then multiset(log)[c] else 0
  {
    if log != [] {
      var k := |log| - 1;
      assert log == log[..k] + [log[k]];
      SinceStep(log[..k], c);
    }
  }

  lemma SumStep(item: seq<Bucket>, k: nat)
    requires Increasing(item) && k < |item|
    ensures SumSince(item, item[k].stamp) == item[k].count + SumSince(item, item[k].stamp + 1)
  {
    var c := item[k].stamp;
    SumSplit(item, k, c);
    SumSplit(item, k, c + 1);
    SumBelow(item[..k], c);
    SumBelow(item[..k], c + 1);
    SumGap(item[k + 1..], c);
    var tail := item[k..];
    assert tail[0] == item[k] && tail[1..] == item[k + 1..];
  }

  lemma {:induction false} SumGap(item: seq<Bucket>, c: int)
    requires forall i :: 0 <= i < |item| ==> item[i].stamp != c
    ensures SumSince(item, c) == SumSince(item, c + 1)
  {
    if item != [] {
      SumGap(item[1..], c);
    }
  }

  // ---------- the threshold ----------

  /**
   A closed breaker opens whenever the window holds the threshold's number of errors, never with less than
   one below it, and at one below it exactly if the errors do not all fall into one tick.
   */
  lemma OpensAtThreshold(log: seq<nat>, n: nat, threshold: nat)
    requires log != []
    ensures WindowCount(log, n) >= threshold ==> Trips(log, n, threshold)
    ensures Trips(log, n, threshold) ==> WindowCount(log, n) >= threshold - 1
    ensures (Trips(log, n, threshold) <==> WindowCount(log, n) >= threshold) <==>
            (OneTick(log) || WindowCount(log, n) != threshold - 1)
  {
  }

  /** Two errors in neighbouring ticks open a breaker that is meant to open at three. */
  lemma OpensEarly()
    ensures WindowCount([0, 1], 2) == 2 && Trips([0, 1], 2, 3)
  {
    assert [0, 1][..1] == [0] && [0][..0] == [];
    assert Since([0], 0) == 1;
    assert Since([0, 1], 0) == 2;
  }

  // ---------- openings and probes ----------

  datatype Event = Opened(time: int) | Probed(time: int) | Failed | Passed

  predicate Timed(e: Event) {
    e.Opened? || e.Probed?
  }

  predicate Ends(e: Event) {
    e.Failed? || e.Passed?
  }

  /** The last probe has neither failed nor been followed by a pass. */
  predicate Held(history: seq<Event>) {
    history != [] &&
    var k := |history| - 1;
    history[k].Probed? || (!Ends(history[k]) && Held(history[..k]))
  }

  predicate AllBefore(history: seq<Event>, t: int) {
    forall i :: 0 <= i < |history| && Timed(history[i]) ==> history[i].time < t
  }

  /** No probe was sent while one was held. */
  predicate Alternating(history: seq<Event>) {
    history == [] ||
    var k := |history| - 1;
    Alternating(history[..k]) && (history[k].Probed? ==> !Held(history[..k]))
  }

  /** No probe was sent within the window after an opening or a probe. */
  predicate Spaced(history: seq<Event>, window: int) {
    history == [] ||
    var k := |history| - 1;
    Spaced(history[..k], window) && (history[k].Probed? ==> AllBefore(history[..k], history[k].time - window))
  }

  function ProbeEvents(at: int, fails: bool): seq<Event> {
    if fails then [Probed(at), Failed] else [Probed(at)]
  }

  lemma AppendEvent(history: seq<Event>, e: Event, window: int)
    ensures Held(history + [e]) == (e.Probed? || (!Ends(e) && Held(history)))
    ensures Alternating(history + [e]) <==> Alternating(history) && (e.Probed? ==> !Held(history))
    ensures Spaced(history + [e], window) <==>
              Spaced(history, window) && (e.Probed? ==> AllBefore(history, e.time - window))
  {
    assert (history + [e])[..|history|] == history;
  }

  /** That is: every probe comes more than the window after every earlier opening and probe. */
  lemma {:induction false} ProbesAreSpaced(history: seq<Event>, window: int)
    ensures Spaced(history, window) <==>
              forall i, j :: 0 <= i < j < |history| && Timed(history[i]) && history[j].Probed? ==>
                history[j].time - history[i].time > window
  {
    if history != [] {
      ProbesAreSpaced(history[..|history| - 1], window);
    }
  }

  /** Between two probes one failed or the breaker was closed. */
  lemma {:induction false} ProbesAlternate(history: seq<Event>, i: nat, j: nat)
    requires Alternating(history) && i < j < |history| && history[i].Probed? && history[j].Probed?
    ensures exists k :: i < k < j && Ends(history[k])
  {
    var n := |history| - 1;
    if j < n {
      ProbesAlternate(history[..n], i, j);
      var k :| i < k < j && Ends(history[..n][k]);
      assert Ends(history[k]);
    } else {
      var k := EndAfter(history[..n], i);
      assert Ends(history[k]);
    }
  }

  lemma {:induction false} EndAfter(history: seq<Event>, i: nat) returns (k: nat)
    requires i < |history| && history[i].Probed? && !Held(history)
    ensures i < k < |history| && Ends(history[k])
  {
    var n := |history| - 1;
    if Ends(history[n]) {
      k := n;
    } else {
      k := EndAfter(history[..n], i);
    }
  }

  // ---------- recording an error ----------

  /** Another error in the tick of the last bucket. */
  lemma SameTick(item: seq<Bucket>, log: seq<nat>, n: nat, t: nat)
    requires n > 0 && NonDecreasing(log) && log != []
    requires Represents(item, log, n) && TotalOk(item, log, n) && item[|item| - 1].stamp == t
    ensures NonDecreasing(log + [t])
    ensures Represents(Bumped(item, t), log + [t], n) && TotalOk(Bumped(item, t), log + [t], n)
  {
    var k := |item| - 1;
    var b := Bucket(t, item[k].count + 1, item[k].total + 1);
    var after, more := Bumped(item, t), log + [t];
    assert item == item[..k] + [item[k]] && after == item[..k] + [b];
    assert more[..|log|] == log;
    forall c: int | c > t - n
      ensures SumSince(after, c) == Since(more, c)
    {
      SumAppend(item[..k], [item[k]], c);
      SumAppend(item[..k], [b], c);
      assert SumSince(item, c) == Since(log, c);
    }
  }

  /** One more error in the last bucket. */
  function Bumped(item: seq<Bucket>, t: nat): seq<Bucket>
    requires item != []
  {
    var k := |item| - 1;
    item[k := Bucket(t, item[k].count + 1, item[k].total + 1)]
  }

  /** The buckets from k on, and a new one with their sum. */
  function Shifted(item: seq<Bucket>, k: nat, t: nat, n: nat): seq<Bucket>
    requires k <= |item|
  {
    item[k..] + [Bucket(t, 1, 2 + SumSince(item[k..], t - n + 1))]
  }

  /** The first error in a later tick: a new bucket, and the ones that left the window cut off. */
  lemma NewTick(item: seq<Bucket>, log: seq<nat>, n: nat, t: nat, k: nat)
    requires n > 0 && NonDecreasing(log) && log != [] && Represents(item, log, n)
    requires t > log[|log| - 1] && k <= |item|
    requires forall i :: 0 <= i < k ==> item[i].stamp <= t - n
    requires forall i :: k <= i < |item| ==> item[i].stamp > t - n
    ensures NonDecreasing(log + [t])
    ensures Represents(Shifted(item, k, t, n), log + [t], n) && TotalOk(Shifted(item, k, t, n), log + [t], n)
  {
    var b := Bucket(t, 1, 2 + SumSince(item[k..], t - n + 1));
    var after := item[k..] + [b];
    var more := log + [t];
    assert more[..|log|] == log;
    forall c: int | c > t - n
      ensures SumSince(after, c) == Since(more, c) == SumSince(item[k..], c) + if t >= c then 1 else 0
    {
      NewTickSum(item, log, n, t, k, c);
      SumAppend(item[k..], [b], c);
    }
    assert more[0] == log[0] && more[|more| - 1] == t;
  }

  /** The buckets that stay count what was logged in the new window before. */
  lemma NewTickSum(item: seq<Bucket>, log: seq<nat>, n: nat, t: nat, k: nat, c: int)
    requires log != [] && Represents(item, log, n) && t > log[|log| - 1] && k <= |item| && c > t - n
    requires forall i :: 0 <= i < k ==> item[i].stamp <= t - n
    ensures SumSince(item[k..], c) == Since(log, c)
  {
    SumSplit(item, k, c);
    SumBelow(item[..k], c);
    assert SumSince(item, c) == Since(log, c);
  }

  /** The very first error. */
  lemma FirstTick(t: nat, n: nat)
    requires n > 0
    ensures Represents([Bucket(t, 1, 1)], [t], n) && TotalOk([Bucket(t, 1, 1)], [t], n)
  {
    assert [t][..0] == [];
    assert forall c: int :: Since([t], c) == if t >= c then 1 else 0;
  }

  lemma FirstTrips(t: nat, n: nat, threshold: nat)
    requires n > 0
    ensures Trips([t], n, threshold) <==> 1 >= threshold
  {
    assert [t][..0] == [];
    assert Since([t], t - n + 1) == 1;
  }

  /** The running total of the loop when the buckets from k on have been added; |was| stands for the new one. */
  function Partial(was: seq<Bucket>, k: nat, low: int): nat {
    if k > |was| then 1 else 2 + SumSince(was[k..], low)
  }

  lemma PartialStep(was: seq<Bucket>, i: nat, low: int)
    requires i <= |was| && (i < |was| ==> was[i].stamp >= low)
    ensures Partial(was, i, low) == Partial(was, i + 1, low) + if i < |was| then was[i].count else 1
  {
  }

  lemma CutOff(was: seq<Bucket>, b: Bucket, k: nat)
    requires k <= |was|
    ensures (was + [b])[k..|was| + 1] == was[k..] + [b]
    ensures k == 0 ==> was[k..] == was
  {
  }

  class CircuitBreaker {
    const rollingBucketsNum: nat
    const requestVolumeThreshold: nat
    const sleepWindow: int
    var state: BreakerState
    var halfOpenToken: bool
    var timestamp: int
    var item: seq<Bucket>
    ghost var log: seq<nat> // the ticks of all errors so far
    ghost var history: seq<Event> // openings, probes and what ended them
    ghost var clock: int // the latest time a call has seen

    ghost predicate Valid()
      reads this
    {
      && rollingBucketsNum > 0 && requestVolumeThreshold > 0 && sleepWindow >= 1000
      && NonDecreasing(log)
      && Represents(item, log, rollingBucketsNum) && TotalOk(item, log, rollingBucketsNum)
    }

    constructor (buckets: nat, threshold: nat, sleep: int)
      ensures Valid() && ProbesOk() && log == [] && state == Closed && !halfOpenToken && history == []
      ensures rollingBucketsNum == if buckets == 0 then 1 else buckets
      ensures requestVolumeThreshold == if threshold == 0 then 20 else threshold
      ensures sleepWindow == if sleep < 1000 then 2000000000 else sleep
    {
      rollingBucketsNum := if buckets == 0 then 1 else buckets;
      requestVolumeThreshold := if threshold == 0 then 20 else threshold;
      sleepWindow := if sleep < 1000 then 2000000000 else sleep;
      state := Closed;
      halfOpenToken := false;
      timestamp := 0;
      item := [];
      log := [];
      history := [];
      clock := 0;
    }

    /** The probes so far were well spaced and alternated with what ends a probe. */
    ghost predicate ProbesOk()
      reads this
    {
      && Alternating(history) && Spaced(history, sleepWindow) && halfOpenToken == Held(history)
      && AllBefore(history, timestamp + 1) && AllBefore(history, clock + 1)
    }

    /** Compare-and-swap of the state from closed to open; the time is stored if it succeeds. */
    method Trip(now: int)
      requires ProbesOk() && now >= clock
      modifies this`state, this`timestamp, this`history, this`clock
      ensures ProbesOk() && state == Open && clock == now
      ensures timestamp == if old(state) == Closed then now else old(timestamp)
      ensures history == old(history) + if old(state) == Closed then [Opened(now)] else []
    {
      if state == Closed {
        AppendEvent(history, Opened(now), sleepWindow);
        state := Open;
        timestamp := now;
        history := history + [Opened(now)];
      }
      clock := now;
    }

    /**
     Calls pass exactly while the breaker is closed. An open one sends a probe exactly if more than the sleep
     window has passed and no probe holds the token; a probe that fails gives the token back.
     */
    method IsPass(now: int, later: int, probeFails: bool) returns (pass: bool)
      requires ProbesOk() && clock <= now <= later
      modifies this`halfOpenToken, this`timestamp, this`history, this`clock
      ensures ProbesOk() && pass == (state == Closed)
      ensures var probes := state == Open && now - old(timestamp) > sleepWindow && !old(halfOpenToken);
              && history == old(history) + (if !probes then [] else ProbeEvents(later, probeFails))
              && timestamp == (if probes then later else old(timestamp))
              && halfOpenToken == if probes then !probeFails else old(halfOpenToken)
    {
      clock := later;
      if state == Closed {
        return true;
      }
      if now - timestamp > sleepWindow {
        if !halfOpenToken {
          Probe(later, probeFails);
        }
      }
      return false;
    }

    /** Taking the token, storing the time and calling HalfOpenFunc. */
    method Probe(later: int, probeFails: bool)
      requires ProbesOk() && !halfOpenToken && later - timestamp > sleepWindow && clock == later
      modifies this`halfOpenToken, this`timestamp, this`history
      ensures ProbesOk() && halfOpenToken == !probeFails && timestamp == later
      ensures history == old(history) + ProbeEvents(later, probeFails)
    {
      AppendEvent(history, Probed(later), sleepWindow);
      halfOpenToken := true;
      timestamp := later;
      history := history + [Probed(later)];
      if probeFails {
        AppendEvent(history, Failed, sleepWindow);
        halfOpenToken := false;
        history := history + [Failed];
      }
    }

    /** The breaker closes, and the next opening may probe again. */
    method SetCircuitBreakerPass()
      requires ProbesOk()
      modifies this`state, this`halfOpenToken, this`history
      ensures ProbesOk() && state == Closed && !halfOpenToken && history == old(history) + [Passed]
    {
      AppendEvent(history, Passed, sleepWindow);
      state := Closed;
      halfOpenToken := false;
      history := history + [Passed];
    }

    /**
     A closed breaker opens exactly if the window holds the threshold's number of errors, where an
     error too many is counted once the errors do not all fall into one tick.
     */
    method ErrorRecord(t: nat, now: int)
      requires Valid() && ProbesOk() && (log != [] ==> t >= log[|log| - 1]) && now >= clock
      modifies this`state, this`timestamp, this`item, this`log, this`history, this`clock
      ensures Valid() && ProbesOk() && log == old(log) + [t]
      ensures state == Open <==> old(state) == Open || Trips(log, rollingBucketsNum, requestVolumeThreshold)
      ensures timestamp == if old(state) != state then now else old(timestamp)
      ensures history == old(history) + if old(state) != state then [Opened(now)] else []
    {
      var size := |item|;
      if size == 0 {
        FirstBucket(t, now);
        return;
      }
      if item[size - 1].stamp == t {
        SameBucket(t);
      } else {
        NextBucket(t);
      }
      TripAtThreshold(now);
    }

    /** The very first error. */
    method FirstBucket(t: nat, now: int)
      requires Valid() && ProbesOk() && item == [] && now >= clock
      modifies this`state, this`timestamp, this`item, this`log, this`history, this`clock
      ensures Valid() && ProbesOk() && log == [t]
      ensures state == Open <==> old(state) == Open || Trips(log, rollingBucketsNum, requestVolumeThreshold)
      ensures timestamp == if old(state) != state then now else old(timestamp)
      ensures history == old(history) + if old(state) != state then [Opened(now)] else []
    {
      FirstItem(t);
      FirstTrips(t, rollingBucketsNum, requestVolumeThreshold);
      if 1 >= requestVolumeThreshold {
        Trip(now);
      }
    }

    method FirstItem(t: nat)
      requires Valid() && item == []
      modifies this`item, this`log
      ensures Valid() && log == [t]
    {
      FirstTick(t, rollingBucketsNum);
      item := item + [Bucket(t, 1, 1)];
      log := [t];
    }

    /** The check at the end: the cached total against the threshold. */
    method TripAtThreshold(now: int)
      requires ProbesOk() && item != [] && log != [] && TotalOk(item, log, rollingBucketsNum) && now >= clock
      modifies this`state, this`timestamp, this`history, this`clock
      ensures ProbesOk()
      ensures state == Open <==> old(state) == Open || Trips(log, rollingBucketsNum, requestVolumeThreshold)
      ensures timestamp == if old(state) != state then now else old(timestamp)
      ensures history == old(history) + if old(state) != state then [Opened(now)] else []
    {
      if item[|item| - 1].total >= requestVolumeThreshold {
        Trip(now);
      }
    }

    method SameBucket(t: nat)
      requires Valid() && item != [] && item[|item| - 1].stamp == t
      modifies this`item, this`log
      ensures Valid() && log == old(log) + [t]
    {
      var size := |item| - 1;
      SameTick(item, log, rollingBucketsNum, t);
      item := item[size := Bucket(t, item[size].count + 1, item[size].total + 1)];
      log := log + [t];
    }

    method NextBucket(t: nat)
      requires Valid() && item != [] && t > log[|log| - 1]
      modifies this`item, this`log
      ensures Valid() && log == old(log) + [t]
    {
      ghost var was := item;
      ghost var k := Shift(t);
      NewTick(was, log, rollingBucketsNum, t, k);
      log := log + [t];
    }

    /** A new bucket: the loop adds up the counts in the window and cuts off what has left it. */
    method Shift(t: nat) returns (ghost k: nat)
      requires rollingBucketsNum > 0 && Increasing(item)
      requires forall i :: 0 <= i < |item| ==> item[i].stamp < t
      modifies this`item
      ensures k <= |old(item)|
      ensures forall i :: 0 <= i < k ==> old(item)[i].stamp <= t - rollingBucketsNum
      ensures forall i :: k <= i < |old(item)| ==> old(item)[i].stamp > t - rollingBucketsNum
      ensures item == Shifted(old(item), k, t, rollingBucketsNum)
    {
      ghost var was, low: int := item, t - rollingBucketsNum + 1;
      var current := |item|;
      item := item + [Bucket(t, 1, 1)];
      var i := current;
      while i >= 0
        invariant -1 <= i <= current
        invariant item == was + [Bucket(t, 1, Partial(was, i + 1, low))]
        invariant forall j :: i < j < current ==> was[j].stamp >= low
      {
        if t - item[i].stamp < rollingBucketsNum {
          PartialStep(was, i, low);
          item := item[current := item[current].(total := item[current].total + item[i].count)];
        } else {
          CutOff(was, item[current], i + 1);
          item := item[i + 1..current + 1];
          return i + 1;
        }
        i := i - 1;
      }
      CutOff(was, item[current], 0);
      k := 0;
    }
  }
}
