/** The atomic steps of util/circuitBreaker.go, for any interleaving of its callers. */
module BreakerProtocol {
  import opened CircuitBreakers

  datatype Caller =
    | Entered // IsPass has found the breaker open
    | Clocked(now: int) // ... and has read the clock
    | Due(seen: int) // ... and has found the stored time more than the sleep window ago
    | Stamping(at: nat) // ... and has taken the token for history[at]; the time is not stored yet
    | Probing // HalfOpenFunc runs
    | Dropping // HalfOpenFunc has failed; the token is not cleared yet
    | Tripping(at: nat) // ErrorRecord has opened the breaker at history[at]; the time is not stored yet
    | Passing // SetCircuitBreakerPass has closed the breaker; the token is not cleared yet

  /** A call of IsPass: the state it loaded, and what it has returned. */
  datatype Ask = Ask(closed: bool, answer: Answer)
  datatype Answer = NotYet | Gave(pass: bool)

  /** The fields from history on only record what has happened; ask: the call of IsPass a caller is in. */
  datatype State = State(
    window: int, closed: bool, token: bool, timestamp: int, clock: int,
    callers: map<nat, Caller>, history: seq<Event>, asks: seq<Ask>, ask: map<nat, nat>)

  datatype Step =
    | Tick(d: nat)
    | IsPass(p: nat)
    | ReadClock(p: nat)
    | Compare(p: nat)
    | Take(p: nat)
    | Stamp(p: nat)
    | HalfOpen(p: nat, fails: bool)
    | Drop(p: nat)
    | Trip(p: nat)
    | StampTrip(p: nat)
    | Pass(p: nat)
    | ClearToken(p: nat)

  ghost predicate Init(s: State) {
    s.closed && !s.token && s.timestamp == 0 && s.callers == map[] && s.history == []
    && s.asks == [] && s.ask == map[]
  }

  predicate Enabled(s: State, step: Step) {
    match step
    case Tick(_) => true
    case IsPass(p) => p !in s.callers
    case Trip(p) => p !in s.callers
    case Pass(p) => p !in s.callers
    case ReadClock(p) => p in s.callers && s.callers[p] == Entered
    case Compare(p) => p in s.callers && s.callers[p].Clocked?
    case Take(p) => p in s.callers && s.callers[p].Due?
    case Stamp(p) => p in s.callers && s.callers[p].Stamping?
    case HalfOpen(p, _) => p in s.callers && s.callers[p] == Probing
    case Drop(p) => p in s.callers && s.callers[p] == Dropping
    case StampTrip(p) => p in s.callers && s.callers[p].Tripping?
    case ClearToken(p) => p in s.callers && s.callers[p] == Passing
  }

  /** IsPass returns false to caller p. */
  function Refused(s: State, p: nat): State {
    s.(callers := s.callers - {p},
       asks := if p in s.ask && s.ask[p] < |s.asks| then s.asks[s.ask[p] := s.asks[s.ask[p]].(answer := Gave(false))]
               else s.asks)
  }

  function Apply(s: State, step: Step): State
    requires Enabled(s, step)
  {
    match step
    case Tick(d) => s.(clock := s.clock + d)
    case IsPass(p) =>
      if s.closed then s.(asks := s.asks + [Ask(s.closed, Gave(true))])
      else
        var n := |s.asks|;
        s.(callers := s.callers[p := Entered], asks := s.asks + [Ask(s.closed, NotYet)], ask := s.ask[p := n])
    case ReadClock(p) => s.(callers := s.callers[p := Clocked(s.clock)])
    case Compare(p) =>
      if s.callers[p].now - s.timestamp > s.window then s.(callers := s.callers[p := Due(s.timestamp)])
      else Refused(s, p)
    case Take(p) =>
      if s.token then Refused(s, p)
      else
        var own := Stamping(|s.history|);
        s.(token := true, callers := s.callers[p := own], history := s.history + [Probed(s.clock)])
    case Stamp(p) => s.(timestamp := s.clock, callers := s.callers[p := Probing])
    case HalfOpen(p, fails) =>
      if fails then s.(callers := s.callers[p := Dropping]) else Refused(s, p)
    case Drop(p) => Refused(s, p).(token := false, history := s.history + [Failed])
    case Trip(p) =>
      if !s.closed then s
      else
        var own := Tripping(|s.history|);
        s.(closed := false, callers := s.callers[p := own], history := s.history + [Opened(s.clock)])
    case StampTrip(p) => s.(timestamp := s.clock, callers := s.callers - {p})
    case Pass(p) => s.(closed := true, callers := s.callers[p := Passing])
    case ClearToken(p) => s.(token := false, callers := s.callers - {p}, history := s.history + [Passed])
  }

  ghost predicate Path(s: State, steps: seq<Step>, t: State)
    decreases |steps|
  {
    if steps == [] then s == t
    else Enabled(s, steps[0]) && Path(Apply(s, steps[0]), steps[1..], t)
  }

  ghost predicate Reachable(t: State) {
    exists s, steps :: Init(s) && Path(s, steps, t)
  }

  // ---------- closed and open ----------

  /** The breaker is closed exactly after a pass that no trip has followed, or if it was and nothing tripped. */
  lemma {:induction false} ClosedIff(s: State, steps: seq<Step>, t: State)
    requires Path(s, steps, t)
    ensures t.closed <==>
              || (s.closed && forall j :: 0 <= j < |steps| ==> !steps[j].Trip?)
              || exists i :: 0 <= i < |steps| && steps[i].Pass? && NoTripBehind(steps, i)
    decreases |steps|
  {
    if steps != [] {
      var rest := steps[1..];
      ClosedIff(Apply(s, steps[0]), rest, t);
      assert forall j :: 1 <= j < |steps| ==> steps[j] == rest[j - 1];
      assert forall j :: 0 <= j < |rest| ==> rest[j] == steps[j + 1];
      forall i | 0 <= i < |rest|
        ensures NoTripBehind(rest, i) <==> NoTripBehind(steps, i + 1)
      {
      }
      if t.closed && exists i :: 0 <= i < |rest| && rest[i].Pass? && NoTripBehind(rest, i) {
        var i :| 0 <= i < |rest| && rest[i].Pass? && NoTripBehind(rest, i);
        assert steps[i + 1].Pass? && NoTripBehind(steps, i + 1);
      }
      if exists i :: 0 <= i < |steps| && steps[i].Pass? && NoTripBehind(steps, i) {
        var i :| 0 <= i < |steps| && steps[i].Pass? && NoTripBehind(steps, i);
        if i > 0 {
          assert rest[i - 1].Pass? && NoTripBehind(rest, i - 1);
        }
      }
    }
  }

  predicate NoTripBehind(steps: seq<Step>, i: int) {
    forall j :: i < j < |steps| && 0 <= j ==> !steps[j].Trip?
  }

  predicate InIsPass(c: Caller) {
    !c.Tripping? && !c.Passing?
  }

  /** Caller p is in the call of IsPass number n. */
  predicate InAsk(s: State, p: nat, n: int) {
    p in s.callers && InIsPass(s.callers[p]) && p in s.ask && s.ask[p] == n
  }

  ghost predicate Asking(s: State, n: nat) {
    exists p :: InAsk(s, p, n)
  }

  /** Calls that have returned gave the state they loaded; the others loaded an open state and are at work. */
  ghost predicate AsksOk(s: State) {
    && (forall p :: p in s.callers && InIsPass(s.callers[p]) ==>
          p in s.ask && s.ask[p] < |s.asks| && s.asks[s.ask[p]] == Ask(false, NotYet))
    && (forall p, q, n :: InAsk(s, p, n) && InAsk(s, q, n) ==> p == q)
    && (forall n :: 0 <= n < |s.asks| && s.asks[n].answer.Gave? ==> s.asks[n].answer.pass == s.asks[n].closed)
    && forall n :: 0 <= n < |s.asks| && s.asks[n].answer.NotYet? ==> Asking(s, n)
  }

  /** Nobody begins or ends a call. */
  ghost predicate SameAsks(s: State, t: State) {
    && t.asks == s.asks && t.ask == s.ask
    && forall p :: p in s.callers && InIsPass(s.callers[p]) <==> p in t.callers && InIsPass(t.callers[p])
  }

  lemma SameAsksOk(s: State, t: State)
    requires AsksOk(s) && SameAsks(s, t)
    ensures AsksOk(t)
  {
    assert forall p, n :: InAsk(s, p, n) <==> InAsk(t, p, n);
    forall n | 0 <= n < |t.asks| && t.asks[n].answer.NotYet?
      ensures Asking(t, n)
    {
      assert Asking(s, n);
      var p :| InAsk(s, p, n);
      assert InAsk(t, p, n);
    }
  }

  lemma RefusedOk(s: State, p: nat)
    requires AsksOk(s) && p in s.callers && InIsPass(s.callers[p])
    ensures AsksOk(Refused(s, p))
  {
    var t := Refused(s, p);
    assert InAsk(s, p, s.ask[p]);
    assert forall q, n :: InAsk(t, q, n) <==> InAsk(s, q, n) && q != p;
    forall q | q in t.callers && InIsPass(t.callers[q])
      ensures q in t.ask && t.ask[q] < |t.asks| && t.asks[t.ask[q]] == Ask(false, NotYet)
    {
      assert InAsk(s, q, s.ask[q]);
    }
    forall n | 0 <= n < |t.asks| && t.asks[n].answer.NotYet?
      ensures Asking(t, n)
    {
      assert Asking(s, n);
      var q :| InAsk(s, q, n);
      assert InAsk(t, q, n);
    }
  }

  lemma EnterOk(s: State, p: nat)
    requires AsksOk(s) && p !in s.callers
    ensures AsksOk(Apply(s, IsPass(p)))
  {
    var t := Apply(s, IsPass(p));
    assert forall q, n :: InAsk(s, q, n) ==> InAsk(t, q, n) && n < |s.asks|;
    assert forall q, n :: InAsk(t, q, n) ==> InAsk(s, q, n) || (q == p && n == |s.asks|);
    forall n | 0 <= n < |t.asks| && t.asks[n].answer.NotYet?
      ensures Asking(t, n)
    {
      if n < |s.asks| {
        assert Asking(s, n);
        var q :| InAsk(s, q, n);
        assert InAsk(t, q, n);
      } else {
        assert InAsk(t, p, n);
      }
    }
  }

  /** The step ends a call of IsPass. */
  predicate EndsAsk(s: State, step: Step)
    requires Enabled(s, step)
  {
    !step.IsPass? && !step.Tick? && step.p in s.callers && InIsPass(s.callers[step.p]) &&
    step.p !in Apply(s, step).callers
  }

  lemma EndsOrSame(s: State, step: Step)
    requires Enabled(s, step) && !step.IsPass?
    ensures SameAsks(if EndsAsk(s, step) then Refused(s, step.p) else s, Apply(s, step))
  {
  }

  lemma StepAsks(s: State, step: Step)
    requires AsksOk(s) && Enabled(s, step)
    ensures AsksOk(Apply(s, step))
  {
    if step.IsPass? {
      EnterOk(s, step.p);
    } else {
      EndsOrSame(s, step);
      if EndsAsk(s, step) {
        RefusedOk(s, step.p);
      }
      SameAsksOk(if EndsAsk(s, step) then Refused(s, step.p) else s, Apply(s, step));
    }
  }

  lemma {:induction false} PathAsks(s: State, steps: seq<Step>, t: State)
    requires AsksOk(s) && Path(s, steps, t)
    ensures AsksOk(t)
    decreases |steps|
  {
    if steps != [] {
      StepAsks(s, steps[0]);
      PathAsks(Apply(s, steps[0]), steps[1..], t);
    }
  }

  /** In every interleaving a call of IsPass returns true if and only if it loaded a closed state. */
  lemma PassesIffClosed(t: State, n: nat)
    requires Reachable(t) && n < |t.asks|
    ensures t.asks[n].answer.Gave? ==> (t.asks[n].answer.pass <==> t.asks[n].closed)
    ensures t.asks[n].answer.NotYet? ==> !t.asks[n].closed && Asking(t, n)
  {
    var s, steps :| Init(s) && Path(s, steps, t);
    PathAsks(s, steps, t);
  }

  /** The state a call is recorded with is the one it loads. */
  lemma StepLoads(s: State, step: Step)
    requires Enabled(s, step)
    ensures var t := Apply(s, step);
            if step.IsPass? then |t.asks| == |s.asks| + 1 && t.asks[..|s.asks|] == s.asks
                                 && t.asks[|s.asks|].closed == s.closed
            else |t.asks| == |s.asks| && forall n :: 0 <= n < |s.asks| ==> t.asks[n].closed == s.asks[n].closed
  {
  }

  // ---------- openings before probes ----------

  ghost predicate OpenedBefore(history: seq<Event>, j: nat) {
    exists i :: 0 <= i < j && i < |history| && history[i].Opened?
  }

  /** Whoever is on its way to a probe, and every probe, has an opening behind it. */
  ghost predicate OpenedOk(s: State) {
    && (!s.closed ==> OpenedBefore(s.history, |s.history|))
    && (forall p :: p in s.callers && InIsPass(s.callers[p]) ==> OpenedBefore(s.history, |s.history|))
    && forall j :: 0 <= j < |s.history| && s.history[j].Probed? ==> OpenedBefore(s.history, j)
  }

  lemma MoreHistory(history: seq<Event>, e: Event)
    ensures forall j :: 0 <= j <= |history| && OpenedBefore(history, j) ==> OpenedBefore(history + [e], j)
    ensures OpenedBefore(history + [e], |history + [e]|) <==> OpenedBefore(history, |history|) || e.Opened?
  {
    var after := history + [e];
    forall j | 0 <= j <= |history| && OpenedBefore(history, j)
      ensures OpenedBefore(after, j)
    {
      var i :| 0 <= i < j && i < |history| && history[i].Opened?;
      assert after[i].Opened?;
    }
    if e.Opened? {
      assert after[|history|].Opened?;
    }
    if OpenedBefore(history, |history|) {
      var i :| 0 <= i < |history| && history[i].Opened?;
      assert after[i].Opened?;
    }
  }

  lemma StepOpened(s: State, step: Step)
    requires OpenedOk(s) && Enabled(s, step)
    ensures OpenedOk(Apply(s, step))
  {
    MoreHistory(s.history, Probed(s.clock));
    MoreHistory(s.history, Opened(s.clock));
    MoreHistory(s.history, Failed);
    MoreHistory(s.history, Passed);
  }

  lemma {:induction false} PathOpened(s: State, steps: seq<Step>, t: State)
    requires OpenedOk(s) && Path(s, steps, t)
    ensures OpenedOk(t)
    decreases |steps|
  {
    if steps != [] {
      StepOpened(s, steps[0]);
      PathOpened(Apply(s, steps[0]), steps[1..], t);
    }
  }

  /** No probe is sent before the breaker has opened. */
  lemma ProbeNeedsOpening(t: State, j: nat)
    requires Reachable(t) && j < |t.history| && t.history[j].Probed?
    ensures exists i :: 0 <= i < j && t.history[i].Opened?
  {
    var s, steps :| Init(s) && Path(s, steps, t);
    PathOpened(s, steps, t);
    assert OpenedBefore(t.history, j);
  }

  // ---------- the token ----------

  ghost predicate TokenOk(s: State) {
    Alternating(s.history) && s.token == Held(s.history)
  }

  lemma StepToken(s: State, step: Step)
    requires TokenOk(s) && Enabled(s, step)
    ensures TokenOk(Apply(s, step))
  {
    AppendEvent(s.history, Probed(s.clock), s.window);
    AppendEvent(s.history, Opened(s.clock), s.window);
    AppendEvent(s.history, Failed, s.window);
    AppendEvent(s.history, Passed, s.window);
  }

  lemma {:induction false} PathToken(s: State, steps: seq<Step>, t: State)
    requires TokenOk(s) && Path(s, steps, t)
    ensures TokenOk(t)
    decreases |steps|
  {
    if steps != [] {
      StepToken(s, steps[0]);
      PathToken(Apply(s, steps[0]), steps[1..], t);
    }
  }

  /** In every interleaving, between two successful takes of the token a probe failed or a pass cleared it. */
  lemma TakesAlternate(t: State, i: nat, j: nat)
    requires Reachable(t) && i < j < |t.history| && t.history[i].Probed? && t.history[j].Probed?
    ensures exists k :: i < k < j && Ends(t.history[k])
  {
    var s, steps :| Init(s) && Path(s, steps, t);
    PathToken(s, steps, t);
    ProbesAlternate(t.history, i, j);
  }

  /** While nobody clears the token of an open breaker or closes it, no call takes the token and it stays open. */
  lemma {:induction false} UnansweredStaysOpen(s: State, steps: seq<Step>, t: State)
    requires s.token && !s.closed && Path(s, steps, t)
    requires forall i :: 0 <= i < |steps| ==> !steps[i].Drop? && !steps[i].ClearToken? && !steps[i].Pass?
    ensures t.token && !t.closed
    ensures s.history <= t.history && forall i :: |s.history| <= i < |t.history| ==> !t.history[i].Probed?
    decreases |steps|
  {
    if steps != [] {
      UnansweredStaysOpen(Apply(s, steps[0]), steps[1..], t);
    }
  }

  /** Only a failing HalfOpenFunc and a pass lead there. */
  lemma {:induction false} NobodyClears(s: State, steps: seq<Step>, t: State)
    requires Path(s, steps, t) && forall p :: p in s.callers ==> s.callers[p] != Dropping && s.callers[p] != Passing
    requires forall i :: 0 <= i < |steps| ==> !(steps[i].HalfOpen? && steps[i].fails) && !steps[i].Pass?
    ensures forall i :: 0 <= i < |steps| ==> !steps[i].Drop? && !steps[i].ClearToken?
    decreases |steps|
  {
    if steps != [] {
      NobodyClears(Apply(s, steps[0]), steps[1..], t);
      assert forall i :: 1 <= i < |steps| ==> steps[i] == steps[1..][i - 1];
    }
  }

  /** So a probe whose HalfOpenFunc does not fail and that no pass answers leaves the breaker open for good. */
  lemma SilentProbeStaysOpen(s: State, steps: seq<Step>, t: State)
    requires s.token && !s.closed && Path(s, steps, t)
    requires forall p :: p in s.callers ==> s.callers[p] != Dropping && s.callers[p] != Passing
    requires forall i :: 0 <= i < |steps| ==> !(steps[i].HalfOpen? && steps[i].fails) && !steps[i].Pass?
    ensures t.token && !t.closed
    ensures s.history <= t.history && forall i :: |s.history| <= i < |t.history| ==> !t.history[i].Probed?
  {
    NobodyClears(s, steps, t);
    UnansweredStaysOpen(s, steps, t);
  }

  /** A probe that fails gives the token back, and the breaker stays as it is. */
  lemma FailedProbeFreesToken(s: State, p: nat)
    requires Enabled(s, HalfOpen(p, true))
    ensures var t := Apply(s, HalfOpen(p, true));
            && Enabled(t, Drop(p)) && !Apply(t, Drop(p)).token
            && Apply(t, Drop(p)).closed == s.closed && Apply(t, Drop(p)).timestamp == s.timestamp
  {
  }

  /** A pass closes the breaker and then frees the token. */
  lemma PassFreesToken(s: State, p: nat)
    requires Enabled(s, Pass(p))
    ensures var t := Apply(s, Pass(p));
            t.closed && Enabled(t, ClearToken(p)) && Apply(t, ClearToken(p)).closed && !Apply(t, ClearToken(p)).token
  {
  }

  /** An open breaker does not open again before a pass: nothing is recorded and no time is stored for a trip. */
  lemma {:induction false} OpensOnce(s: State, steps: seq<Step>, t: State)
    requires !s.closed && Path(s, steps, t) && forall i :: 0 <= i < |steps| ==> !steps[i].Pass?
    ensures s.history <= t.history && forall i :: |s.history| <= i < |t.history| ==> !t.history[i].Opened?
    ensures forall p :: p in t.callers && t.callers[p].Tripping? ==> p in s.callers && s.callers[p] == t.callers[p]
    decreases |steps|
  {
    if steps != [] {
      OpensOnce(Apply(s, steps[0]), steps[1..], t);
    }
  }

  // ---------- one probe at a time ----------

  predicate Holds(s: State, p: nat) {
    p in s.callers && (s.callers[p].Stamping? || s.callers[p] == Probing || s.callers[p] == Dropping)
  }

  /** At most one caller is between taking the token and its end, and the token is set while one is. */
  ghost predicate Exclusive(s: State) {
    && (forall p :: Holds(s, p) ==> s.token)
    && (forall p, q :: Holds(s, p) && Holds(s, q) ==> p == q)
  }

  /** Exclusiveness is kept by every step except clearing the token while a probe is on its way. */
  lemma ExclusiveIff(s: State, step: Step)
    requires Exclusive(s) && Enabled(s, step)
    ensures Exclusive(Apply(s, step)) <==> !(step.ClearToken? && exists q :: Holds(s, q))
  {
    var t := Apply(s, step);
    if step.ClearToken? && exists q :: Holds(s, q) {
      var q :| Holds(s, q);
      assert Holds(t, q) && !t.token;
    } else {
      forall p, q | Holds(t, p) && Holds(t, q)
        ensures t.token && p == q
      {
        if step.Drop? {
          assert Holds(s, step.p);
        }
        assert Holds(s, p) || step == Take(p);
        assert Holds(s, q) || step == Take(q);
      }
    }
  }

  ghost predicate CalmPath(s: State, steps: seq<Step>, t: State)
    decreases |steps|
  {
    if steps == [] then s == t
    else
      && Enabled(s, steps[0])
      && (steps[0].ClearToken? ==> forall q :: !Holds(s, q))
      && CalmPath(Apply(s, steps[0]), steps[1..], t)
  }

  /** So runs in which no pass overtakes a probe have at most one probe at a time. */
  lemma {:induction false} OneProbeAtATime(s: State, steps: seq<Step>, t: State)
    requires Exclusive(s) && CalmPath(s, steps, t)
    ensures Exclusive(t)
    decreases |steps|
  {
    if steps != [] {
      ExclusiveIff(s, steps[0]);
      OneProbeAtATime(Apply(s, steps[0]), steps[1..], t);
    }
  }

  /** A caller number that is not in use. */
  lemma {:induction false} Fresh(callers: map<nat, Caller>) returns (p: nat)
    ensures forall q :: q in callers ==> q < p
    decreases |callers|
  {
    if callers == map[] {
      p := 0;
    } else {
      var q :| q in callers;
      var rest := callers - {q};
      assert |rest| < |callers| by {
        assert rest.Keys < callers.Keys;
      }
      var r := Fresh(rest);
      p := if r > q then r else q + 1;
      assert forall k :: k in callers ==> k == q || k in rest;
    }
  }

  lemma {:induction false} PathJoin(s: State, a: seq<Step>, u: State, b: seq<Step>, t: State)
    requires Path(s, a, u) && Path(u, b, t)
    ensures Path(s, a + b, t)
    decreases |a|
  {
    if a == [] {
      assert a + b == b;
    } else {
      assert (a + b)[1..] == a[1..] + b;
      PathJoin(Apply(s, a[0]), a[1..], u, b, t);
    }
  }

  /** A caller that waits out the sleep window of an open breaker with a free token takes it. */
  lemma ProbeAfterWait(s: State, r: nat) returns (steps: seq<Step>, t: State)
    requires !s.closed && !s.token && r !in s.callers
    ensures Path(s, steps, t) && t.callers == s.callers[r := Stamping(|s.history|)]
    ensures t.window == s.window && t.history == s.history + [Probed(t.clock)]
    ensures s.clock - s.timestamp > s.window ==> t.clock == s.clock
  {
    var d := s.timestamp + s.window + 1 - s.clock;
    var s1 := Apply(s, Tick(if d > 0 then d else 0));
    var s2 := Apply(s1, IsPass(r));
    var s3 := Apply(s2, ReadClock(r));
    var s4 := Apply(s3, Compare(r));
    t := Apply(s4, Take(r));
    PathOf(s4, Take(r), [], t);
    PathOf(s3, Compare(r), [Take(r)], t);
    PathOf(s2, ReadClock(r), [Compare(r), Take(r)], t);
    PathOf(s1, IsPass(r), [ReadClock(r), Compare(r), Take(r)], t);
    steps := [Tick(if d > 0 then d else 0)] + [IsPass(r), ReadClock(r), Compare(r), Take(r)];
    PathOf(s, steps[0], [IsPass(r), ReadClock(r), Compare(r), Take(r)], t);
  }

  lemma PathOf(s: State, step: Step, rest: seq<Step>, t: State)
    requires Enabled(s, step) && Path(Apply(s, step), rest, t)
    ensures Path(s, [step] + rest, t)
  {
    assert ([step] + rest)[1..] == rest;
  }

  /** Some caller can open a closed breaker and be done. */
  lemma TripFirst(s: State, r: nat) returns (steps: seq<Step>, t: State)
    requires r !in s.callers
    ensures Path(s, steps, t) && !t.closed && t.callers == s.callers && t.token == s.token
  {
    if s.closed {
      var s1 := Apply(s, Trip(r));
      t := Apply(s1, StampTrip(r));
      assert t.callers == s.callers;
      PathOf(s1, StampTrip(r), [], t);
      PathOf(s, Trip(r), [StampTrip(r)], t);
      steps := [Trip(r)] + [StampTrip(r)];
    } else {
      steps := [];
      t := s;
    }
  }

  /** And as soon as a pass overtakes a probe, a second probe can join it. */
  lemma SecondProbe(s: State, p: nat, q: nat) returns (steps: seq<Step>, t: State)
    requires Enabled(s, ClearToken(p)) && Holds(s, q)
    ensures Path(s, [ClearToken(p)] + steps, t) && Holds(t, q) && !Exclusive(t)
    ensures exists r :: r != q && Holds(t, r)
  {
    var u := Apply(s, ClearToken(p));
    var r := Fresh(s.callers);
    var open, v := TripFirst(u, r);
    var take, w := ProbeAfterWait(v, r);
    PathJoin(u, open, v, take, w);
    steps, t := open + take, w;
    PathOf(s, ClearToken(p), steps, t);
    assert Holds(t, r) && Holds(t, q) && r != q;
  }

  // ---------- the spacing of probes ----------

  /** Caller p has recorded history[i] and has yet to store its time. */
  predicate PendingAt(s: State, p: nat, i: nat) {
    p in s.callers && (s.callers[p] == Tripping(i) || s.callers[p] == Stamping(i))
  }

  ghost predicate CallersOk(s: State) {
    forall p :: p in s.callers ==>
      && (s.callers[p].Clocked? ==> s.callers[p].now <= s.clock)
      && (s.callers[p].Due? ==> s.clock - s.callers[p].seen > s.window)
  }

  /** No time is in the future, and a time later than the stored one waits for its caller to store it. */
  ghost predicate TimesOk(s: State) {
    && AllBefore(s.history, s.clock + 1)
    && (forall i :: 0 <= i < |s.history| && Timed(s.history[i]) && s.history[i].time > s.timestamp ==>
          exists p :: PendingAt(s, p, i))
    && CallersOk(s)
  }

  lemma StepTimes(s: State, step: Step)
    requires TimesOk(s) && Enabled(s, step)
    ensures TimesOk(Apply(s, step))
  {
    StepLater(s, step);
    StepClock(s, step);
  }

  lemma StepClock(s: State, step: Step)
    requires AllBefore(s.history, s.clock + 1) && CallersOk(s) && Enabled(s, step)
    ensures var t := Apply(s, step);
            AllBefore(t.history, t.clock + 1) && CallersOk(t)
  {
  }

  lemma StepLater(s: State, step: Step)
    requires TimesOk(s) && Enabled(s, step)
    ensures var t := Apply(s, step);
            forall i :: 0 <= i < |t.history| && Timed(t.history[i]) && t.history[i].time > t.timestamp ==>
              exists p :: PendingAt(t, p, i)
  {
    var t := Apply(s, step);
    forall i | 0 <= i < |t.history| && Timed(t.history[i]) && t.history[i].time > t.timestamp
      ensures exists p :: PendingAt(t, p, i)
    {
      if i < |s.history| {
        var p :| PendingAt(s, p, i);
        assert PendingAt(t, p, i);
      } else {
        assert PendingAt(t, step.p, i);
      }
    }
  }

  lemma {:induction false} PathTimes(s: State, steps: seq<Step>, t: State)
    requires TimesOk(s) && Path(s, steps, t)
    ensures TimesOk(t)
    decreases |steps|
  {
    if steps != [] {
      StepTimes(s, steps[0]);
      PathTimes(Apply(s, steps[0]), steps[1..], t);
    }
  }

  /**
   An opening or a probe that the stored time does not cover belongs to a caller that has yet to store it; so
   whatever is later than the time a caller has compared was pending at that compare, or came after it.
   */
  lemma LaterIsPending(t: State, i: nat)
    requires Reachable(t) && i < |t.history| && Timed(t.history[i]) && t.history[i].time > t.timestamp
    ensures exists p :: PendingAt(t, p, i)
  {
    var s, steps :| Init(s) && Path(s, steps, t);
    PathTimes(s, steps, t);
  }

  /**
   Caller p is about to take a free token although an opening or a probe later than the time it compared is no
   further back than the sleep window.
   */
  predicate Overtaken(s: State, p: nat)
    requires Enabled(s, Take(p))
  {
    !s.token && exists i :: 0 <= i < |s.history| && Timed(s.history[i]) &&
                            s.history[i].time > s.callers[p].seen && s.clock - s.history[i].time <= s.window
  }

  lemma StepSpacedIff(s: State, step: Step)
    requires CallersOk(s) && Enabled(s, step)
    ensures Spaced(Apply(s, step).history, s.window) <==>
              Spaced(s.history, s.window) && !(step.Take? && Overtaken(s, step.p))
  {
    AppendEvent(s.history, Probed(s.clock), s.window);
    AppendEvent(s.history, Opened(s.clock), s.window);
    AppendEvent(s.history, Failed, s.window);
    AppendEvent(s.history, Passed, s.window);
  }

  /** No take in a run is overtaken. */
  ghost predicate Punctual(s: State, steps: seq<Step>)
    decreases |steps|
  {
    steps == [] ||
    (Enabled(s, steps[0]) ==>
       !(steps[0].Take? && Overtaken(s, steps[0].p)) && Punctual(Apply(s, steps[0]), steps[1..]))
  }

  lemma {:induction false} PathSpacedIff(s: State, steps: seq<Step>, t: State)
    requires TimesOk(s) && Path(s, steps, t)
    ensures t.window == s.window
    ensures Spaced(t.history, s.window) <==> Spaced(s.history, s.window) && Punctual(s, steps)
    decreases |steps|
  {
    if steps != [] {
      StepTimes(s, steps[0]);
      StepSpacedIff(s, steps[0]);
      PathSpacedIff(Apply(s, steps[0]), steps[1..], t);
    }
  }

  /**
   The probes of an interleaved run come more than the sleep window after every earlier opening and probe if and
   only if no take of the run is overtaken.
   */
  lemma SpacedIffPunctual(s: State, steps: seq<Step>, t: State)
    requires Init(s) && Path(s, steps, t)
    ensures
      (forall i, j :: 0 <= i < j < |t.history| && Timed(t.history[i]) && t.history[j].Probed? ==>
        t.history[j].time - t.history[i].time > s.window)
      <==> Punctual(s, steps)
  {
    PathSpacedIff(s, steps, t);
    ProbesAreSpaced(t.history, s.window);
  }

  /** A caller takes a free token only while no time is pending and the stored one is out of the window. */
  ghost predicate UpToDate(s: State, step: Step) {
    step.Take? && Enabled(s, step) && !s.token ==>
      s.clock - s.timestamp > s.window && forall q, i :: !PendingAt(s, q, i)
  }

  ghost predicate UpToDatePath(s: State, steps: seq<Step>, t: State)
    decreases |steps|
  {
    if steps == [] then s == t
    else
      && Enabled(s, steps[0]) && UpToDate(s, steps[0])
      && UpToDatePath(Apply(s, steps[0]), steps[1..], t)
  }

  /** A second look at the stored time when the token is taken would do, if every time were stored by then. */
  lemma {:induction false} UpToDateIsPunctual(s: State, steps: seq<Step>, t: State)
    requires TimesOk(s) && UpToDatePath(s, steps, t)
    ensures Path(s, steps, t) && Punctual(s, steps)
    decreases |steps|
  {
    if steps != [] {
      StepTimes(s, steps[0]);
      UpToDateIsPunctual(Apply(s, steps[0]), steps[1..], t);
    }
  }

  lemma InitTimes(s: State)
    requires Init(s)
    ensures TimesOk(s) && Exclusive(s) && TokenOk(s) && Spaced(s.history, s.window)
  {
  }

  /**
   An overtaken take: a caller that reads the stored time after the breaker opened, but before the opening's
   time is stored, sends its probe at once.
   */
  lemma ProbeAtOpening() returns (t: State)
    ensures Reachable(t) && t.window == 1000 && t.history == [Opened(5000), Probed(5000)]
  {
    var s := State(1000, true, false, 0, 5000, map[], [], [], map[]);
    var u := Apply(s, Trip(0));
    var steps;
    steps, t := ProbeAfterWait(u, 1);
    PathOf(s, Trip(0), steps, t);
  }
}
