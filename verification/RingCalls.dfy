/** util/ring.go as its callers see it: what becomes of every call of WriteToRingBuffer. */
module RingCalls {
  import opened Bits
  import opened Conver
  import opened Slices
  import opened RingMemory
  import opened RingProtocol
  import opened RingSafety
  import opened RingTheorems
  import opened RingRuns

  // ---------- who is turned away ----------

  /** The space check of caller p finds the wrapped difference as large as the ring. */
  predicate NoSpaceAtCheck(s: State, p: nat) {
    p in s.producers && s.producers[p].Loaded? &&
    U64(U64(s.producers[p].ask + |s.producers[p].data|) - s.mem.avail) >= s.mem.size
  }

  /** That is the only way a message is turned away; in particular a lost compare-and-swap turns nobody away. */
  lemma StepRejects(s: State, step: Step)
    requires Enabled(s, step)
    ensures var t := Apply(s, step);
            if step.Check? && NoSpaceAtCheck(s, step.p) then
              t.rejected == s.rejected + [s.producers[step.p].data] && step.p !in t.producers
            else
              && t.rejected == s.rejected
              && forall p :: p in s.producers && !(step == Submit(p)) ==>
                   p in t.producers && t.producers[p].data == s.producers[p].data
  {
  }

  // ---------- the fate of every call ----------

  /** A call is not yet at its claim, made the k-th claim, or was the k-th one to be turned away. */
  datatype Fate = Working(p: nat) | Accepted(k: nat) | Rejected(k: nat)

  /** The messages of the calls so far, their fates, and the latest call of each caller. */
  datatype Log = Log(messages: seq<Bytes>, fates: seq<Fate>, call: map<nat, nat>)

  const NOTHING: Log := Log([], [], map[])

  function Called(steps: seq<Step>): seq<Bytes> {
    if steps == [] then []
    else (if steps[0].Call? then [steps[0].message] else []) + Called(steps[1..])
  }

  /** The log after a step, read off what the step did to the records. */
  function Observe(o: Log, s: State, step: Step): Log
    requires Enabled(s, step)
  {
    var t := Apply(s, step);
    if step.Call? then
      Log(o.messages + [step.message], o.fates + [Working(step.p)], o.call[step.p := |o.messages|])
    else if (step.Check? || step.CompareAndSwap?) && step.p in o.call && o.call[step.p] < |o.fates| then
      var c := o.call[step.p];
      if |t.accepted| > |s.accepted| then o.(fates := o.fates[c := Accepted(|s.accepted|)])
      else if |t.rejected| > |s.rejected| then o.(fates := o.fates[c := Rejected(|s.rejected|)])
      else o
    else o
  }

  function Observed(o: Log, s: State, steps: seq<Step>): Log
    decreases |steps|
  {
    if steps == [] || !Enabled(s, steps[0]) then o
    else Observed(Observe(o, s, steps[0]), Apply(s, steps[0]), steps[1..])
  }

  predicate Before(s: State, p: nat) {
    p in s.producers && !s.producers[p].Copying?
  }

  /** The fate of call c is true of the state. */
  predicate FateTrue(o: Log, s: State, c: nat)
    requires c < |o.messages| == |o.fates|
  {
    match o.fates[c]
    case Working(p) => Before(s, p) && p in o.call && o.call[p] == c && s.producers[p].data == o.messages[c]
    case Accepted(k) => k < |s.accepted| && s.accepted[k] == o.messages[c]
    case Rejected(k) => k < |s.rejected| && s.rejected[k] == o.messages[c]
  }

  ghost predicate IsFate(o: Log, f: Fate) {
    exists c :: 0 <= c < |o.fates| && o.fates[c] == f
  }

  /** Every call has a true fate of its own, and every caller and record is the fate of a call. */
  ghost predicate LogOk(o: Log, s: State) {
    && |o.messages| == |o.fates|
    && (forall c: nat :: c < |o.fates| ==> FateTrue(o, s, c))
    && (forall c, d :: 0 <= c < d < |o.fates| ==> o.fates[c] != o.fates[d])
    && (forall p :: Before(s, p) ==> p in o.call && o.call[p] < |o.fates| && o.fates[o.call[p]] == Working(p))
    && (forall k: nat :: k < |s.accepted| ==> IsFate(o, Accepted(k)))
    && (forall k: nat :: k < |s.rejected| ==> IsFate(o, Rejected(k)))
  }

  lemma CallLog(o: Log, s: State, p: nat, message: Bytes)
    requires LogOk(o, s) && Enabled(s, Call(p, message))
    ensures LogOk(Observe(o, s, Call(p, message)), Apply(s, Call(p, message)))
  {
    var o', t := Observe(o, s, Call(p, message)), Apply(s, Call(p, message));
    forall f | IsFate(o, f)
      ensures IsFate(o', f)
    {
      var c :| 0 <= c < |o.fates| && o.fates[c] == f;
      assert o'.fates[c] == f;
    }
    forall c: nat | c < |o'.fates|
      ensures FateTrue(o', t, c) && (c < |o.fates| ==> o'.fates[c] != Working(p))
    {
      assert c < |o.fates| ==> FateTrue(o, s, c);
    }
  }

  /** A call that was not at its claim gets its final fate. */
  lemma SettleLog(o: Log, s: State, t: State, p: nat, f: Fate)
    requires LogOk(o, s) && Before(s, p) && !Before(t, p) && !f.Working?
    requires forall q :: q != p ==> (Before(s, q) <==> Before(t, q))
    requires forall q :: Before(s, q) && Before(t, q) ==> t.producers[q].data == s.producers[q].data
    requires t.accepted == s.accepted + (if f.Accepted? then [s.producers[p].data] else [])
    requires t.rejected == s.rejected + (if f.Rejected? then [s.producers[p].data] else [])
    requires f.k == if f.Accepted? then |s.accepted| else |s.rejected|
    ensures LogOk(o.(fates := o.fates[o.call[p] := f]), t)
  {
    var c := o.call[p];
    var o' := o.(fates := o.fates[c := f]);
    assert FateTrue(o, s, c);
    forall d: nat | d < |o'.fates|
      ensures FateTrue(o', t, d)
    {
      assert FateTrue(o, s, d);
    }
    forall g | IsFate(o, g) && g != Working(p)
      ensures IsFate(o', g)
    {
      var d :| 0 <= d < |o.fates| && o.fates[d] == g;
      assert o'.fates[d] == g;
    }
    assert o'.fates[c] == f;
    forall d | 0 <= d < |o.fates| && d != c
      ensures o'.fates[d] != f
    {
      assert FateTrue(o, s, d);
    }
  }

  /** Other steps change no fate. */
  lemma SameLog(o: Log, s: State, t: State)
    requires LogOk(o, s) && t.accepted == s.accepted && t.rejected == s.rejected
    requires forall q :: Before(s, q) <==> Before(t, q)
    requires forall q :: Before(s, q) && Before(t, q) ==> t.producers[q].data == s.producers[q].data
    ensures LogOk(o, t)
  {
    forall d: nat | d < |o.fates|
      ensures FateTrue(o, t, d)
    {
      assert FateTrue(o, s, d);
    }
  }

  /** The step gives caller p's call its final fate. */
  predicate Settles(s: State, step: Step) {
    || (step.Check? && NoSpaceAtCheck(s, step.p))
    || (step.CompareAndSwap? && step.p in s.producers && s.producers[step.p].Checked?
        && s.producers[step.p].ask == s.mem.ask)
  }

  lemma StepShape(s: State, step: Step)
    requires Enabled(s, step) && !step.Call?
    ensures var t := Apply(s, step);
            && (forall q :: !(Settles(s, step) && step.p == q) ==> (Before(s, q) <==> Before(t, q)))
            && (forall q :: Before(s, q) && Before(t, q) ==> t.producers[q].data == s.producers[q].data)
            && (Settles(s, step) ==> Before(s, step.p) && !Before(t, step.p))
            && t.accepted == s.accepted +
                 (if Settles(s, step) && !step.Check? then [s.producers[step.p].data] else [])
            && t.rejected == s.rejected +
                 (if Settles(s, step) && step.Check? then [s.producers[step.p].data] else [])
  {
  }

  lemma StepLog(o: Log, s: State, step: Step)
    requires LogOk(o, s) && Enabled(s, step)
    ensures LogOk(Observe(o, s, step), Apply(s, step))
  {
    if step.Call? {
      CallLog(o, s, step.p, step.message);
    } else {
      StepShape(s, step);
      if Settles(s, step) {
        SettleLog(o, s, Apply(s, step), step.p,
                  if step.Check? then Rejected(|s.rejected|) else Accepted(|s.accepted|));
      } else {
        SameLog(o, s, Apply(s, step));
      }
    }
  }

  lemma {:induction false} PathLog(o: Log, s: State, steps: seq<Step>, t: State)
    requires LogOk(o, s) && FairPath(s, steps, t)
    ensures LogOk(Observed(o, s, steps), t)
    decreases |steps|
  {
    if steps != [] {
      StepLog(o, s, steps[0]);
      PathLog(Observe(o, s, steps[0]), Apply(s, steps[0]), steps[1..], t);
    }
  }

  lemma {:induction false} PathCalled(o: Log, s: State, steps: seq<Step>, t: State)
    requires FairPath(s, steps, t)
    ensures Observed(o, s, steps).messages == o.messages + Called(steps)
    decreases |steps|
  {
    if steps != [] {
      StepCalled(o, s, steps[0]);
      PathCalled(Observe(o, s, steps[0]), Apply(s, steps[0]), steps[1..], t);
      Regroup(o.messages, if steps[0].Call? then [steps[0].message] else [], Called(steps[1..]));
    }
  }

  lemma StepCalled(o: Log, s: State, step: Step)
    requires Enabled(s, step)
    ensures Observe(o, s, step).messages == o.messages + if step.Call? then [step.message] else []
  {
  }

  /**
   Over every run each called message is the data of exactly one of: a claim, a refusal, or a caller that is not
   yet at its claim; and there is no claim, refusal or caller besides.
   */
  lemma EveryCallOnce(s: State, steps: seq<Step>, t: State)
    requires Init(s) && FairPath(s, steps, t)
    ensures Observed(NOTHING, s, steps).messages == Called(steps) && LogOk(Observed(NOTHING, s, steps), t)
  {
    PathLog(NOTHING, s, steps, t);
    PathCalled(NOTHING, s, steps, t);
  }

  // ---------- a call by its own steps ----------

  predicate OwnStep(step: Step, p: nat) {
    step == Load(p) || step == Check(p) || step == CompareAndSwap(p)
  }

  /** Steps of caller p alone claim space for its message. */
  ghost predicate ClaimsByItself(s: State, p: nat, data: Bytes) {
    exists steps, t ::
      && Path(s, steps, t) && (forall i :: 0 <= i < |steps| ==> OwnStep(steps[i], p))
      && t.accepted == s.accepted + [data]
  }

  predicate HasRoom(m: Mem, length: nat) {
    m.ask + length < m.avail + m.size && m.ask + length <= CURSOR_LIMIT
  }

  lemma OwnFirst(s: State, step: Step, p: nat, data: Bytes)
    requires Enabled(s, step) && Honest(s, step) && OwnStep(step, p)
    requires Apply(s, step).accepted == s.accepted && ClaimsByItself(Apply(s, step), p, data)
    ensures ClaimsByItself(s, p, data)
  {
    var steps, t :| Path(Apply(s, step), steps, t) && (forall i :: 0 <= i < |steps| ==> OwnStep(steps[i], p))
                    && t.accepted == Apply(s, step).accepted + [data];
    assert ([step] + steps)[1..] == steps;
    assert Path(s, [step] + steps, t);
  }

  lemma OwnLast(s: State, p: nat)
    requires Enabled(s, CompareAndSwap(p)) && Honest(s, CompareAndSwap(p)) && s.producers[p].ask == s.mem.ask
    ensures ClaimsByItself(s, p, s.producers[p].data)
  {
    var step, t := CompareAndSwap(p), Apply(s, CompareAndSwap(p));
    assert Path(t, [], t);
    assert [step][1..] == [];
    assert Path(s, [step], t);
    assert forall i :: 0 <= i < |[step]| ==> OwnStep([step][i], p);
  }

  /** The next step of a caller that is not yet at its claim. */
  function NextOf(w: Producer, p: nat): Step
    requires !w.Copying?
  {
    match w
    case Asking(_) => Load(p)
    case Loaded(_, _) => Check(p)
    case Checked(_, _) => CompareAndSwap(p)
  }

  function Rank(w: Producer, ask: nat): nat {
    match w
    case Checked(_, a) => if a == ask then 0 else 3
    case Loaded(_, a) => if a == ask then 1 else 4
    case Asking(_) => 2
    case Copying(_, _, _) => 0
  }

  lemma NextEnabled(s: State, p: nat)
    requires Inv(s) && Before(s, p) && HasRoom(s.mem, |s.producers[p].data|)
    ensures Enabled(s, NextOf(s.producers[p], p)) && Honest(s, NextOf(s.producers[p], p))
    ensures s.mem.avail <= s.mem.ask && |s.producers[p].data| < TWO32
  {
    assert ProducerOk(s.mem, s.claims, p, s.producers[p]);
    TiledOrdered(s.claims, s.mem.avail, s.mem.ask);
  }

  /** The caller has come closer to its claim, by a step that changed nothing else. */
  predicate Closer(s: State, t: State, p: nat) {
    && Before(s, p) && Before(t, p) && t.mem == s.mem && t.accepted == s.accepted
    && t.producers[p].data == s.producers[p].data && !NoSpaceAtCheck(t, p)
    && Rank(t.producers[p], t.mem.ask) < Rank(s.producers[p], s.mem.ask)
  }

  lemma LoadCloser(s: State, p: nat)
    requires Enabled(s, Load(p)) && HasRoom(s.mem, |s.producers[p].data|)
    requires s.mem.avail <= s.mem.ask && |s.producers[p].data| < TWO32
    ensures Closer(s, Apply(s, Load(p)), p)
  {
    SpaceCheckIff(s.mem.ask, |s.producers[p].data|, s.mem.avail, s.mem.size);
  }

  lemma CheckCloser(s: State, p: nat)
    requires Enabled(s, Check(p)) && !NoSpaceAtCheck(s, p)
    ensures Closer(s, Apply(s, Check(p)), p)
  {
  }

  lemma RetryCloser(s: State, p: nat)
    requires Enabled(s, CompareAndSwap(p)) && s.producers[p].ask != s.mem.ask
    ensures Closer(s, Apply(s, CompareAndSwap(p)), p)
  {
  }

  /** The next step of a caller with room is the claim, or brings it closer. */
  lemma NextRank(s: State, p: nat)
    requires Inv(s) && Before(s, p) && HasRoom(s.mem, |s.producers[p].data|) && !NoSpaceAtCheck(s, p)
    ensures var w := s.producers[p];
            && Enabled(s, NextOf(w, p)) && Honest(s, NextOf(w, p))
            && ((w.Checked? && w.ask == s.mem.ask) || Closer(s, Apply(s, NextOf(w, p)), p))
  {
    NextEnabled(s, p);
    match s.producers[p] {
      case Asking(_) => LoadCloser(s, p);
      case Loaded(_, _) => CheckCloser(s, p);
      case Checked(_, ask) =>
        if ask != s.mem.ask {
          RetryCloser(s, p);
        }
    }
  }

  lemma {:induction false} ClaimOwn(s: State, p: nat)
    requires Inv(s) && Before(s, p) && HasRoom(s.mem, |s.producers[p].data|) && !NoSpaceAtCheck(s, p)
    ensures ClaimsByItself(s, p, s.producers[p].data)
    decreases Rank(s.producers[p], s.mem.ask)
  {
    var w := s.producers[p];
    var step := NextOf(w, p);
    NextRank(s, p);
    if w.Checked? && w.ask == s.mem.ask {
      OwnLast(s, p);
    } else {
      StepInv(s, step);
      ClaimOwn(Apply(s, step), p);
      OwnFirst(s, step, p, w.data);
    }
  }

  /** Caller p has no space to claim, or is gone, or is about to be told so. */
  predicate Barred(s: State, p: nat, length: nat) {
    p in s.producers ==>
      Before(s, p) && |s.producers[p].data| == length && (!HasRoom(s.mem, length) || NoSpaceAtCheck(s, p))
  }

  lemma StepBarred(s: State, step: Step, p: nat, length: nat)
    requires Inv(s) && Barred(s, p, length) && Enabled(s, step) && Honest(s, step) && OwnStep(step, p)
    ensures Barred(Apply(s, step), p, length) && Apply(s, step).accepted == s.accepted
  {
    assert ProducerOk(s.mem, s.claims, p, s.producers[p]);
  }

  lemma {:induction false} PathBarred(s: State, steps: seq<Step>, t: State, p: nat, length: nat)
    requires Inv(s) && Barred(s, p, length) && Path(s, steps, t)
    requires forall i :: 0 <= i < |steps| ==> OwnStep(steps[i], p)
    ensures t.accepted == s.accepted
    decreases |steps|
  {
    if steps != [] {
      assert OwnStep(steps[0], p);
      StepBarred(s, steps[0], p, length);
      StepInv(s, steps[0]);
      PathBarred(Apply(s, steps[0]), steps[1..], t, p, length);
    }
  }

  /**
   A caller that is not yet at its claim can make it by its own steps if and only if there is room at the
   cursor, and it has not loaded a cursor so old that its space check will report an overflow.
   */
  lemma ClaimsByItselfIff(t: State, p: nat)
    requires Reachable(t) && Before(t, p)
    ensures ClaimsByItself(t, p, t.producers[p].data) <==>
              HasRoom(t.mem, |t.producers[p].data|) && !NoSpaceAtCheck(t, p)
  {
    ReachableInv(t);
    var data := t.producers[p].data;
    if HasRoom(t.mem, |data|) && !NoSpaceAtCheck(t, p) {
      ClaimOwn(t, p);
    } else {
      forall steps, u | Path(t, steps, u) && forall i :: 0 <= i < |steps| ==> OwnStep(steps[i], p)
        ensures u.accepted != t.accepted + [data]
      {
        PathBarred(t, steps, u, p, |data|);
      }
    }
  }
}
