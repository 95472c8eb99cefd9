/**
 Runs of the ring put together from whole calls: a write and a read without interference, and two
 interleavings in which the ring does not do what a queue would.
 */
module RingRuns {
  import opened Bits
  import opened Conver
  import opened Slices
  import opened RingMemory
  import opened RingProtocol
  import opened RingSafety
  import opened RingTheorems

  function WriteMem(m: Mem, data: Bytes): Mem
    requires 0 < m.size == |m.submit|
  {
    m.(ask := m.ask + |data|,
       ring := PutBytes(m.ring, m.ask, data),
       submit := m.submit[Index(m.ask + |data|, m.size) := 1])
  }

  function ReleaseMem(m: Mem, end: nat): Mem
    requires 0 < m.size == |m.submit|
  {
    m.(avail := end, submit := m.submit[Index(end, m.size) := 0])
  }

  /** The byte numbers below k. */
  function Upto(k: nat): (s: set<nat>)
    ensures forall i: nat :: i in s <==> i < k
  {
    if k == 0 then {} else Upto(k - 1) + {k - 1}
  }

  /** A run of enabled, fair steps; nothing is assumed about the head word. */
  ghost predicate FairPath(s: State, steps: seq<Step>, t: State)
    decreases |steps|
  {
    if steps == [] then s == t
    else Enabled(s, steps[0]) && FairCall(s, steps[0]) && FairPath(Apply(s, steps[0]), steps[1..], t)
  }

  ghost predicate Leads(s: State, t: State) {
    exists steps :: FairPath(s, steps, t)
  }

  lemma {:induction false} FairPathJoin(s: State, a: seq<Step>, t: State, b: seq<Step>, u: State)
    requires FairPath(s, a, t) && FairPath(t, b, u)
    ensures FairPath(s, a + b, u)
    decreases |a|
  {
    if a == [] {
      assert a + b == b;
    } else {
      assert (a + b)[1..] == a[1..] + b;
      FairPathJoin(Apply(s, a[0]), a[1..], t, b, u);
    }
  }

  lemma LeadsJoin(s: State, t: State, u: State)
    requires Leads(s, t) && Leads(t, u)
    ensures Leads(s, u)
  {
    var a :| FairPath(s, a, t);
    var b :| FairPath(t, b, u);
    FairPathJoin(s, a, t, b, u);
  }

  lemma LeadsStep(s: State, step: Step, t: State)
    requires Enabled(s, step) && FairCall(s, step) && t == Apply(s, step)
    ensures Leads(s, t)
  {
    assert [step][1..] == [];
    assert FairPath(t, [], t);
    assert FairPath(s, [step], t);
  }

  /** One more step of a run. */
  lemma Advance(s0: State, s: State, step: Step, t: State)
    requires Leads(s0, s) && Inv(s) && Enabled(s, step) && Honest(s, step) && t == Apply(s, step)
    ensures Leads(s0, t) && Inv(t)
  {
    LeadsStep(s, step, t);
    LeadsJoin(s0, s, t);
    StepInv(s, step);
  }

  lemma Stay(s: State)
    ensures Leads(s, s)
  {
    assert FairPath(s, [], s);
  }

  // ---------- a write without interference ----------

  ghost predicate CanWrite(s: State, p: nat, data: Bytes) {
    && Inv(s) && p !in s.producers && LengthPrefixed(data)
    && s.mem.ask + |data| < s.mem.avail + s.mem.size && s.mem.ask + |data| <= CURSOR_LIMIT
  }

  /** The claim has been made and the first k bytes are copied. */
  function Partial(s: State, p: nat, data: Bytes, k: nat): State
    requires k <= |data|
  {
    s.(mem := s.mem.(ask := s.mem.ask + |data|, ring := PutBytes(s.mem.ring, s.mem.ask, data[..k])),
       producers := s.producers[p := Copying(data, s.mem.ask, Upto(k))],
       claims := s.claims + [Claim(s.mem.ask, data, p, Upto(k), Writing)],
       accepted := s.accepted + [data])
  }

  function Written(s: State, p: nat, data: Bytes): State
    requires 0 < s.mem.size == |s.mem.submit|
  {
    s.(mem := WriteMem(s.mem, data),
       claims := s.claims + [Claim(s.mem.ask, data, p, Upto(|data|), Flagged)],
       accepted := s.accepted + [data])
  }

  function At(s: State, p: nat, w: Producer): State {
    s.(producers := s.producers[p := w])
  }

  lemma AtAgain(s: State, p: nat, w: Producer, v: Producer)
    ensures At(At(s, p, w), p, v) == At(s, p, v)
  {
    assert s.producers[p := w][p := v] == s.producers[p := v];
  }

  lemma ClaimAlone(s: State, p: nat, data: Bytes)
    requires CanWrite(s, p, data)
    ensures Leads(s, Partial(s, p, data, 0)) && Inv(Partial(s, p, data, 0))
  {
    var w1, w2, w3 := Asking(data), Loaded(data, s.mem.ask), Checked(data, s.mem.ask);
    var s1, s2, s3 := At(s, p, w1), At(s, p, w2), At(s, p, w3);
    Stay(s);
    Advance(s, s, Call(p, data), s1);
    AtAgain(s, p, w1, w2);
    Advance(s, s1, Load(p), s2);
    AtAgain(s, p, w2, w3);
    CheckPasses(s2, p, data);
    Advance(s, s2, Check(p), s3);
    ClaimState(s, p, data);
    Advance(s, s3, CompareAndSwap(p), Partial(s, p, data, 0));
  }

  lemma CheckPasses(s: State, p: nat, data: Bytes)
    requires Holds(s.mem, s.claims) && Enabled(s, Check(p)) && s.producers[p] == Loaded(data, s.mem.ask)
    requires |data| < TWO32 && s.mem.ask + |data| < s.mem.avail + s.mem.size
    ensures Apply(s, Check(p)) == At(s, p, Checked(data, s.mem.ask))
  {
    SpaceCheckIff(s.mem.ask, |data|, s.mem.avail, s.mem.size);
    TiledOrdered(s.claims, s.mem.avail, s.mem.ask);
  }

  lemma ClaimState(s: State, p: nat, data: Bytes)
    requires 0 < s.mem.size == |s.mem.ring| == |s.mem.submit| && s.mem.ask + |data| <= CURSOR_LIMIT
    ensures var s3 := At(s, p, Checked(data, s.mem.ask));
            Enabled(s3, CompareAndSwap(p)) && Apply(s3, CompareAndSwap(p)) == Partial(s, p, data, 0)
  {
    var s3 := At(s, p, Checked(data, s.mem.ask));
    assert PutBytes(s.mem.ring, s.mem.ask, data[..0]) == s.mem.ring;
    assert U64(s.mem.ask + |data|) == s.mem.ask + |data|;
    AtAgain(s, p, Checked(data, s.mem.ask), Copying(data, s.mem.ask, {}));
    assert s3.producers[p := Copying(data, s.mem.ask, {})] == s.producers[p := Copying(data, s.mem.ask, {})];
  }

  ghost predicate StartsBefore(claims: seq<Claim>, ask: nat) {
    forall i :: 0 <= i < |claims| ==> claims[i].start < ask
  }

  lemma CopyState(s: State, p: nat, data: Bytes, k: nat)
    requires 0 < s.mem.size == |s.mem.ring| == |s.mem.submit| && k < |data| <= s.mem.size
    requires StartsBefore(s.claims, s.mem.ask)
    ensures var a := Partial(s, p, data, k);
            Enabled(a, CopyByte(p, k)) && Apply(a, CopyByte(p, k)) == Partial(s, p, data, k + 1)
  {
    var a, b := Partial(s, p, data, k), Partial(s, p, data, k + 1);
    PutBytesNext(s.mem.ring, s.mem.ask, data, k);
    assert Upto(k + 1) == Upto(k) + {k};
    var t := Apply(a, CopyByte(p, k));
    assert t.claims == b.claims;
    assert t.producers == b.producers;
  }

  lemma SubmitState(s: State, p: nat, data: Bytes)
    requires 0 < s.mem.size == |s.mem.ring| == |s.mem.submit| && |data| <= s.mem.size && p !in s.producers
    requires StartsBefore(s.claims, s.mem.ask)
    ensures var a := Partial(s, p, data, |data|);
            Enabled(a, Submit(p)) && Apply(a, Submit(p)) == Written(s, p, data)
  {
    var a, b := Partial(s, p, data, |data|), Written(s, p, data);
    assert data[..|data|] == data;
    var t := Apply(a, Submit(p));
    assert t.claims == b.claims;
    assert t.producers == b.producers;
  }

  /** A run from s copies the first k bytes. */
  ghost predicate Copies(s: State, p: nat, data: Bytes, k: nat) {
    k <= |data| && Leads(s, Partial(s, p, data, k)) && Inv(Partial(s, p, data, k))
  }

  lemma {:induction false} CopyAllAlone(s: State, p: nat, data: Bytes, k: nat)
    requires 0 < s.mem.size == |s.mem.ring| == |s.mem.submit| && k <= |data| <= s.mem.size
    requires StartsBefore(s.claims, s.mem.ask)
    ensures Copies(s, p, data, 0) ==> Copies(s, p, data, k)
  {
    if k != 0 {
      CopyAllAlone(s, p, data, k - 1);
      CopyNext(s, p, data, k);
    }
  }

  lemma CopyNext(s: State, p: nat, data: Bytes, k: nat)
    requires 0 < s.mem.size == |s.mem.ring| == |s.mem.submit| && 0 < k <= |data| <= s.mem.size
    requires StartsBefore(s.claims, s.mem.ask)
    ensures Copies(s, p, data, k - 1) ==> Copies(s, p, data, k)
  {
    if Copies(s, p, data, k - 1) {
      CopyState(s, p, data, k - 1);
      Advance(s, Partial(s, p, data, k - 1), CopyByte(p, k - 1), Partial(s, p, data, k));
    }
  }

  /** Run alone, the steps of one call put the whole message into the ring and flag it. */
  lemma WriteAlone(s: State, p: nat, data: Bytes)
    requires CanWrite(s, p, data)
    ensures Leads(s, Written(s, p, data)) && Inv(Written(s, p, data))
  {
    TiledOrdered(s.claims, s.mem.avail, s.mem.ask);
    ClaimAlone(s, p, data);
    CopyAllAlone(s, p, data, |data|);
    SubmitState(s, p, data);
    Advance(s, Partial(s, p, data, |data|), Submit(p), Written(s, p, data));
  }

  // ---------- a read without interference ----------

  function Read(s: State): State
    requires s.claims != [] && 0 < s.mem.size == |s.mem.submit|
  {
    s.(mem := ReleaseMem(s.mem, s.claims[0].End()),
       claims := s.claims[1..],
       delivered := s.delivered + [s.claims[0].data])
  }

  /** Run alone, a read of a finished message and its release hand it out and remove it. */
  lemma ReadAlone(s: State)
    requires Inv(s) && s.consumer.Idle? && s.claims != [] && s.claims[0].status == Flagged
    ensures Leads(s, Read(s)) && Inv(Read(s))
  {
    FlaggedHeadCanBeRead(s);
    var word := LengthWord(s.mem);
    var s1 := Apply(s, Decode(word));
    assert Path(s1, [], s1);
    FlaggedHeadIsRead(s, word, [], s1);
    Stay(s);
    Advance(s, s, Decode(word), s1);
    var s2 := Apply(s1, Take);
    Advance(s, s1, Take, s2);
    var s3 := Apply(s2, Clear);
    Advance(s, s2, Clear, s3);
    Advance(s, s3, Release, Read(s));
  }

  /** One message goes through an empty ring. */
  lemma RoundTrip(s: State, p: nat, data: Bytes)
    requires CanWrite(s, p, data) && s.claims == [] && s.consumer.Idle?
    ensures var t := Read(Written(s, p, data));
            && Leads(s, t) && Inv(t) && t.claims == [] && t.consumer.Idle?
            && t.producers == s.producers && t.rejected == s.rejected
            && t.mem.size == s.mem.size && t.mem.ask == t.mem.avail == s.mem.ask + |data|
            && t.accepted == s.accepted + [data] && t.delivered == s.delivered + [data]
            && t.mem.ring == PutBytes(s.mem.ring, s.mem.ask, data)
  {
    WriteAlone(s, p, data);
    ReadAlone(Written(s, p, data));
    LeadsJoin(s, Written(s, p, data), Read(Written(s, p, data)));
  }

  // ---------- two interleavings that break the queue ----------

  /**
   An overflow is reported although the ring is empty: a producer loads askCursor, another message
   is written and released, and the first producer's subtraction wraps around.
   */
  lemma OverflowOfEmptyRing(s: State, long: Bytes, short: Bytes) returns (t: State)
    requires Init(s) && LengthPrefixed(long) && LengthPrefixed(short) && |short| < |long| < s.mem.size < TWO32
    ensures Leads(s, t) && t.claims == [] && t.mem.ask == t.mem.avail && t.rejected == [short]
  {
    InitInv(s);
    var w := Loaded(short, 0);
    var a, b := At(s, 2, Asking(short)), At(s, 2, w);
    Stay(s);
    Advance(s, s, Call(2, short), a);
    AtAgain(s, 2, Asking(short), w);
    Advance(s, a, Load(2), b);
    RoundTrip(b, 1, long);
    var d := Read(Written(b, 1, long));
    assert d.producers[2] == w;
    t := Apply(d, Check(2));
    RejectedIff(d, 2);
    LeadsJoin(s, b, d);
    Advance(s, d, Check(2), t);
  }

  /** Two eight-byte messages fill a lap of a sixteen-byte ring and leave their bytes behind. */
  lemma FirstLap(s: State, a: Bytes, b: Bytes) returns (t: State)
    requires Init(s) && s.mem.size == 16 && LengthPrefixed(a) && LengthPrefixed(b) && |a| == |b| == 8
    ensures Leads(s, t) && Inv(t) && t.claims == [] && t.consumer.Idle? && t.producers == map[]
    ensures t.mem.size == 16 && t.mem.ask == t.mem.avail == 16
    ensures t.accepted == t.delivered == [a, b]
    ensures |t.mem.ring| == 16 && forall k :: 0 <= k < 4 ==> t.mem.ring[k] == a[k]
  {
    InitInv(s);
    Stay(s);
    var u := HalfLap(s, s, a);
    t := HalfLap(s, u, b);
    LapBytes(s.mem.ring, a, b);
  }

  lemma HalfLap(s0: State, s: State, data: Bytes) returns (t: State)
    requires Leads(s0, s) && Inv(s) && s.claims == [] && s.consumer.Idle? && s.producers == map[]
    requires s.mem.size == 16 && s.mem.ask == s.mem.avail <= 8 && LengthPrefixed(data) && |data| == 8
    ensures Leads(s0, t) && Inv(t) && t.claims == [] && t.consumer.Idle? && t.producers == map[]
    ensures t.mem.size == 16 && t.mem.ask == t.mem.avail == s.mem.ask + 8
    ensures t.accepted == s.accepted + [data] && t.delivered == s.delivered + [data]
    ensures |s.mem.ring| == 16 && t.mem.ring == PutBytes(s.mem.ring, s.mem.ask, data)
  {
    RoundTrip(s, 1, data);
    t := Read(Written(s, 1, data));
    LeadsJoin(s0, s, t);
  }

  lemma LapBytes(ring: Bytes, a: Bytes, b: Bytes)
    requires |ring| == 16 && |a| == |b| == 8
    ensures var r := PutBytes(PutBytes(ring, 0, a), 8, b);
            forall k :: 0 <= k < 4 ==> r[k] == a[k]
  {
    var r0 := PutBytes(ring, 0, a);
    PutBytesAt(ring, 0, a);
    PutBytesAt(r0, 8, b);
    forall k: nat | k < 4
      ensures PutBytes(r0, 8, b)[k] == a[k]
    {
      assert Index(0 + k, 16) == k;
    }
  }

  /** A four-byte message at cursor 20 leaves the four bytes at cursor 16 alone. */
  lemma StaleWord(m: Mem, d: Bytes)
    requires m.size == 16 == |m.ring| && |d| == 4
    ensures GetBytes(m.(ring := PutBytes(m.ring, 20, d)), 16, 20) == m.ring[..4]
  {
    var m' := m.(ring := PutBytes(m.ring, 20, d));
    PutBytesAt(m.ring, 20, d);
    GetBytesAt(m', 16, 20);
    forall k: nat | k < 4
      ensures GetBytes(m', 16, 20)[k] == m.ring[k]
    {
      assert Index(16 + k, 16) == k;
    }
  }

  /**
   The messages read need not be the accepted ones in order: with one claim unfilled at the head, the
   length word left there by an earlier lap points at the flag of a later claim.
   */
  lemma StaleHeadBreaksFifo(s: State, a: Bytes, b: Bytes, c: Bytes, d: Bytes) returns (t: State)
    requires Init(s) && s.mem.size == 16
    requires LengthPrefixed(a) && LengthPrefixed(b) && |a| == |b| == 8
    requires LengthPrefixed(c) && LengthPrefixed(d) && |c| == |d| == 4
    ensures Leads(s, t) && t.accepted == [a, b, c, d]
    ensures |t.delivered| == 3 && |t.delivered[2]| == 8
    ensures !(t.delivered <= t.accepted)
  {
    var u := FirstLap(s, a, b);
    ClaimAlone(u, 2, c);
    var v := Partial(u, 2, c, 0);
    WriteAlone(v, 1, d);
    var w := Written(v, 1, d);
    LeadsJoin(s, u, v);
    LeadsJoin(s, v, w);
    StaleHeadState(u, v, w, a, c, d);
    var x := Apply(w, Decode(LengthWord(w.mem)));
    LeadsStep(w, Decode(LengthWord(w.mem)), x);
    t := Apply(x, Take);
    LeadsStep(x, Take, t);
    GetBytesAt(x.mem, 16, 24);
    LeadsJoin(s, w, x);
    LeadsJoin(s, x, t);
    assert t.accepted[2] == c;
  }

  lemma StaleHeadState(u: State, v: State, w: State, a: Bytes, c: Bytes, d: Bytes)
    requires u.mem.size == 16 == |u.mem.ring| == |u.mem.submit| && u.mem.ask == u.mem.avail == 16
    requires LengthPrefixed(a) && |a| == 8 && |c| == |d| == 4
    requires forall k :: 0 <= k < 4 ==> u.mem.ring[k] == a[k]
    requires v == Partial(u, 2, c, 0) && w == Written(v, 1, d)
    ensures |w.mem.ring| == 16 == w.mem.size && w.mem.ask == 24 && w.mem.avail == 16
    ensures LengthWord(w.mem) == 8 && w.mem.submit[Index(24, 16)] == 1
  {
    assert PutBytes(u.mem.ring, 16, c[..0]) == u.mem.ring;
    StaleWord(u.mem, d);
    GetBytesAt(w.mem, 16, 20);
    assert w.mem.ring == PutBytes(u.mem.ring, 20, d);
    assert GetBytes(w.mem, 16, 20) == GetBytes(u.mem.(ring := PutBytes(u.mem.ring, 20, d)), 16, 20);
    assert u.mem.ring[..4] == a[..4];
  }

  const EIGHT: Bytes := [8, 0, 0, 0, 1, 2, 3, 4]
  const FOUR: Bytes := [4, 0, 0, 0]

  /** Such messages and such a ring exist. */
  lemma BreakingMessages() returns (s: State)
    ensures Init(s) && s.mem.size == 16
    ensures LengthPrefixed(EIGHT) && |EIGHT| == 8 && LengthPrefixed(FOUR) && |FOUR| == 4
  {
    assert Pow2(4) == 16;
    s := State(Mem(16, Zeros(16), Zeros(16), 0, 0), map[], Idle, [], [], [], []);
  }
}
