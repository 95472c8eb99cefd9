/** The lock-free rotation of sidecar/cluster.go: cursor and length in one atomic word. */
module Rotation {
  import opened Bits
  import opened Conver

  // ---------- the packed word ----------

  /** setCursorAndLenght: PackIsOr shows that this is the or of the shifted length and the cursor. */
  function Pack(cursor: nat, length: nat): nat {
    length * TWO32 + cursor
  }

  function CursorOf(d: nat): nat {
    d % TWO32
  }

  function LengthOf(d: nat): nat {
    d / TWO32
  }

  lemma {:induction false} OrCommutes(a: nat, b: nat)
    ensures BitOr(a, b) == BitOr(b, a)
    decreases a + b
  {
    if a > 0 && b > 0 {
      OrCommutes(a / 2, b / 2);
    }
  }

  lemma {:induction false} ShrIsDiv(x: nat, k: nat)
    ensures Shr(x, k) == x / Pow2(k)
    decreases k
  {
    if x == 0 {
      DivModUnique(0, Pow2(k), 0, 0);
    } else if k > 0 {
      ShrIsDiv(x / 2, k - 1);
      var p := Pow2(k - 1);
      var q, r := (x / 2) / p, (x / 2) % p;
      assert x == q * (2 * p) + (2 * r + x % 2);
      DivModUnique(x, 2 * p, q, 2 * r + x % 2);
    }
  }

  lemma Pow2Of32()
    ensures Pow2(32) == TWO32
  {
    assert Pow2(8) == 256;
    Pow2Add(8, 8);
    Pow2Add(16, 16);
  }

  /** The word is built and taken apart by shifts and an or, as in the source. */
  lemma PackIsOr(cursor: nat, length: nat)
    requires cursor < TWO32
    ensures BitOr(length * TWO32, cursor) == Pack(cursor, length)
    ensures Shr(Pack(cursor, length), 32) == LengthOf(Pack(cursor, length))
  {
    Pow2Of32();
    OrDisjoint(cursor, length, 32);
    OrCommutes(length * TWO32, cursor);
    ShrIsDiv(Pack(cursor, length), 32);
  }

  lemma PackRoundTrip(cursor: nat, length: nat)
    requires cursor < TWO32 && length < TWO32
    ensures Pack(cursor, length) < TWO64
    ensures CursorOf(Pack(cursor, length)) == cursor && LengthOf(Pack(cursor, length)) == length
  {
  }

  // ---------- the steps of next ----------

  /** resets: the callers that have found the cursor past the end and are about to store zero. */
  datatype State = State(word: nat, length: nat, resets: map<nat, nat>, returned: seq<nat>)

  datatype Step = Add(p: nat) | Reset(p: nat)

  ghost predicate Init(s: State) {
    0 < s.length < TWO32 && s.word == Pack(0, s.length) && s.resets == map[] && s.returned == []
  }

  predicate Enabled(s: State, step: Step) {
    match step
    case Add(p) => p !in s.resets
    case Reset(p) => p in s.resets
  }

  function Apply(s: State, step: Step): State
    requires Enabled(s, step)
  {
    match step
    case Add(p) =>
      var d := U64(s.word + 1);
      if CursorOf(d) >= LengthOf(d) then s.(word := d, resets := s.resets[p := LengthOf(d)])
      else s.(word := d, returned := s.returned + [CursorOf(d)])
    case Reset(p) =>
      s.(word := Pack(0, s.resets[p]), resets := s.resets - {p}, returned := s.returned + [0])
  }

  /** Fewer than 2^32 - length callers have yet to store their reset. */
  ghost predicate Room(s: State) {
    |s.resets| + s.length < TWO32
  }

  ghost predicate Path(s: State, steps: seq<Step>, t: State)
    decreases |steps|
  {
    if steps == [] then s == t
    else Enabled(s, steps[0]) && Path(Apply(s, steps[0]), steps[1..], t)
  }

  ghost predicate RoomyPath(s: State, steps: seq<Step>, t: State)
    decreases |steps|
  {
    if steps == [] then s == t
    else Enabled(s, steps[0]) && (steps[0].Add? ==> Room(s)) && RoomyPath(Apply(s, steps[0]), steps[1..], t)
  }

  /** The packed length is the bucket's, the cursor is bounded by the pending resets, indices are in range. */
  ghost predicate Inv(s: State) {
    && 0 < s.length < TWO32 && s.word < TWO64
    && LengthOf(s.word) == s.length && CursorOf(s.word) <= s.length - 1 + |s.resets|
    && (forall p :: p in s.resets ==> s.resets[p] == s.length)
    && forall k :: 0 <= k < |s.returned| ==> s.returned[k] < s.length
  }

  lemma NextWord(word: nat)
    requires word < TWO64
    ensures CursorOf(word) + 1 < TWO32 ==>
              CursorOf(U64(word + 1)) == CursorOf(word) + 1 && LengthOf(U64(word + 1)) == LengthOf(word)
    ensures CursorOf(word) + 1 == TWO32 ==>
              CursorOf(U64(word + 1)) == 0 && LengthOf(U64(word + 1)) != LengthOf(word)
  {
    var c, l := CursorOf(word), LengthOf(word);
    assert word == l * TWO32 + c;
    if c + 1 < TWO32 {
      assert U64(word + 1) == l * TWO32 + (c + 1);
    } else if l + 1 < TWO32 {
      assert U64(word + 1) == (l + 1) * TWO32;
    }
  }

  lemma StepInv(s: State, step: Step)
    requires Inv(s) && Enabled(s, step) && (step.Add? ==> Room(s))
    ensures Inv(Apply(s, step)) && Apply(s, step).length == s.length
  {
    match step
    case Add(p) =>
      NextWord(s.word);
    case Reset(p) =>
      ResetInv(s, p);
  }

  lemma ResetInv(s: State, p: nat)
    requires Inv(s) && p in s.resets
    ensures Inv(s.(word := Pack(0, s.resets[p]), resets := s.resets - {p}, returned := s.returned + [0]))
  {
    PackRoundTrip(0, s.length);
    assert s.resets == (s.resets - {p})[p := s.length];
  }

  /** In every interleaving with room the length never changes and every index is in range. */
  lemma {:induction false} RotationInv(s: State, steps: seq<Step>, t: State)
    requires Inv(s) && RoomyPath(s, steps, t)
    ensures Inv(t) && t.length == s.length
    decreases |steps|
  {
    if steps != [] {
      StepInv(s, steps[0]);
      RotationInv(Apply(s, steps[0]), steps[1..], t);
    }
  }

  lemma RotationSafe(s: State, steps: seq<Step>, t: State)
    requires Init(s) && RoomyPath(s, steps, t)
    ensures LengthOf(t.word) == s.length && CursorOf(t.word) <= s.length - 1 + |t.resets|
    ensures forall k :: 0 <= k < |t.returned| ==> t.returned[k] < s.length
  {
    PackRoundTrip(0, s.length);
    RotationInv(s, steps, t);
  }

  /** An addition keeps the length exactly if the cursor half does not overflow. */
  lemma AddKeepsLengthIff(s: State, p: nat)
    requires Inv(s) && Enabled(s, Add(p))
    ensures LengthOf(Apply(s, Add(p)).word) == s.length <==> CursorOf(s.word) + 1 < TWO32
  {
    NextWord(s.word);
  }

  lemma {:induction false} PathSnoc(s: State, steps: seq<Step>, u: State, step: Step)
    requires Path(s, steps, u) && Enabled(u, step)
    ensures Path(s, steps + [step], Apply(u, step))
    decreases |steps|
  {
    if steps == [] {
      assert Path(Apply(u, step), [], Apply(u, step));
      assert ([] + [step])[1..] == [];
    } else {
      PathSnoc(Apply(s, steps[0]), steps[1..], u, step);
      assert (steps + [step])[1..] == steps[1..] + [step];
    }
  }

  /** The addition of caller n on top of n stalled ones. */
  lemma StalledStep(u: State, n: nat)
    requires Inv(u) && CursorOf(u.word) == n && n + 1 < TWO32
    requires |u.resets| == (if n < u.length then 0 else n - u.length + 1) && forall p :: p in u.resets ==> p < n
    ensures Enabled(u, Add(n))
    ensures var t := Apply(u, Add(n));
            && Inv(t) && t.length == u.length && CursorOf(t.word) == n + 1
            && |t.resets| == (if n + 1 < t.length then 0 else n + 1 - t.length + 1)
            && forall p :: p in t.resets ==> p < n + 1
  {
    assert n !in u.resets;
    StepInv(u, Add(n));
    NextWord(u.word);
  }

  /** n additions by callers 0 to n - 1, none of which comes to its reset. */
  lemma {:induction false} Stalled(s: State, n: nat) returns (steps: seq<Step>, t: State)
    requires Init(s) && n < TWO32
    ensures Path(s, steps, t) && Inv(t) && t.length == s.length && CursorOf(t.word) == n
    ensures |t.resets| == (if n < s.length then 0 else n - s.length + 1) && forall p :: p in t.resets ==> p < n
  {
    if n == 0 {
      steps, t := [], s;
      PackRoundTrip(0, s.length);
    } else {
      var before, u := Stalled(s, n - 1);
      StalledStep(u, n - 1);
      PathSnoc(s, before, u, Add(n - 1));
      steps, t := before + [Add(n - 1)], Apply(u, Add(n - 1));
    }
  }

  /** The room is needed: with 2^32 - length callers stalled before their reset, another call changes the length. */
  lemma LengthLost(s: State) returns (steps: seq<Step>, t: State, p: nat)
    requires Init(s)
    ensures Path(s, steps, t) && |t.resets| + s.length == TWO32
    ensures Enabled(t, Add(p)) && LengthOf(Apply(t, Add(p)).word) != s.length
  {
    steps, t := Stalled(s, TWO32 - 1);
    p := TWO32;
    AddKeepsLengthIff(t, p);
  }

  // ---------- one caller alone ----------

  /** The index the next call returns when it runs alone; the cursor is left there. */
  function NextIndex(cursor: nat, length: nat): (i: nat)
    requires length > 0
    ensures i < length
  {
    if cursor + 1 >= length then 0 else cursor + 1
  }

  /** The index call number k returns, counting from 0. */
  function SoloIndex(cursor: nat, length: nat, k: nat): (i: nat)
    requires length > 0
    ensures i < length
  {
    if k == 0 then NextIndex(cursor, length) else NextIndex(SoloIndex(cursor, length, k - 1), length)
  }

  lemma {:induction false} SoloAt(cursor: nat, length: nat, k: nat)
    requires cursor < length && k < length
    ensures SoloIndex(cursor, length, k) == if cursor + 1 + k < length then cursor + 1 + k else cursor + 1 + k - length
  {
    if k > 0 {
      SoloAt(cursor, length, k - 1);
    }
  }

  /** As many calls as the bucket is long return every position exactly once. */
  lemma EachPositionOnce(cursor: nat, length: nat, position: nat) returns (k: nat)
    requires cursor < length && position < length
    ensures k < length && SoloIndex(cursor, length, k) == position
    ensures forall j: nat :: j < length && SoloIndex(cursor, length, j) == position ==> j == k
  {
    k := if position > cursor then position - cursor - 1 else position + length - cursor - 1;
    SoloAt(cursor, length, k);
    forall j: nat | j < length && SoloIndex(cursor, length, j) == position
      ensures j == k
    {
      SoloAt(cursor, length, j);
    }
  }

  /** What an addition does: it returns the next position, or leaves the caller before its reset. */
  lemma AddReturns(s: State, p: nat)
    requires Inv(s) && Enabled(s, Add(p)) && Room(s)
    ensures var t := Apply(s, Add(p));
            var next := CursorOf(s.word) + 1;
            && CursorOf(t.word) == next
            && if next < s.length then t.returned == s.returned + [next] && t.resets == s.resets
               else t.returned == s.returned && t.resets == s.resets[p := s.length]
  {
    NextWord(s.word);
  }

  /** A call that nobody interrupts: the addition and, if it has to, the reset. */
  function CallAlone(s: State, p: nat): State
    requires p !in s.resets
  {
    var t := Apply(s, Add(p));
    if p in t.resets then Apply(t, Reset(p)) else t
  }

  /** It returns the index behind the cursor, at which it leaves the cursor. */
  lemma CallAloneReturns(s: State, p: nat)
    requires Inv(s) && s.resets == map[]
    ensures var t := CallAlone(s, p);
            && Inv(t) && t.resets == map[] && t.length == s.length
            && CursorOf(t.word) == NextIndex(CursorOf(s.word), s.length)
            && t.returned == s.returned + [NextIndex(CursorOf(s.word), s.length)]
  {
    AddReturns(s, p);
    StepInv(s, Add(p));
    var u := Apply(s, Add(p));
    if p in u.resets {
      StepInv(u, Reset(p));
      PackRoundTrip(0, s.length);
      assert u.resets - {p} == map[];
    }
  }

  /** The indices of n calls, one after the other. */
  function SoloIndices(cursor: nat, length: nat, n: nat): (r: seq<nat>)
    requires length > 0
    ensures |r| == n && forall k :: 0 <= k < n ==> r[k] == SoloIndex(cursor, length, k)
  {
    if n == 0 then [] else SoloIndices(cursor, length, n - 1) + [SoloIndex(cursor, length, n - 1)]
  }

  /** n calls by p, none of which is interrupted. */
  function CallsAlone(s: State, p: nat, n: nat): State
    requires p !in s.resets
    decreases n
  {
    if n == 0 then s
    else
      var u := CallsAlone(s, p, n - 1);
      if p in u.resets then u else CallAlone(u, p)
  }

  ghost predicate Quiet(s: State, length: nat) {
    Inv(s) && s.resets == map[] && s.length == length
  }

  lemma {:induction false} CallsAloneReturn(s: State, p: nat, n: nat)
    requires Quiet(s, s.length)
    ensures var t := CallsAlone(s, p, n);
            && Quiet(t, s.length) && t.returned == s.returned + SoloIndices(CursorOf(s.word), s.length, n)
            && CursorOf(t.word) == if n == 0 then CursorOf(s.word) else SoloIndex(CursorOf(s.word), s.length, n - 1)
    decreases n
  {
    if n > 0 {
      CallsAloneReturn(s, p, n - 1);
      CallAloneReturns(CallsAlone(s, p, n - 1), p);
    }
  }

  /** As many uninterrupted calls as the bucket is long return each of its positions exactly once. */
  lemma RotationIsFair(s: State, p: nat, position: nat) returns (k: nat)
    requires Inv(s) && s.resets == map[] && position < s.length
    ensures var t := CallsAlone(s, p, s.length);
            && |t.returned| == |s.returned| + s.length && k < s.length
            && var news := t.returned[|s.returned|..];
               forall j :: 0 <= j < |news| ==> (news[j] == position <==> j == k)
  {
    CallsAloneReturn(s, p, s.length);
    k := EachPositionOnce(CursorOf(s.word), s.length, position);
    var news := SoloIndices(CursorOf(s.word), s.length, s.length);
    assert CallsAlone(s, p, s.length).returned[|s.returned|..] == news;
  }

  /** These calls are runs of the steps. */
  lemma {:induction false} CallsAreSteps(s: State, p: nat, n: nat) returns (steps: seq<Step>)
    requires p !in s.resets
    ensures Path(s, steps, CallsAlone(s, p, n))
    decreases n
  {
    steps := [];
    if n > 0 {
      steps := CallsAreSteps(s, p, n - 1);
      var u := CallsAlone(s, p, n - 1);
      if p !in u.resets {
        var v := Apply(u, Add(p));
        PathSnoc(s, steps, u, Add(p));
        steps := steps + [Add(p)];
        if p in v.resets {
          PathSnoc(s, steps, v, Reset(p));
          steps := steps + [Reset(p)];
        }
      }
    }
  }
}
