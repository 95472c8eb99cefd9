/** What every step of the ring keeps, and what that means for messages and slices. */
module RingSafety {
  import opened Bits
  import opened Conver
  import opened RingMemory
  import opened RingProtocol

  lemma InitInv(s: State)
    requires Init(s)
    ensures Inv(s)
  {
    IndexIsMod(0, s.mem.size);
  }

  /** A step inside one producer that makes no claim. */
  lemma ProducerMovesInv(s: State, t: State, p: nat, w: Producer)
    requires Inv(s) && !w.Copying?
    requires p in s.producers ==> !s.producers[p].Copying?
    requires t == s.(producers := s.producers[p := w]) && ProducerOk(s.mem, s.claims, p, w)
    ensures Inv(t)
  {
  }

  lemma ProducerLeavesInv(s: State, t: State, p: nat)
    requires Inv(s) && p in s.producers && !s.producers[p].Copying?
    requires t.mem == s.mem && t.producers == s.producers - {p} && t.claims == s.claims
    requires t.consumer == s.consumer && t.accepted == s.accepted && t.delivered == s.delivered
    ensures Inv(t)
  {
  }

  /** A passed space check bounds the claim's end, even when the loaded cursor is stale. */
  lemma SpaceCheck(ask: nat, length: nat, avail: nat, size: nat)
    requires ask <= CURSOR_LIMIT && length < TWO32 && avail <= CURSOR_LIMIT
    requires U64(U64(ask + length) - avail) < size
    ensures ask + length < avail + size
  {
    assert U64(ask + length) == ask + length;
    if ask + length >= avail {
      assert U64(ask + length - avail) == ask + length - avail;
    }
  }

  lemma CheckInv(s: State, p: nat)
    requires Inv(s) && Enabled(s, Check(p))
    ensures Inv(Apply(s, Check(p)))
  {
    var w := s.producers[p];
    assert ProducerOk(s.mem, s.claims, p, w);
    CheckShape(s, p);
    if HasSpace(w.ask, |w.data|, s.mem) {
      SpaceCheck(w.ask, |w.data|, s.mem.avail, s.mem.size);
      ProducerMovesInv(s, Apply(s, Check(p)), p, Checked(w.data, w.ask));
    } else {
      ProducerLeavesInv(s, Apply(s, Check(p)), p);
    }
  }

  /** The space check of the source, with its wrapping subtraction. */
  predicate HasSpace(ask: nat, length: nat, m: Mem) {
    U64(U64(ask + length) - m.avail) < m.size
  }

  lemma CheckShape(s: State, p: nat)
    requires Enabled(s, Check(p))
    ensures var w := s.producers[p];
            var t := Apply(s, Check(p));
            if HasSpace(w.ask, |w.data|, s.mem) then t == s.(producers := s.producers[p := Checked(w.data, w.ask)])
            else t == s.(producers := s.producers - {p}, rejected := s.rejected + [w.data])
  {
  }

  /** A copying producer works on exactly one claim. */
  lemma FindClaim(s: State, p: nat) returns (j: nat)
    requires Inv(s) && p in s.producers && s.producers[p].Copying?
    ensures j < |s.claims| && Writes(s.claims[j], p, s.producers[p])
    ensures forall i :: 0 <= i < |s.claims| && s.claims[i].start == s.producers[p].start ==> i == j
  {
    assert ProducerOk(s.mem, s.claims, p, s.producers[p]);
    j :| 0 <= j < |s.claims| && Writes(s.claims[j], p, s.producers[p]);
    TiledOrdered(s.claims, s.mem.avail, s.mem.ask);
  }

  /** Other producers do not notice a change to claim j, or a claim made behind it. */
  lemma OthersKeep(m: Mem, claims: seq<Claim>, m': Mem, claims': seq<Claim>, q: nat, w: Producer, j: nat)
    requires ProducerOk(m, claims, q, w)
    requires m'.size == m.size && m.ask <= m'.ask && m.avail <= m'.avail
    requires |claims| <= |claims'|
    requires forall i :: 0 <= i < |claims| && i != j ==> claims'[i] == claims[i]
    requires j < |claims| ==> claims[j].status != Writing || claims[j].writer != q
    ensures ProducerOk(m', claims', q, w)
  {
    if w.Copying? {
      var i :| 0 <= i < |claims| && Writes(claims[i], q, w);
      assert Writes(claims'[i], q, w);
    }
  }

  /** All producers but p keep their place when p changes claim j or adds a claim behind the others. */
  lemma ProducersKeep(s: State, t: State, p: nat, j: nat)
    requires Inv(s) && p in s.producers
    requires t.mem.size == s.mem.size && s.mem.ask <= t.mem.ask && s.mem.avail <= t.mem.avail
    requires |s.claims| <= |t.claims| && forall i :: 0 <= i < |s.claims| && i != j ==> t.claims[i] == s.claims[i]
    requires j < |s.claims| ==> s.claims[j].writer == p
    requires t.producers - {p} == s.producers - {p}
    ensures forall q :: q in t.producers && q != p ==> ProducerOk(t.mem, t.claims, q, t.producers[q])
  {
    forall q | q in t.producers && q != p
      ensures ProducerOk(t.mem, t.claims, q, t.producers[q])
    {
      assert q in t.producers - {p};
      assert q in s.producers && s.producers[q] == t.producers[q];
      OthersKeep(s.mem, s.claims, t.mem, t.claims, q, s.producers[q], j);
    }
  }

  lemma ClaimMade(s: State, t: State, p: nat, c: Claim)
    requires Inv(s) && p in s.producers && s.producers[p].Checked?
    requires c == Claim(s.mem.ask, s.producers[p].data, p, {}, Writing) && c.End() <= CURSOR_LIMIT
    requires s.producers[p].ask == s.mem.ask
    requires t.mem == s.mem.(ask := c.End()) && t.claims == s.claims + [c]
    requires t.producers == s.producers[p := Copying(c.data, c.start, {})]
    requires t.consumer == s.consumer && t.accepted == s.accepted + [c.data] && t.delivered == s.delivered
    ensures Inv(t)
  {
    assert ProducerOk(s.mem, s.claims, p, s.producers[p]);
    HoldsClaim(s.mem, s.claims, c);
    assert ProducerOk(t.mem, t.claims, p, t.producers[p]) by {
      assert Writes(t.claims[|s.claims|], p, t.producers[p]);
    }
    assert t.producers - {p} == s.producers - {p};
    ProducersKeep(s, t, p, |s.claims|);
    ClaimMadeOwned(s, t, p, c);
    ClaimMadeQueue(s, t, c);
  }

  lemma ClaimMadeOwned(s: State, t: State, p: nat, c: Claim)
    requires ClaimsOwned(s.claims, s.producers) && p in s.producers && !s.producers[p].Copying?
    requires c.writer == p && c.done == {} && c.status == Writing && t.claims == s.claims + [c]
    requires t.producers == s.producers[p := Copying(c.data, c.start, {})]
    ensures ClaimsOwned(t.claims, t.producers)
  {
    forall i | 0 <= i < |t.claims| && t.claims[i].status == Writing
      ensures t.claims[i].writer in t.producers
           && Writes(t.claims[i], t.claims[i].writer, t.producers[t.claims[i].writer])
    {
      if i < |s.claims| {
        assert t.claims[i] == s.claims[i];
      }
    }
  }

  lemma ClaimMadeQueue(s: State, t: State, c: Claim)
    requires ConsumerOk(s.consumer, s.mem.avail, s.claims)
    requires t.claims == s.claims + [c] && t.consumer == s.consumer
    ensures Queue(t) == Queue(s) + [c.data]
  {
    if s.claims != [] {
      assert t.claims[1..] == s.claims[1..] + [c];
    }
  }

  lemma CompareAndSwapInv(s: State, p: nat)
    requires Inv(s) && Enabled(s, CompareAndSwap(p)) && FairCall(s, CompareAndSwap(p))
    ensures Inv(Apply(s, CompareAndSwap(p)))
  {
    var w := s.producers[p];
    assert ProducerOk(s.mem, s.claims, p, w);
    if s.mem.ask == w.ask {
      assert U64(w.ask + |w.data|) == w.ask + |w.data|;
      ClaimMade(s, Apply(s, CompareAndSwap(p)), p, Claim(w.ask, w.data, p, {}, Writing));
    } else {
      ProducerMovesInv(s, Apply(s, CompareAndSwap(p)), p, Asking(w.data));
    }
  }

  lemma SameDatas(a: seq<Claim>, b: seq<Claim>)
    requires |a| == |b| && forall i :: 0 <= i < |a| ==> a[i].data == b[i].data
    ensures Datas(a) == Datas(b) && (a != [] ==> Datas(a[1..]) == Datas(b[1..]))
  {
  }

  ghost predicate CopiesByte(s: State, t: State, p: nat, j: nat, k: nat) {
    && 0 < s.mem.size == |s.mem.ring|
    && p in s.producers && j < |s.claims| && Writes(s.claims[j], p, s.producers[p])
    && k < |s.claims[j].data|
    && t.mem == s.mem.(ring := s.mem.ring[Index(s.claims[j].start + k, s.mem.size) := s.claims[j].data[k]])
    && t.claims == s.claims[j := s.claims[j].(done := s.claims[j].done + {k})]
    && t.producers == s.producers[p := s.producers[p].(done := s.producers[p].done + {k})]
    && t.consumer == s.consumer && t.accepted == s.accepted && t.delivered == s.delivered
  }

  lemma ByteCopied(s: State, t: State, p: nat, j: nat, k: nat)
    requires Inv(s) && CopiesByte(s, t, p, j, k)
    requires forall i :: 0 <= i < |s.claims| && s.claims[i].start == s.claims[j].start ==> i == j
    ensures Inv(t)
  {
    HoldsCopy(s.mem, s.claims, j, k, t.mem, t.claims);
    ByteCopiedProducers(s, t, p, j, k);
    ByteCopiedOwned(s, t, p, j, k);
    ByteCopiedQueue(s, t, p, j, k);
  }

  lemma ByteCopiedQueue(s: State, t: State, p: nat, j: nat, k: nat)
    requires CopiesByte(s, t, p, j, k) && ConsumerOk(s.consumer, s.mem.avail, s.claims)
    ensures ConsumerOk(t.consumer, t.mem.avail, t.claims) && Queue(t) == Queue(s)
  {
    SameDatas(s.claims, t.claims);
  }

  lemma ByteCopiedProducers(s: State, t: State, p: nat, j: nat, k: nat)
    requires Inv(s) && CopiesByte(s, t, p, j, k)
    ensures forall q :: q in t.producers ==> ProducerOk(t.mem, t.claims, q, t.producers[q])
  {
    WriterKeeps(s, t, p, j, k);
    assert t.producers - {p} == s.producers - {p};
    ProducersKeep(s, t, p, j);
  }

  lemma WriterKeeps(s: State, t: State, p: nat, j: nat, k: nat)
    requires p in s.producers && j < |s.claims| && Writes(s.claims[j], p, s.producers[p])
    requires ProducerOk(s.mem, s.claims, p, s.producers[p])
    requires t.claims == s.claims[j := s.claims[j].(done := s.claims[j].done + {k})]
    requires t.producers == s.producers[p := s.producers[p].(done := s.producers[p].done + {k})]
    ensures ProducerOk(t.mem, t.claims, p, t.producers[p])
  {
    assert Writes(t.claims[j], p, t.producers[p]);
  }

  lemma ByteCopiedOwned(s: State, t: State, p: nat, j: nat, k: nat)
    requires ClaimsOwned(s.claims, s.producers)
    requires p in s.producers && j < |s.claims| && Writes(s.claims[j], p, s.producers[p])
    requires t.claims == s.claims[j := s.claims[j].(done := s.claims[j].done + {k})]
    requires t.producers == s.producers[p := s.producers[p].(done := s.producers[p].done + {k})]
    requires forall i :: 0 <= i < |s.claims| && s.claims[i].start == s.claims[j].start ==> i == j
    ensures ClaimsOwned(t.claims, t.producers)
  {
    forall i | 0 <= i < |t.claims| && t.claims[i].status == Writing
      ensures t.claims[i].writer in t.producers
           && Writes(t.claims[i], t.claims[i].writer, t.producers[t.claims[i].writer])
    {
      if i != j {
        assert t.claims[i] == s.claims[i];
        assert Writes(s.claims[i], s.claims[i].writer, s.producers[s.claims[i].writer]);
      }
    }
  }

  lemma CopyByteInv(s: State, p: nat, k: nat)
    requires Inv(s) && Enabled(s, CopyByte(p, k))
    ensures Inv(Apply(s, CopyByte(p, k)))
  {
    var j := FindClaim(s, p);
    CopyByteShape(s, p, k, j);
    ByteCopied(s, Apply(s, CopyByte(p, k)), p, j, k);
  }

  lemma CopyByteShape(s: State, p: nat, k: nat, j: nat)
    requires Enabled(s, CopyByte(p, k)) && j < |s.claims| && Writes(s.claims[j], p, s.producers[p])
    requires forall i :: 0 <= i < |s.claims| && s.claims[i].start == s.claims[j].start ==> i == j
    ensures CopiesByte(s, Apply(s, CopyByte(p, k)), p, j, k)
  {
    assert Apply(s, CopyByte(p, k)).claims == s.claims[j := s.claims[j].(done := s.claims[j].done + {k})];
  }

  ghost predicate SetsFlag(s: State, t: State, p: nat, j: nat) {
    && 0 < s.mem.size == |s.mem.submit|
    && p in s.producers && j < |s.claims| && Writes(s.claims[j], p, s.producers[p])
    && (forall k: nat :: k < |s.claims[j].data| ==> k in s.claims[j].done)
    && t.mem == s.mem.(submit := s.mem.submit[Index(s.claims[j].End(), s.mem.size) := 1])
    && t.claims == s.claims[j := s.claims[j].(status := Flagged)]
    && t.producers == s.producers - {p}
    && t.consumer == s.consumer && t.accepted == s.accepted && t.delivered == s.delivered
  }

  lemma FlagSet(s: State, t: State, p: nat, j: nat)
    requires Inv(s) && SetsFlag(s, t, p, j)
    requires forall i :: 0 <= i < |s.claims| && s.claims[i].start == s.claims[j].start ==> i == j
    ensures Inv(t)
  {
    HoldsStatus(s.mem, s.claims, j, t.mem, t.claims);
    assert t.producers - {p} == s.producers - {p};
    ProducersKeep(s, t, p, j);
    FlagSetOwned(s, t, p, j);
    FlagSetQueue(s, t, p, j);
  }

  lemma FlagSetQueue(s: State, t: State, p: nat, j: nat)
    requires SetsFlag(s, t, p, j) && ConsumerOk(s.consumer, s.mem.avail, s.claims)
    ensures ConsumerOk(t.consumer, t.mem.avail, t.claims) && Queue(t) == Queue(s)
  {
    SameDatas(s.claims, t.claims);
  }

  lemma FlagSetOwned(s: State, t: State, p: nat, j: nat)
    requires ClaimsOwned(s.claims, s.producers)
    requires p in s.producers && j < |s.claims| && Writes(s.claims[j], p, s.producers[p])
    requires forall i :: 0 <= i < |s.claims| && s.claims[i].start == s.claims[j].start ==> i == j
    requires t.claims == s.claims[j := s.claims[j].(status := Flagged)]
    requires t.producers == s.producers - {p}
    ensures ClaimsOwned(t.claims, t.producers)
  {
    forall i | 0 <= i < |t.claims| && t.claims[i].status == Writing
      ensures t.claims[i].writer in t.producers
           && Writes(t.claims[i], t.claims[i].writer, t.producers[t.claims[i].writer])
    {
      assert i != j && t.claims[i] == s.claims[i];
      assert Writes(s.claims[i], s.claims[i].writer, s.producers[s.claims[i].writer]);
    }
  }

  lemma SubmitInv(s: State, p: nat)
    requires Inv(s) && Enabled(s, Submit(p))
    ensures Inv(Apply(s, Submit(p)))
  {
    var j := FindClaim(s, p);
    SubmitShape(s, p, j);
    FlagSet(s, Apply(s, Submit(p)), p, j);
  }

  lemma SubmitShape(s: State, p: nat, j: nat)
    requires Enabled(s, Submit(p)) && j < |s.claims| && Writes(s.claims[j], p, s.producers[p])
    requires forall i :: 0 <= i < |s.claims| && s.claims[i].start == s.claims[j].start ==> i == j
    ensures SetsFlag(s, Apply(s, Submit(p)), p, j)
  {
    assert Apply(s, Submit(p)).claims == s.claims[j := s.claims[j].(status := Flagged)];
  }

  lemma DecodeInv(s: State, word: nat)
    requires Inv(s) && Enabled(s, Decode(word))
    ensures Inv(Apply(s, Decode(word)))
  {
    TiledOrdered(s.claims, s.mem.avail, s.mem.ask);
  }

  /** What a read hands out when its flag check passes on the oldest claim's own end. */
  lemma TakeHead(s: State)
    requires Inv(s) && Enabled(s, Take) && s.consumer.end == s.claims[0].End()
    ensures s.mem.submit[Index(s.consumer.end, s.mem.size)] == 1 <==> s.claims[0].status == Flagged
    ensures s.claims[0].status == Flagged ==> GetBytes(s.mem, s.mem.avail, s.consumer.end) == s.claims[0].data
  {
    TiledOrdered(s.claims, s.mem.avail, s.mem.ask);
    FlagMeansClaim(s.mem, s.claims, 0);
    if s.claims[0].status == Flagged {
      ReadBack(s.mem, s.claims, 0);
    }
  }

  lemma TakeInv(s: State)
    requires Inv(s) && Enabled(s, Take) && HeadWordHonest(s)
    ensures Inv(Apply(s, Take))
  {
    if s.mem.submit[Index(s.consumer.end, s.mem.size)] == 1 {
      assert s.consumer.end == s.claims[0].End();
      TakeHead(s);
      HeadTaken(s, Apply(s, Take));
    }
  }

  lemma HeadTaken(s: State, t: State)
    requires Inv(s) && s.consumer.Decoded? && s.consumer.end == s.claims[0].End() && s.claims[0].status == Flagged
    requires t == s.(consumer := Holding(s.consumer.end), delivered := s.delivered + [s.claims[0].data])
    ensures Inv(t)
  {
    assert Queue(s) == [s.claims[0].data] + Queue(t);
    assert t.delivered + Queue(t) == s.delivered + Queue(s);
  }

  lemma ClearInv(s: State)
    requires Inv(s) && Enabled(s, Clear)
    ensures Inv(Apply(s, Clear))
  {
    var t := Apply(s, Clear);
    HoldsStatus(s.mem, s.claims, 0, t.mem, t.claims);
    forall q | q in t.producers
      ensures ProducerOk(t.mem, t.claims, q, t.producers[q])
    {
      OthersKeep(s.mem, s.claims, t.mem, t.claims, q, s.producers[q], 0);
    }
    assert t.claims[1..] == s.claims[1..];
  }

  lemma ReleaseInv(s: State)
    requires Inv(s) && Enabled(s, Release)
    ensures Inv(Apply(s, Release))
  {
    TiledOrdered(s.claims, s.mem.avail, s.mem.ask);
    HoldsRelease(s.mem, s.claims);
    Released(s, Apply(s, Release));
  }

  lemma Released(s: State, t: State)
    requires (forall p :: p in s.producers ==> ProducerOk(s.mem, s.claims, p, s.producers[p]))
    requires ClaimsOwned(s.claims, s.producers) && ConsumerOk(s.consumer, s.mem.avail, s.claims)
    requires s.consumer.Releasing? && s.accepted == s.delivered + Queue(s) && s.consumer.end >= s.mem.avail
    requires t == s.(mem := s.mem.(avail := s.consumer.end), consumer := Idle, claims := s.claims[1..])
    requires Holds(t.mem, t.claims)
    ensures Inv(t)
  {
    forall q | q in t.producers
      ensures ProducerOk(t.mem, t.claims, q, t.producers[q])
    {
      ReleaseProducer(s, t, q);
    }
    assert forall i :: 0 <= i < |t.claims| ==> t.claims[i] == s.claims[i + 1];
  }

  lemma ReleaseProducer(s: State, t: State, q: nat)
    requires q in s.producers && ProducerOk(s.mem, s.claims, q, s.producers[q])
    requires s.claims != [] && s.claims[0].status != Writing && t.claims == s.claims[1..]
    requires t.mem.size == s.mem.size && t.mem.ask == s.mem.ask && t.mem.avail >= s.mem.avail
    requires t.producers == s.producers
    ensures ProducerOk(t.mem, t.claims, q, t.producers[q])
  {
    var w := s.producers[q];
    if w.Copying? {
      var i :| 0 <= i < |s.claims| && Writes(s.claims[i], q, w);
      assert i != 0;
      assert t.claims[i - 1] == s.claims[i];
    }
  }

  /** Every step keeps the invariant. */
  lemma StepInv(s: State, step: Step)
    requires Inv(s) && Enabled(s, step) && Honest(s, step)
    ensures Inv(Apply(s, step))
  {
    match step
    case Call(p, message) => ProducerMovesInv(s, Apply(s, step), p, Asking(message));
    case Load(p) =>
      assert ProducerOk(s.mem, s.claims, p, s.producers[p]);
      ProducerMovesInv(s, Apply(s, step), p, Loaded(s.producers[p].data, s.mem.ask));
    case Check(p) => CheckInv(s, p);
    case CompareAndSwap(p) => CompareAndSwapInv(s, p);
    case CopyByte(p, k) => CopyByteInv(s, p, k);
    case Submit(p) => SubmitInv(s, p);
    case Decode(word) => DecodeInv(s, word);
    case Take => TakeInv(s);
    case Clear => ClearInv(s);
    case Release => ReleaseInv(s);
  }
}
