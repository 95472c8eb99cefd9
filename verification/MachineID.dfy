/** Choosing machine ids, sidecar/etcd.go. */
module MachineIDs {
  import opened Bits
  import opened Conver
  import opened Lists

  const MAX_WORK_NUMBER: nat := 1024

  ghost predicate Sorted(s: seq<nat>) {
    forall i, j :: 0 <= i < j < |s| ==> s[i] <= s[j]
  }

  // ---------- sorting, which the source leaves to its library ----------

  function Insert(s: seq<nat>, x: nat): seq<nat> {
    if s == [] || x <= s[0] then [x] + s else [s[0]] + Insert(s[1..], x)
  }

  function Sort(s: seq<nat>): seq<nat> {
    if s == [] then [] else Insert(Sort(s[1..]), s[0])
  }

  lemma {:induction false} InsertSorts(s: seq<nat>, x: nat)
    requires Sorted(s)
    ensures Sorted(Insert(s, x)) && multiset(Insert(s, x)) == multiset(s) + multiset{x}
    decreases |s|
  {
    if s == [] || x <= s[0] {
      SortedCons(x, s);
    } else {
      var t := Insert(s[1..], x);
      InsertSorts(s[1..], x);
      assert s == [s[0]] + s[1..];
      forall y | y in t
        ensures s[0] <= y
      {
        assert y in multiset(t) && (y == x || y in s[1..]);
      }
      SortedCons(s[0], t);
    }
  }

  lemma SortedCons(h: nat, t: seq<nat>)
    requires Sorted(t) && forall y :: y in t ==> h <= y
    ensures Sorted([h] + t)
  {
    var u := [h] + t;
    assert forall j :: 1 <= j < |u| ==> u[j] == t[j - 1] && u[j] in t;
  }

  lemma {:induction false} SortSorts(s: seq<nat>)
    ensures Sorted(Sort(s)) && multiset(Sort(s)) == multiset(s) && |Sort(s)| == |s|
    decreases |s|
  {
    if s != [] {
      SortSorts(s[1..]);
      InsertSorts(Sort(s[1..]), s[0]);
      assert s == [s[0]] + s[1..];
      assert |multiset(Sort(s))| == |multiset(s)|;
    }
  }

  // ---------- the first gap ----------

  /** The first position whose id is larger than the position; the length if there is none. */
  function FirstGap(s: seq<nat>, from: nat): (n: nat)
    requires from <= |s|
    ensures from <= n <= |s|
    ensures (n < |s| ==> n < s[n]) && forall i :: from <= i < n ==> i >= s[i]
    decreases |s| - from
  {
    if from == |s| || from < s[from] then from else FirstGap(s, from + 1)
  }

  /** The entries before n are no larger than their positions, the others are larger than n. */
  ghost predicate GapAt(s: seq<nat>, n: nat) {
    && Sorted(s) && n <= |s|
    && (forall i :: 0 <= i < n ==> s[i] <= i)
    && forall i :: n <= i < |s| ==> s[i] > n
  }

  /** The first gap of a sorted list is a number that is not on it. */
  lemma GapIsFree(s: seq<nat>)
    requires Sorted(s)
    ensures GapAt(s, FirstGap(s, 0)) && FirstGap(s, 0) !in s
  {
  }

  /** It is the least such number exactly if no smaller number is on the list twice. */
  lemma GapIsLeastIff(s: seq<nat>, n: nat)
    requires GapAt(s, n)
    ensures (forall m: nat :: m < n ==> m in s) <==> (forall m: nat :: m < n ==> Count(s, m) <= 1)
  {
    if forall m: nat :: m < n ==> m in s {
      FilledOnce(s, n);
    }
    if forall m: nat :: m < n ==> Count(s, m) <= 1 {
      forall m: nat | m < n
        ensures m in s
      {
        Climbs(s, n, m);
      }
    }
  }

  lemma FilledOnce(s: seq<nat>, n: nat)
    requires GapAt(s, n) && forall m: nat :: m < n ==> m in s
    ensures forall m: nat :: m < n ==> Count(s, m) <= 1
  {
    forall i | 0 <= i < n
      ensures s[i] == i
    {
      Filled(s, n, i);
    }
    assert Distinct(s[..n]);
    assert s == s[..n] + s[n..];
    forall m: nat | m < n
      ensures Count(s, m) <= 1
    {
      DistinctCount(s[..n], m);
      assert m !in s[n..];
    }
  }

  /** If all numbers below n are on the list, each sits at its own position. */
  lemma {:induction false} Filled(s: seq<nat>, n: nat, m: nat)
    requires GapAt(s, n) && m < n && forall k: nat :: k < n ==> k in s
    ensures s[m] == m
    decreases n - m
  {
    assert m in s;
    var i :| 0 <= i < |s| && s[i] == m;
    if i > m {
      Filled(s, n, i);
    }
  }

  lemma Repeated(s: seq<nat>, i: nat)
    requires i + 1 < |s| && s[i] == s[i + 1]
    ensures Count(s, s[i]) >= 2
  {
    assert s == s[..i] + [s[i]] + [s[i]] + s[i + 2..];
  }

  /** If no number below n is on the list twice, each of the first n entries is its own position. */
  lemma {:induction false} Climbs(s: seq<nat>, n: nat, m: nat)
    requires GapAt(s, n) && m < n && forall k: nat :: k < n ==> Count(s, k) <= 1
    ensures s[m] == m
    decreases m
  {
    if m > 0 {
      Climbs(s, n, m - 1);
      if s[m] == m - 1 {
        Repeated(s, m - 1);
      }
    }
  }

  // ---------- the choice ----------

  /** The id that is chosen next to the taken ones, or -1. */
  function Choice(ids: seq<nat>): int {
    var s := Sort(ids);
    var n := FirstGap(s, 0);
    if n < |s| || |s| < MAX_WORK_NUMBER then n else -1
  }

  lemma SortKeeps(ids: seq<nat>)
    ensures Sorted(Sort(ids)) && |Sort(ids)| == |ids|
    ensures forall x: nat :: (x in Sort(ids) <==> x in ids) && Count(Sort(ids), x) == Count(ids, x)
  {
    SortSorts(ids);
    forall x: nat
      ensures x in Sort(ids) <==> x in ids
    {
      assert x in multiset(Sort(ids)) <==> x in multiset(ids);
    }
  }

  /** The choice is a free id, and the least one exactly if no smaller id is listed twice. */
  lemma ChoiceIsFree(ids: seq<nat>)
    requires (forall x :: x in ids ==> x < MAX_WORK_NUMBER) && Choice(ids) >= 0
    ensures Choice(ids) < MAX_WORK_NUMBER && Choice(ids) !in ids
    ensures (forall m: nat :: m < Choice(ids) ==> m in ids) <==>
            (forall m: nat :: m < Choice(ids) ==> Count(ids, m) <= 1)
  {
    SortKeeps(ids);
    var s := Sort(ids);
    GapIsFree(s);
    GapIsLeastIff(s, Choice(ids));
    if Choice(ids) < |s| {
      assert s[Choice(ids)] in s;
    }
  }

  /** For distinct ids the choice is the least free one, and there is none exactly if all are taken. */
  lemma ChoiceIsLeast(ids: seq<nat>)
    requires (forall x :: x in ids ==> x < MAX_WORK_NUMBER) && Distinct(ids)
    ensures Choice(ids) == -1 <==> forall m: nat :: m < MAX_WORK_NUMBER ==> m in ids
    ensures Choice(ids) >= 0 ==> Choice(ids) !in ids && forall m: nat :: m < Choice(ids) ==> m in ids
  {
    if Choice(ids) >= 0 {
      ChoiceIsFree(ids);
      forall m: nat | m < Choice(ids)
        ensures Count(ids, m) <= 1
      {
        DistinctCount(ids, m);
      }
      assert Choice(ids) < MAX_WORK_NUMBER && Choice(ids) !in ids;
    } else {
      NoChoice(ids);
    }
  }

  lemma NoChoice(ids: seq<nat>)
    requires (forall x :: x in ids ==> x < MAX_WORK_NUMBER) && Distinct(ids) && Choice(ids) < 0
    ensures forall m: nat :: m < MAX_WORK_NUMBER ==> m in ids
  {
    SortSorts(ids);
    var all := Below(MAX_WORK_NUMBER);
    DistinctFits(ids, all);
    forall m: nat | m < MAX_WORK_NUMBER
      ensures m in ids
    {
      assert m in all;
    }
  }

  /** The ids in the keys behind a prefix of length l; what is no machine id is skipped. */
  function Taken(keys: seq<Bytes>, l: nat): seq<nat>
    requires forall k :: 0 <= k < |keys| ==> |keys[k]| >= l + 2
  {
    if keys == [] then []
    else
      var n := |keys| - 1;
      var id := BytesToUint16(keys[n][l..]);
      Taken(keys[..n], l) + if id < MAX_WORK_NUMBER then [id] else []
  }

  lemma {:induction false} TakenBelow(keys: seq<Bytes>, l: nat)
    requires forall k :: 0 <= k < |keys| ==> |keys[k]| >= l + 2
    ensures forall x :: x in Taken(keys, l) ==> x < MAX_WORK_NUMBER
    decreases |keys|
  {
    if keys != [] {
      TakenBelow(keys[..|keys| - 1], l);
    }
  }

  /** getMachineID on the keys found in the store */
  method GetMachineID(keys: seq<Bytes>, l: nat) returns (n: int)
    requires forall k :: 0 <= k < |keys| ==> |keys[k]| >= l + 2
    ensures n == Choice(Taken(keys, l))
    ensures n >= 0 ==> n < MAX_WORK_NUMBER && n !in Taken(keys, l)
    ensures Distinct(Taken(keys, l)) ==>
              && (n == -1 <==> forall m: nat :: m < MAX_WORK_NUMBER ==> m in Taken(keys, l))
              && forall m: nat :: m < n ==> m in Taken(keys, l)
  {
    var queue: seq<nat> := [];
    for k := 0 to |keys|
      invariant queue == Taken(keys[..k], l)
    {
      assert keys[..k + 1][..k] == keys[..k];
      var id := BytesToUint16(keys[k][l..]);
      if id < MAX_WORK_NUMBER {
        queue := queue + [id];
      }
    }
    assert keys[..|keys|] == keys;
    TakenBelow(keys, l);
    ghost var ids := queue;
    n := Scan(queue);
    if n >= 0 {
      ChoiceIsFree(ids);
    }
    if Distinct(ids) {
      ChoiceIsLeast(ids);
    }
  }

  /** Sorting the taken ids and looking for the first gap. */
  method Scan(ids: seq<nat>) returns (n: int)
    ensures n == Choice(ids)
  {
    if |ids| == 0 {
      return 0;
    }
    n := -1;
    SortKeeps(ids);
    var queue := Sort(ids);
    for i := 0 to |queue|
      invariant n == -1 && FirstGap(queue, 0) == FirstGap(queue, i)
    {
      if i < queue[i] {
        n := i;
        break;
      }
    }
    if n == -1 && |queue| < MAX_WORK_NUMBER {
      n := |queue|;
    }
  }

  // ---------- nodes that come and go ----------

  /** A node's key, with the prefix it is found under. */
  function NodeKey(prefix: Bytes, id: nat): Bytes {
    prefix + Uint16Bytes(id)
  }

  ghost predicate OfLiveNode(key: Bytes, prefix: Bytes, nodes: map<nat, nat>) {
    exists v :: v in nodes && key == NodeKey(prefix, nodes[v])
  }

  /** The store's answer: the key of every live node, each key once. */
  ghost predicate Listing(keys: seq<Bytes>, prefix: Bytes, nodes: map<nat, nat>) {
    && (forall i, j :: 0 <= i < j < |keys| ==> keys[i] != keys[j])
    && (forall v :: v in nodes ==> NodeKey(prefix, nodes[v]) in keys)
    && forall i :: 0 <= i < |keys| ==> OfLiveNode(keys[i], prefix, nodes)
  }

  /** No two live nodes share an id. */
  ghost predicate IdsOk(nodes: map<nat, nat>) {
    && (forall v :: v in nodes ==> nodes[v] < MAX_WORK_NUMBER)
    && forall v, w :: v in nodes && w in nodes && v != w ==> nodes[v] != nodes[w]
  }

  datatype Event = Register(node: nat, keys: seq<Bytes>) | Expire(node: nat)

  /** Registrations hold a lock, so each sees the keys of exactly the nodes that are live. */
  ghost predicate Possible(prefix: Bytes, nodes: map<nat, nat>, e: Event) {
    e.Register? ==> e.node !in nodes && Listing(e.keys, prefix, nodes)
  }

  function Happens(prefix: Bytes, nodes: map<nat, nat>, e: Event): map<nat, nat>
    requires e.Register? ==> forall k :: 0 <= k < |e.keys| ==> |e.keys[k]| >= |prefix| + 2
  {
    match e
    case Register(node, keys) =>
      var n := Choice(Taken(keys, |prefix|));
      if n >= 0 then nodes[node := n] else nodes
    case Expire(node) => nodes - {node}
  }

  lemma KeyId(key: Bytes, prefix: Bytes, nodes: map<nat, nat>)
    requires OfLiveNode(key, prefix, nodes) && IdsOk(nodes)
    ensures |key| == |prefix| + 2
    ensures var id := BytesToUint16(key[|prefix|..]);
            key == NodeKey(prefix, id) && id < MAX_WORK_NUMBER
  {
    var v :| v in nodes && key == NodeKey(prefix, nodes[v]);
    IdOfKey(prefix, nodes[v]);
  }

  lemma IdOfKey(prefix: Bytes, id: nat)
    requires id < MAX_WORK_NUMBER
    ensures var key := NodeKey(prefix, id);
            |key| == |prefix| + 2 && BytesToUint16(key[|prefix|..]) == id
  {
    assert NodeKey(prefix, id)[|prefix|..] == Uint16Bytes(id);
    Uint16RoundTrip(id);
  }

  /** The ids found in live nodes' keys, position by position. */
  lemma {:induction false} ListingIds(keys: seq<Bytes>, prefix: Bytes, nodes: map<nat, nat>)
    requires IdsOk(nodes) && forall i :: 0 <= i < |keys| ==> OfLiveNode(keys[i], prefix, nodes)
    ensures forall k :: 0 <= k < |keys| ==> |keys[k]| == |prefix| + 2
    ensures var ids := Taken(keys, |prefix|);
            && |ids| == |keys|
            && forall i :: 0 <= i < |keys| ==> keys[i] == NodeKey(prefix, ids[i]) && ids[i] < MAX_WORK_NUMBER
    decreases |keys|
  {
    if keys != [] {
      var n := |keys| - 1;
      ListingIds(keys[..n], prefix, nodes);
      KeyId(keys[n], prefix, nodes);
      assert forall k :: 0 <= k < n ==> keys[k] == keys[..n][k];
    }
  }

  /** A registration gets the least id that no live node has, and fails exactly if all are in use. */
  lemma RegisterIsSafe(prefix: Bytes, nodes: map<nat, nat>, node: nat, keys: seq<Bytes>)
    requires IdsOk(nodes) && Possible(prefix, nodes, Register(node, keys))
    ensures forall k :: 0 <= k < |keys| ==> |keys[k]| == |prefix| + 2
    ensures var after := Happens(prefix, nodes, Register(node, keys));
            && IdsOk(after)
            && (node !in after <==> forall m: nat :: m < MAX_WORK_NUMBER ==> m in nodes.Values)
            && (node in after ==> forall m: nat :: m < after[node] ==> m in nodes.Values)
  {
    ListingIds(keys, prefix, nodes);
    var ids := Taken(keys, |prefix|);
    assert Distinct(ids) by {
      forall i, j | 0 <= i < j < |ids|
        ensures ids[i] != ids[j]
      {
        assert keys[i] != keys[j];
      }
    }
    forall m: nat
      ensures m in ids <==> m in nodes.Values
    {
      SameIds(keys, prefix, nodes, ids, m);
    }
    RegisterWith(nodes, node, ids);
  }

  lemma RegisterWith(nodes: map<nat, nat>, node: nat, ids: seq<nat>)
    requires IdsOk(nodes) && node !in nodes && Distinct(ids)
    requires forall m: nat :: m in ids <==> m in nodes.Values
    ensures var n := Choice(ids);
            && (n == -1 <==> forall m: nat :: m < MAX_WORK_NUMBER ==> m in nodes.Values)
            && (n >= 0 ==> IdsOk(nodes[node := n]) && forall m: nat :: m < n ==> m in nodes.Values)
  {
    ChoiceIsLeast(ids);
    if Choice(ids) >= 0 {
      ChoiceIsFree(ids);
      assert Choice(ids) !in nodes.Values;
    }
  }

  lemma SameIds(keys: seq<Bytes>, prefix: Bytes, nodes: map<nat, nat>, ids: seq<nat>, m: nat)
    requires Listing(keys, prefix, nodes) && IdsOk(nodes) && |ids| == |keys|
    requires forall i :: 0 <= i < |ids| ==> keys[i] == NodeKey(prefix, ids[i]) && ids[i] < MAX_WORK_NUMBER
    ensures m in ids <==> m in nodes.Values
  {
    if m in ids {
      var i :| 0 <= i < |ids| && ids[i] == m;
      var v :| v in nodes && keys[i] == NodeKey(prefix, nodes[v]);
      SameKey(prefix, m, nodes[v]);
    }
    if m in nodes.Values {
      var v :| v in nodes && nodes[v] == m;
      assert NodeKey(prefix, m) in keys;
      var i :| 0 <= i < |keys| && keys[i] == NodeKey(prefix, m);
      SameKey(prefix, m, ids[i]);
    }
  }

  lemma SameKey(prefix: Bytes, a: nat, b: nat)
    requires a < TWO16 && b < TWO16 && NodeKey(prefix, a) == NodeKey(prefix, b)
    ensures a == b
  {
    assert NodeKey(prefix, a)[|prefix|..] == Uint16Bytes(a);
    assert NodeKey(prefix, b)[|prefix|..] == Uint16Bytes(b);
    Uint16RoundTrip(a);
    Uint16RoundTrip(b);
  }

  /** Nothing happens to other nodes, and a node that has expired is gone. */
  lemma HappensToOne(prefix: Bytes, nodes: map<nat, nat>, e: Event, v: nat)
    requires IdsOk(nodes) && Possible(prefix, nodes, e)
    ensures e.Register? ==> forall k :: 0 <= k < |e.keys| ==> |e.keys[k]| == |prefix| + 2
    ensures var after := Happens(prefix, nodes, e);
            if v != e.node then (v in after <==> v in nodes) && (v in nodes ==> after[v] == nodes[v])
            else if e.Expire? then v !in after
            else v in after <==> exists m: nat :: m < MAX_WORK_NUMBER && m !in nodes.Values
  {
    if e.Register? {
      RegisterIsSafe(prefix, nodes, e.node, e.keys);
    }
  }

  /** When all ids are in use, the id of a node that expires goes to the next node that registers. */
  lemma ExpiredIdIsReused(prefix: Bytes, nodes: map<nat, nat>, v: nat, node: nat, keys: seq<Bytes>)
    requires IdsOk(nodes) && v in nodes && forall m: nat :: m < MAX_WORK_NUMBER ==> m in nodes.Values
    requires Possible(prefix, Happens(prefix, nodes, Expire(v)), Register(node, keys))
    ensures forall k :: 0 <= k < |keys| ==> |keys[k]| == |prefix| + 2
    ensures var after := Happens(prefix, Happens(prefix, nodes, Expire(v)), Register(node, keys));
            node in after && after[node] == nodes[v]
  {
    var left := Happens(prefix, nodes, Expire(v));
    RegisterIsSafe(prefix, left, node, keys);
    FreedOnly(nodes, v);
    OnlyFree(nodes, v, Happens(prefix, left, Register(node, keys)), node);
  }

  lemma OnlyFree(nodes: map<nat, nat>, v: nat, after: map<nat, nat>, node: nat)
    requires v in nodes && forall m: nat :: m < MAX_WORK_NUMBER ==> m in nodes.Values
    requires IdsOk(after) && node in after && node !in nodes - {v}
    requires forall w :: w in nodes - {v} ==> w in after && after[w] == nodes[w]
    ensures after[node] == nodes[v]
  {
    assert after[node] < MAX_WORK_NUMBER && after[node] in nodes.Values;
    var w :| w in nodes && nodes[w] == after[node];
    assert w != v ==> w in nodes - {v};
  }

  lemma FreedOnly(nodes: map<nat, nat>, v: nat)
    requires IdsOk(nodes) && v in nodes
    ensures nodes[v] !in (nodes - {v}).Values
  {
  }

  ghost predicate Run(prefix: Bytes, nodes: map<nat, nat>, events: seq<Event>, after: map<nat, nat>)
    decreases |events|
  {
    if events == [] then nodes == after
    else
      && Possible(prefix, nodes, events[0])
      && (events[0].Register? ==> forall k :: 0 <= k < |events[0].keys| ==> |events[0].keys[k]| >= |prefix| + 2)
      && Run(prefix, Happens(prefix, nodes, events[0]), events[1..], after)
  }

  /** Over every run of registrations and expiries no two live nodes ever have the same id. */
  lemma {:induction false} LiveIdsDiffer(prefix: Bytes, nodes: map<nat, nat>, events: seq<Event>, after: map<nat, nat>)
    requires IdsOk(nodes) && Run(prefix, nodes, events, after)
    ensures IdsOk(after)
    decreases |events|
  {
    if events != [] {
      if events[0].Register? {
        RegisterIsSafe(prefix, nodes, events[0].node, events[0].keys);
      }
      LiveIdsDiffer(prefix, Happens(prefix, nodes, events[0]), events[1..], after);
    }
  }
}
