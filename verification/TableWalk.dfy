/** Traversal and length of a table (src/ltable.c:137-183, src/ltable.c:591-635). */
module TableWalk {
  import opened Seqs
  import opened TableState

  // ---------------------------------------------------------------- positions

  /** Positions number the elements of the array part, then the nodes. */
  function PosVal(a: seq<TValue>, ns: Nodes, p: nat): TValue {
    if p < |a| then a[p] else if p < |a| + |ns| then ns[p - |a|].val else Nil
  }

  function PosKey(a: seq<TValue>, ns: Nodes, p: nat): NodeKey {
    if p < |a| then Key(Num(p + 1)) else if p < |a| + |ns| then ns[p - |a|].key else Free
  }

  /** The first position behind i whose value is not nil. */
  ghost predicate IsNext(a: seq<TValue>, ns: Nodes, i: int, p: nat) {
    && i < p < |a| + |ns| && PosVal(a, ns, p) != Nil
    && forall q: nat :: i < q < p ==> PosVal(a, ns, q) == Nil
  }

  ghost predicate NoNext(a: seq<TValue>, ns: Nodes, i: int) {
    forall q: nat :: i < q ==> PosVal(a, ns, q) == Nil
  }

  /** The entry at the next position. */
  ghost predicate NextEntry(a: seq<TValue>, ns: Nodes, i: int, k: TValue, v: TValue) {
    exists p: nat :: IsNext(a, ns, i, p) && PosKey(a, ns, p) == Key(k) && PosVal(a, ns, p) == v
  }

  // ------------------------------------------------------------------ findindex

  /** A node that findindex takes for key: the key itself, or a dead key with the
      address of key, whatever object was there. */
  predicate Matches(ns: Nodes, key: TValue, j: nat) {
    j < |ns| && (ns[j].key == Key(key) || (ns[j].key.Dead? && SameAddress(ns[j].key.k, key)))
  }

  ghost predicate OnChain(hash: TValue -> nat, ns: Nodes, key: TValue, j: nat) {
    Matches(ns, key, j) && Reach(ns, MainPosition(hash, key, |ns|), j)
  }

  /** The match that comes first in the chain of the key. */
  ghost predicate FirstMatch(hash: TValue -> nat, ns: Nodes, key: TValue, j: nat) {
    OnChain(hash, ns, key, j) && forall i: nat :: OnChain(hash, ns, key, i) ==> Reach(ns, j, i)
  }

  /** The index that findindex returns, None when it raises its error. */
  ghost predicate IndexOk(hash: TValue -> nat, a: seq<TValue>, ns: Nodes, key: TValue, r: Option<int>) {
    if key == Nil then r == Some(-1)
    else if IntKey(key, |a|) then r == Some(key.n - 1)
    else match r
         case Some(p) => p >= |a| && FirstMatch(hash, ns, key, p - |a|)
         case None => forall j: nat :: !OnChain(hash, ns, key, j)
  }

  lemma FirstMatchUnique(hash: TValue -> nat, ns: Nodes, rank: seq<real>, key: TValue, i: nat, j: nat)
    requires Wired(ns, rank) && FirstMatch(hash, ns, key, i) && FirstMatch(hash, ns, key, j)
    ensures i == j
  {
    ReachOrder(ns, rank, i, j);
  }

  lemma {:induction false} StepsLinear(ns: Nodes, m: nat, i: nat, j: nat, x: nat, y: nat)
    requires Steps(ns, m, i, x) && Steps(ns, m, j, y)
    ensures Reach(ns, i, j) || Reach(ns, j, i)
    decreases x
  {
    if x == 0 {
      assert Reach(ns, i, j);
    } else if y == 0 {
      assert Reach(ns, j, i);
    } else {
      StepsLinear(ns, ns[m].next.value, i, j, x - 1, y - 1);
    }
  }

  lemma ReachLinear(ns: Nodes, m: nat, i: nat, j: nat)
    requires Reach(ns, m, i) && Reach(ns, m, j)
    ensures Reach(ns, i, j) || Reach(ns, j, i)
  {
    var x: nat :| Steps(ns, m, i, x);
    var y: nat :| Steps(ns, m, j, y);
    StepsLinear(ns, m, i, j, x, y);
  }

  /** When nothing that matches comes before a match, findindex stops there. */
  lemma FirstHere(hash: TValue -> nat, ns: Nodes, key: TValue, j: nat)
    requires OnChain(hash, ns, key, j)
    requires forall i: nat :: i != j && OnChain(hash, ns, key, i) ==> !Reach(ns, i, j)
    ensures FirstMatch(hash, ns, key, j)
  {
    hide Reach, MainPosition, Matches;
    forall i: nat | OnChain(hash, ns, key, i)
      ensures Reach(ns, j, i)
    {
      ReachLinear(ns, MainPosition(hash, key, |ns|), j, i);
    }
  }

  lemma FirstIndex(hash: TValue -> nat, a: seq<TValue>, ns: Nodes, rank: seq<real>, key: TValue, j: nat, r: Option<int>)
    requires Wired(ns, rank) && FirstMatch(hash, ns, key, j) && key != Nil && !IntKey(key, |a|)
    ensures IndexOk(hash, a, ns, key, r) <==> r == Some(j + |a|)
  {
    if IndexOk(hash, a, ns, key, r) {
      assert r.Some? by {
        assert OnChain(hash, ns, key, j);
      }
      FirstMatchUnique(hash, ns, rank, key, r.value - |a|, j);
    }
  }

  lemma MatchAlone(hash: TValue -> nat, ns: Nodes, key: TValue, i: nat, j: nat)
    requires Unique(ns) && Unshadowed(hash, ns) && Holds(ns, key, j) && OnChain(hash, ns, key, i) && i != j
    ensures !Reach(ns, i, j)
  {
    hide Reach, MainPosition;
    NotShadowed(hash, ns, i, j);
  }

  lemma HomeChain(hash: TValue -> nat, ns: Nodes, key: TValue, j: nat)
    requires Housed(hash, ns) && Holds(ns, key, j)
    ensures OnChain(hash, ns, key, j)
  {
    hide Reach, MainPosition;
  }

  lemma NodesParts(hash: TValue -> nat, ns: Nodes, rank: seq<real>)
    requires NodesOk(hash, ns, rank)
    ensures Wired(ns, rank) && Filled(ns) && Unique(ns) && Housed(hash, ns) && Unshadowed(hash, ns)
  {
  }

  lemma KeyPosition(a: seq<TValue>, ns: Nodes, key: TValue, p: nat)
    requires Filled(ns) && NoArrayKeys(ns, |a|) && PosKey(a, ns, p) == Key(key)
    ensures key != Nil && (p < |a| ==> key == Num(p + 1) && IntKey(key, |a|))
    ensures p >= |a| ==> !IntKey(key, |a|) && Holds(ns, key, p - |a|)
  {
  }

  /** findindex finds every key of the table where it is: a dead key with the same
      address never comes first. */
  lemma IndexExact(hash: TValue -> nat, a: seq<TValue>, ns: Nodes, rank: seq<real>, key: TValue, p: nat, r: Option<int>)
    requires NodesOk(hash, ns, rank) && NoArrayKeys(ns, |a|) && PosKey(a, ns, p) == Key(key)
    ensures IndexOk(hash, a, ns, key, r) <==> r == Some(p as int)
  {
    hide *;
    NodesParts(hash, ns, rank);
    KeyPosition(a, ns, key, p);
    if p >= |a| {
      var j: nat := p - |a|;
      HomeChain(hash, ns, key, j);
      forall i: nat | i != j && OnChain(hash, ns, key, i)
        ensures !Reach(ns, i, j)
      {
        MatchAlone(hash, ns, key, i, j);
      }
      FirstHere(hash, ns, key, j);
      FirstIndex(hash, a, ns, rank, key, j, r);
    } else {
      ElementIndex(hash, a, ns, p, r);
    }
  }

  lemma ElementIndex(hash: TValue -> nat, a: seq<TValue>, ns: Nodes, p: nat, r: Option<int>)
    requires p < |a|
    ensures IndexOk(hash, a, ns, Num(p + 1), r) <==> r == Some(p as int)
  {
  }

  // ------------------------------------------------------------ between two calls

  datatype Contents = Contents(a: seq<TValue>, ns: Nodes)

  ghost predicate Sound(hash: TValue -> nat, s: Contents) {
    NoArrayKeys(s.ns, |s.a|) && exists rank :: NodesOk(hash, s.ns, rank)
  }

  /** What may happen to a node: its value changes, or an entry without value gets
      a dead key. */
  ghost predicate NodeTouched(s: Nodes, t: Nodes, j: nat)
    requires j < |s| == |t|
  {
    && t[j].next == s[j].next && (t[j].val != Nil ==> t[j].key.Key?)
    && (t[j].key == s[j].key || (s[j].key.Key? && Collectable(s[j].key.k) && Alone(s, j) && t[j].key == Dead(s[j].key.k)))
  }

  /** What may happen between two calls of luaH_next: no key is added. */
  ghost predicate Touched(s: Contents, t: Contents) {
    && |t.a| == |s.a| && |t.ns| == |s.ns|
    && forall j: nat :: j < |s.ns| ==> NodeTouched(s.ns, t.ns, j)
  }

  lemma StoreTouches(s: Contents, p: nat, v: TValue)
    requires Filled(s.ns) && p < |s.a| + |s.ns| && (p >= |s.a| ==> s.ns[p - |s.a|].key.Key?)
    ensures Touched(s, if p < |s.a| then s.(a := s.a[p := v]) else s.(ns := s.ns[p - |s.a| := s.ns[p - |s.a|].(val := v)]))
  {
  }

  lemma KillTouches(s: Contents, j: nat)
    requires Filled(s.ns) && j < |s.ns| && s.ns[j].key != Free && s.ns[j].val == Nil && (s.ns[j].key.Key? ==> Alone(s.ns, j))
    ensures Touched(s, s.(ns := Killed(s.ns, j)))
  {
  }

  lemma TouchedThrough(s: Contents, t: Contents, u: Contents)
    requires Touched(s, t) && Touched(t, u)
    ensures Touched(s, u)
  {
    forall j: nat | j < |s.ns|
      ensures NodeTouched(s.ns, u.ns, j)
    {
      assert NodeTouched(s.ns, t.ns, j) && NodeTouched(t.ns, u.ns, j);
      if u.ns[j].key != t.ns[j].key {
        forall i | 0 <= i < |s.ns| && i != j && s.ns[i].key.Key?
          ensures !SameAddress(s.ns[i].key.k, s.ns[j].key.k)
        {
          assert NodeTouched(s.ns, t.ns, i);
        }
      }
    }
  }

  lemma TouchedKey(s: Contents, t: Contents, j: nat)
    requires Touched(s, t) && j < |s.ns|
    ensures t.ns[j].next == s.ns[j].next
    ensures t.ns[j].key == s.ns[j].key || (s.ns[j].key.Key? && Alone(s.ns, j) && t.ns[j].key == Dead(s.ns[j].key.k))
  {
    assert NodeTouched(s.ns, t.ns, j);
  }

  lemma TouchedShadow(hash: TValue -> nat, s: Contents, t: Contents, d: nat, j: nat)
    requires Touched(s, t) && Unshadowed(hash, s.ns)
    ensures !Shadowed(hash, t.ns, d, j)
  {
    if Shadowed(hash, t.ns, d, j) {
      TouchedKey(s, t, d);
      TouchedKey(s, t, j);
      hide Reach, MainPosition;
      TouchedReach(s, t, MainPosition(hash, t.ns[j].key.k, |t.ns|), d);
      TouchedReach(s, t, d, j);
      NotShadowed(hash, s.ns, d, j);
    }
  }

  lemma TouchedReach(s: Contents, t: Contents, i: nat, j: nat)
    requires Touched(s, t)
    ensures Reach(s.ns, i, j) <==> Reach(t.ns, i, j)
  {
    forall x | 0 <= x < |s.ns|
      ensures t.ns[x].next == s.ns[x].next
    {
      TouchedKey(s, t, x);
    }
    hide Reach, Touched;
    if Reach(s.ns, i, j) {
      SameReach(s.ns, t.ns, i, j);
    }
    if Reach(t.ns, i, j) {
      SameReach(t.ns, s.ns, i, j);
    }
  }

  lemma TouchedHoused(hash: TValue -> nat, s: Contents, t: Contents)
    requires Touched(s, t) && Housed(hash, s.ns)
    ensures Housed(hash, t.ns)
  {
    forall j | 0 <= j < |t.ns| && t.ns[j].key != Free
      ensures var m := MainPosition(hash, t.ns[j].key.k, |t.ns|); AtHome(hash, t.ns, m) && Reach(t.ns, m, j)
    {
      TouchedKey(s, t, j);
      hide Reach, MainPosition, Touched;
      var m := MainPosition(hash, t.ns[j].key.k, |t.ns|);
      assert AtHome(hash, s.ns, m);
      TouchedKey(s, t, m);
      TouchedReach(s, t, m, j);
    }
  }

  lemma TouchedWired(s: Contents, t: Contents, rank: seq<real>)
    requires Touched(s, t) && Wired(s.ns, rank) && Filled(s.ns) && Unique(s.ns)
    ensures Wired(t.ns, rank) && Filled(t.ns) && Unique(t.ns)
  {
    forall j | 0 <= j < |s.ns|
      ensures t.ns[j].next == s.ns[j].next && (t.ns[j].key == Free <==> s.ns[j].key == Free)
      ensures t.ns[j].key.Key? ==> t.ns[j].key == s.ns[j].key
      ensures (t.ns[j].val != Nil ==> t.ns[j].key.Key?) && (t.ns[j].key != Free ==> t.ns[j].key.k != Nil)
    {
      assert NodeTouched(s.ns, t.ns, j);
    }
    hide Touched;
  }

  lemma TouchedSound(hash: TValue -> nat, s: Contents, t: Contents)
    requires Sound(hash, s) && Touched(s, t)
    ensures Sound(hash, t)
  {
    var rank :| NodesOk(hash, s.ns, rank);
    TouchedHoused(hash, s, t);
    TouchedWired(s, t, rank);
    forall d: nat, j: nat
      ensures !Shadowed(hash, t.ns, d, j)
    {
      TouchedShadow(hash, s, t, d, j);
    }
    forall j | 0 <= j < |t.ns| && t.ns[j].key.Key?
      ensures !IntKey(t.ns[j].key.k, |t.a|)
    {
      TouchedKey(s, t, j);
    }
    hide Housed, Wired, Filled, Unique, Touched;
    assert NodesOk(hash, t.ns, rank);
  }

  lemma SoundIndex(hash: TValue -> nat, s: Contents, key: TValue, p: nat, r: Option<int>)
    requires Sound(hash, s) && PosKey(s.a, s.ns, p) == Key(key)
    ensures IndexOk(hash, s.a, s.ns, key, r) <==> r == Some(p as int)
  {
    hide IndexOk, PosKey;
    var rank :| NodesOk(hash, s.ns, rank);
    IndexExact(hash, s.a, s.ns, rank, key, p, r);
  }

  lemma SoundFirst(hash: TValue -> nat, s: Contents, key: TValue, j: nat, r: Option<int>)
    requires Sound(hash, s) && FirstMatch(hash, s.ns, key, j) && key != Nil && !IntKey(key, |s.a|)
    ensures IndexOk(hash, s.a, s.ns, key, r) <==> r == Some(j + |s.a|)
  {
    hide IndexOk, FirstMatch;
    var rank :| NodesOk(hash, s.ns, rank);
    FirstIndex(hash, s.a, s.ns, rank, key, j, r);
  }

  /** A position keeps its key, unless that dies. */
  lemma PositionTouched(s: Contents, t: Contents, key: TValue, p: nat)
    requires Touched(s, t) && PosKey(s.a, s.ns, p) == Key(key)
    ensures |s.a| == |t.a| && |s.ns| == |t.ns|
    ensures PosKey(t.a, t.ns, p) == Key(key) || (p >= |s.a| && Holds(s.ns, key, p - |s.a|) && t.ns[p - |s.a|].key == Dead(key))
  {
    if p >= |s.a| {
      TouchedKey(s, t, p - |s.a|);
    }
  }

  /** A key that was in the table leads back to its position, even if it died since. */
  lemma ReturnedKey(hash: TValue -> nat, s: Contents, t: Contents, key: TValue, p: nat, r: Option<int>)
    requires Sound(hash, s) && Touched(s, t) && PosKey(s.a, s.ns, p) == Key(key)
    ensures IndexOk(hash, t.a, t.ns, key, r) <==> r == Some(p as int)
  {
    hide *;
    TouchedSound(hash, s, t);
    PositionTouched(s, t, key, p);
    if PosKey(t.a, t.ns, p) == Key(key) {
      SoundIndex(hash, t, key, p, r);
    } else {
      KilledFirst(hash, s, t, key, p - |s.a|);
      SoundFirst(hash, t, key, p - |s.a|, r);
    }
  }

  lemma KilledFirst(hash: TValue -> nat, s: Contents, t: Contents, key: TValue, j: nat)
    requires Sound(hash, s) && Sound(hash, t) && Touched(s, t) && Holds(s.ns, key, j) && t.ns[j].key == Dead(key)
    ensures FirstMatch(hash, t.ns, key, j) && key != Nil && !IntKey(key, |t.a|)
  {
    TouchedKey(s, t, j);
    assert Alone(s.ns, j);
    hide Reach, MainPosition, Wired, Touched;
    assert OnChain(hash, t.ns, key, j) by {
      assert NodeTouched(s.ns, t.ns, j);
    }
    forall i: nat | i != j && OnChain(hash, t.ns, key, i)
      ensures !Reach(t.ns, i, j)
    {
      TouchedKey(s, t, i);
      TouchedReach(s, t, i, j);
      TouchedReach(s, t, MainPosition(hash, key, |t.ns|), i);
      assert !Shadowed(hash, s.ns, i, j);
    }
    FirstHere(hash, t.ns, key, j);
  }

  // ------------------------------------------------------------------- traversal

  /** What luaH_next gives: its error, the end, or an entry. */
  datatype NextResult = BadKey | Done | Entry(key: TValue, val: TValue)

  ghost predicate NextFrom(a: seq<TValue>, ns: Nodes, i: Option<int>, r: NextResult) {
    match r
    case BadKey => i.None?
    case Done => i.Some? && NoNext(a, ns, i.value)
    case Entry(k, v) => i.Some? && NextEntry(a, ns, i.value, k, v)
  }

  ghost predicate NextOk(hash: TValue -> nat, a: seq<TValue>, ns: Nodes, key: TValue, r: NextResult) {
    exists i :: IndexOk(hash, a, ns, key, i) && NextFrom(a, ns, i, r)
  }

  /** The key of call k: nil at first, then the one that the call before gave. */
  function KeyOf(rs: seq<NextResult>, k: nat): TValue
    requires k <= |rs|
  {
    if k == 0 || !rs[k - 1].Entry? then Nil else rs[k - 1].key
  }

  /** A traversal: call k sees states[k] and gives rs[k]; every call but the last
      one gives an entry. */
  ghost predicate Walk(hash: TValue -> nat, states: seq<Contents>, rs: seq<NextResult>) {
    && |states| == |rs| > 0 && Sound(hash, states[0])
    && (forall k :: 0 < k < |states| ==> Touched(states[k - 1], states[k]))
    && (forall k :: 0 <= k < |rs| ==> NextOk(hash, states[k].a, states[k].ns, KeyOf(rs, k), rs[k]))
    && (forall k :: 0 <= k < |rs| - 1 ==> rs[k].Entry?)
  }

  lemma WalkStart(hash: TValue -> nat, states: seq<Contents>, rs: seq<NextResult>)
    requires Walk(hash, states, rs)
    ensures |states| == |rs| > 0 && Sound(hash, states[0])
  {
  }

  lemma WalkStep(hash: TValue -> nat, states: seq<Contents>, rs: seq<NextResult>, k: nat)
    requires Walk(hash, states, rs) && 0 < k < |rs|
    ensures |states| == |rs| && Touched(states[k - 1], states[k]) && rs[k - 1].Entry?
    ensures NextOk(hash, states[k].a, states[k].ns, rs[k - 1].key, rs[k])
  {
    hide Touched, NextOk;
    assert NextOk(hash, states[k].a, states[k].ns, KeyOf(rs, k), rs[k]);
  }

  lemma {:induction false} WalkSound(hash: TValue -> nat, states: seq<Contents>, rs: seq<NextResult>, i: nat, j: nat)
    requires Walk(hash, states, rs) && i <= j < |rs|
    ensures |states| == |rs| && Sound(hash, states[j]) && Touched(states[i], states[j])
    decreases j
  {
    hide *;
    WalkStart(hash, states, rs);
    if i < j {
      WalkSound(hash, states, rs, i, j - 1);
      WalkStep(hash, states, rs, j);
      TouchedSound(hash, states[j - 1], states[j]);
      TouchedThrough(states[i], states[j - 1], states[j]);
    } else if j > 0 {
      WalkSound(hash, states, rs, j - 1, j - 1);
      WalkStep(hash, states, rs, j);
      TouchedSound(hash, states[j - 1], states[j]);
      TouchedSelf(hash, states[j]);
    } else {
      TouchedSelf(hash, states[0]);
    }
  }

  lemma TouchedSelf(hash: TValue -> nat, s: Contents)
    requires Sound(hash, s)
    ensures Touched(s, s)
  {
  }

  /** Before the call k the traversal stands at ps[k]; ps[k + 1] is the position of
      the entry that it gives. */
  ghost predicate Stands(states: seq<Contents>, rs: seq<NextResult>, ps: seq<int>, k: nat)
    requires k < |states| == |rs| && k < |ps|
  {
    && (k == 0 ==> ps[k] == -1)
    && (k > 0 ==>
          && rs[k - 1].Entry? && ps[k] >= 0 && IsNext(states[k - 1].a, states[k - 1].ns, ps[k - 1], ps[k])
          && PosKey(states[k - 1].a, states[k - 1].ns, ps[k]) == Key(rs[k - 1].key)
          && PosVal(states[k - 1].a, states[k - 1].ns, ps[k]) == rs[k - 1].val)
  }

  lemma EntryPosition(a: seq<TValue>, ns: Nodes, i: Option<int>, r: NextResult) returns (p: nat)
    requires NextFrom(a, ns, i, r) && r.Entry?
    ensures i.Some? && IsNext(a, ns, i.value, p) && PosKey(a, ns, p) == Key(r.key) && PosVal(a, ns, p) == r.val
  {
    hide IsNext, PosKey, PosVal;
    p :| IsNext(a, ns, i.value, p) && PosKey(a, ns, p) == Key(r.key) && PosVal(a, ns, p) == r.val;
  }

  lemma CallIndex(hash: TValue -> nat, a: seq<TValue>, ns: Nodes, key: TValue, r: NextResult) returns (i: Option<int>)
    requires NextOk(hash, a, ns, key, r)
    ensures IndexOk(hash, a, ns, key, i) && NextFrom(a, ns, i, r)
  {
    hide IndexOk, NextFrom;
    i :| IndexOk(hash, a, ns, key, i) && NextFrom(a, ns, i, r);
  }

  lemma FirstCall(hash: TValue -> nat, states: seq<Contents>, rs: seq<NextResult>)
    requires Walk(hash, states, rs)
    ensures |states| == |rs| > 0 && NextFrom(states[0].a, states[0].ns, Some(-1), rs[0])
  {
    hide NextFrom;
    assert NextOk(hash, states[0].a, states[0].ns, KeyOf(rs, 0), rs[0]);
  }

  lemma StandsMore(states: seq<Contents>, rs: seq<NextResult>, qs: seq<int>, p: nat)
    requires 0 < |qs| < |states| == |rs| && forall k :: 0 <= k < |qs| ==> Stands(states, rs, qs, k)
    requires var s, r := states[|qs| - 1], rs[|qs| - 1];
             r.Entry? && IsNext(s.a, s.ns, qs[|qs| - 1], p) && PosKey(s.a, s.ns, p) == Key(r.key) && PosVal(s.a, s.ns, p) == r.val
    ensures forall k :: 0 <= k <= |qs| ==> Stands(states, rs, qs + [p], k)
  {
    hide IsNext, PosKey, PosVal;
    forall k | 0 <= k <= |qs|
      ensures Stands(states, rs, qs + [p], k)
    {
      if k < |qs| {
        assert Stands(states, rs, qs, k);
      }
    }
  }

  /** No call fails, and each goes on behind the entry that the call before gave. */
  lemma {:induction false} Positions(hash: TValue -> nat, states: seq<Contents>, rs: seq<NextResult>, n: nat) returns (ps: seq<int>)
    requires Walk(hash, states, rs) && n < |rs|
    ensures |states| == |rs| && |ps| == n + 1 && forall k :: 0 <= k <= n ==> Stands(states, rs, ps, k)
    ensures NextFrom(states[n].a, states[n].ns, Some(ps[n]), rs[n])
  {
    hide *;
    if n == 0 {
      ps := [-1];
      FirstCall(hash, states, rs);
      FirstStands(states, rs);
    } else {
      var qs := Positions(hash, states, rs, n - 1);
      var s, t := states[n - 1], states[n];
      WalkSound(hash, states, rs, n - 1, n - 1);
      WalkStep(hash, states, rs, n);
      var p := EntryPosition(s.a, s.ns, Some(qs[n - 1]), rs[n - 1]);
      ps := qs + [p];
      StandsMore(states, rs, qs, p);
      var i := CallIndex(hash, t.a, t.ns, rs[n - 1].key, rs[n]);
      ReturnedKey(hash, s, t, rs[n - 1].key, p, i);
    }
  }

  lemma FirstStands(states: seq<Contents>, rs: seq<NextResult>)
    requires |states| == |rs| > 0
    ensures Stands(states, rs, [-1], 0)
  {
  }

  lemma {:induction false} Increasing(states: seq<Contents>, rs: seq<NextResult>, ps: seq<int>, i: nat, j: nat)
    requires |states| == |rs| >= |ps| && (forall k :: 0 <= k < |ps| ==> Stands(states, rs, ps, k)) && i < j < |ps|
    ensures ps[i] < ps[j] && ps[i] >= -1
  {
    assert Stands(states, rs, ps, j) && Stands(states, rs, ps, i);
    if i < j - 1 {
      Increasing(states, rs, ps, i, j - 1);
    }
  }

  /** Where the traversal stands relative to position p. */
  lemma {:induction false} Passed(ps: seq<int>, p: int, k: nat) returns (m: nat)
    requires k < |ps| && p > ps[0]
    ensures m <= k && ps[m] < p && (m < k ==> p <= ps[m + 1])
  {
    if k == 0 || ps[k] < p {
      m := k;
    } else {
      m := Passed(ps, p, k - 1);
    }
  }

  lemma {:induction false} PositionBound(hash: TValue -> nat, states: seq<Contents>, rs: seq<NextResult>, ps: seq<int>, k: nat)
    requires Walk(hash, states, rs) && |rs| >= |ps| && k < |ps| && forall i :: 0 <= i < |ps| ==> Stands(states, rs, ps, i)
    ensures k <= ps[k] + 1 <= |states[0].a| + |states[0].ns|
  {
    assert Stands(states, rs, ps, k);
    if k > 0 {
      PositionBound(hash, states, rs, ps, k - 1);
      WalkSound(hash, states, rs, 0, k - 1);
    }
  }

  /** Where a key with a value is. */
  lemma Located(hash: TValue -> nat, s: Contents, key: TValue) returns (p: nat)
    requires Value(s.a, s.ns, key) != Nil
    ensures p < |s.a| + |s.ns| && PosKey(s.a, s.ns, p) == Key(key)
  {
    if IntKey(key, |s.a|) {
      p := key.n - 1;
    } else {
      var j: nat :| Holds(s.ns, key, j);
      p := |s.a| + j;
    }
  }

  lemma SoundParts(hash: TValue -> nat, s: Contents)
    requires Sound(hash, s)
    ensures Unique(s.ns) && Filled(s.ns) && NoArrayKeys(s.ns, |s.a|)
  {
    hide Unique, Filled, Housed, Unshadowed, Wired, NoArrayKeys;
  }

  lemma KeyValue(a: seq<TValue>, ns: Nodes, key: TValue, p: nat)
    requires Unique(ns) && PosKey(a, ns, p) == Key(key) && (p >= |a| ==> !IntKey(key, |a|) && Holds(ns, key, p - |a|))
    ensures Value(a, ns, key) == PosVal(a, ns, p)
  {
    hide Unique, NodeValue;
    if p >= |a| {
      NodeValueAt(ns, key, p - |a|);
    }
  }

  lemma LocatedOnce(hash: TValue -> nat, s: Contents, key: TValue, p: nat, q: nat)
    requires Sound(hash, s) && PosKey(s.a, s.ns, p) == Key(key) && PosKey(s.a, s.ns, q) == Key(key)
    ensures p == q && Value(s.a, s.ns, key) == PosVal(s.a, s.ns, p)
  {
    hide Sound, NodeValue, Value, PosKey, PosVal, Filled, NoArrayKeys;
    SoundParts(hash, s);
    KeyPosition(s.a, s.ns, key, p);
    KeyPosition(s.a, s.ns, key, q);
    KeyValue(s.a, s.ns, key, p);
  }

  /** A key that is there now was there before, at the same position. */
  lemma KeyStayed(s: Contents, t: Contents, key: TValue, p: nat)
    requires Touched(s, t) && PosKey(t.a, t.ns, p) == Key(key)
    ensures PosKey(s.a, s.ns, p) == Key(key)
  {
    if p >= |t.a| {
      TouchedKey(s, t, p - |t.a|);
    }
  }

  /** However values change meanwhile and dead entries lose their keys: no call of a
      traversal fails, and after no more calls than the table has positions it
      ends. */
  lemma WalkEnds(hash: TValue -> nat, states: seq<Contents>, rs: seq<NextResult>)
    requires Walk(hash, states, rs)
    ensures forall k :: 0 <= k < |rs| ==> rs[k] != BadKey
    ensures |rs| <= |states[0].a| + |states[0].ns| + 1
  {
    var n := |rs| - 1;
    var ps := Positions(hash, states, rs, n);
    PositionBound(hash, states, rs, ps, n);
  }

  /** An entry is the one of its key at that time, and no key comes twice. */
  lemma WalkOnce(hash: TValue -> nat, states: seq<Contents>, rs: seq<NextResult>, i: nat, j: nat)
    requires Walk(hash, states, rs) && i <= j < |rs| && rs[i].Entry? && rs[j].Entry?
    ensures rs[i].val == Value(states[i].a, states[i].ns, rs[i].key) && rs[i].val != Nil
    ensures rs[i].key == rs[j].key ==> i == j
  {
    var ps := Positions(hash, states, rs, j);
    var s, t := states[i], states[j];
    var q: nat :| IsNext(t.a, t.ns, ps[j], q) && PosKey(t.a, t.ns, q) == Key(rs[j].key) && PosVal(t.a, t.ns, q) == rs[j].val;
    WalkSound(hash, states, rs, i, j);
    WalkSound(hash, states, rs, i, i);
    if i == j {
      LocatedOnce(hash, t, rs[j].key, q, q);
    } else {
      assert Stands(states, rs, ps, i + 1);
      var p: nat := ps[i + 1];
      LocatedOnce(hash, s, rs[i].key, p, p);
      if i + 1 < j {
        Increasing(states, rs, ps, i + 1, j);
      }
      if rs[i].key == rs[j].key {
        KeyStayed(s, t, rs[j].key, q);
        LocatedOnce(hash, s, rs[j].key, p, q);
      }
    }
  }

  /** A traversal that came to its end gave every key that had a value all along,
      once, with the value that it had then. */
  lemma WalkComplete(hash: TValue -> nat, states: seq<Contents>, rs: seq<NextResult>, key: TValue) returns (c: nat)
    requires Walk(hash, states, rs) && rs[|rs| - 1] == Done
    requires forall k :: 0 <= k < |states| ==> Value(states[k].a, states[k].ns, key) != Nil
    ensures c < |rs| && rs[c] == Entry(key, Value(states[c].a, states[c].ns, key))
    ensures forall k :: 0 <= k < |rs| && rs[k].Entry? && rs[k].key == key ==> k == c
  {
    var n := |rs| - 1;
    var ps := Positions(hash, states, rs, n);
    var p := Located(hash, states[n], key);
    assert Stands(states, rs, ps, 0);
    c := Passed(ps, p, n);
    forall k | 0 <= k <= n
      ensures PosKey(states[k].a, states[k].ns, p) == Key(key) && PosVal(states[k].a, states[k].ns, p) != Nil
    {
      WalkSound(hash, states, rs, k, n);
      WalkSound(hash, states, rs, k, k);
      KeyStayed(states[k], states[n], key, p);
      LocatedOnce(hash, states[k], key, p, p);
    }
    assert c < n;
    assert Stands(states, rs, ps, c + 1);
    assert ps[c + 1] == p;
    WalkOnce(hash, states, rs, c, c);
    forall k | 0 <= k < |rs| && rs[k].Entry? && rs[k].key == key
      ensures k == c
    {
      if k < c {
        WalkOnce(hash, states, rs, k, c);
      } else {
        WalkOnce(hash, states, rs, c, k);
      }
    }
  }

  // ---------------------------------------------------------------------- length

  /** Zero when t[1] is nil, else an index with a value before one without. */
  ghost predicate Boundary(a: seq<TValue>, ns: Nodes, n: int) {
    && n >= 0
    && (n > 0 ==> Value(a, ns, Num(n)) != Nil)
    && Value(a, ns, Num(n + 1)) == Nil
  }

  /** An integer beyond which there is no key. */
  ghost function Limit(a: seq<TValue>, ns: Nodes): int {
    if ns == [] then |a|
    else
      var m := Limit(a, ns[..|ns| - 1]);
      var k := ns[|ns| - 1].key;
      if k.Key? && k.k.Num? && k.k.n > m then k.k.n else m
  }

  lemma {:induction false} LimitBounds(a: seq<TValue>, ns: Nodes)
    ensures Limit(a, ns) >= |a|
    ensures forall j :: 0 <= j < |ns| && ns[j].key.Key? && ns[j].key.k.Num? ==> ns[j].key.k.n <= Limit(a, ns)
  {
    if ns != [] {
      LimitBounds(a, ns[..|ns| - 1]);
    }
  }

  lemma Beyond(a: seq<TValue>, ns: Nodes, i: int)
    requires i > Limit(a, ns)
    ensures Value(a, ns, Num(i)) == Nil
  {
    LimitBounds(a, ns);
  }
}
