/** The hash part of a table: a chained scatter table with Brent's variation
    (src/ltable.c:8-20, src/ltable.c:90-112, src/ltable.c:439-479). */
module TableState {
  import opened Bits
  import opened Seqs

  /** Values and keys.  `Flt` is a number that is not an integer, `Ptr` any other
      object; two values are equal when the program's raw equality says so. */
  datatype TValue = Nil | Bool(b: bool) | Num(n: int) | Flt(id: nat) | Str(ts: nat, h: nat) | Ptr(addr: nat)

  predicate Collectable(k: TValue) {
    k.Str? || k.Ptr?
  }

  /** All objects share one address space, whatever their kind. */
  function Address(k: TValue): nat
    requires Collectable(k)
  {
    if k.Str? then k.ts else k.addr
  }

  predicate SameAddress(k: TValue, l: TValue) {
    Collectable(k) && Collectable(l) && Address(k) == Address(l)
  }

  /** The key of a node.  A dead key keeps the address it had. */
  datatype NodeKey = Free | Key(k: TValue) | Dead(k: TValue)

  datatype Node = Node(key: NodeKey, val: TValue, next: Option<nat>)

  const FREE_NODE := Node(Free, Nil, None)

  type Nodes = seq<Node>

  /** mainposition.  `hash` gives the hash value of numbers and addresses; a string
      brings its own, so that a new string at an old address may have another one.
      (size-1)|1 is the odd divisor of hashmod. */
  function MainPosition(hash: TValue -> nat, key: TValue, size: nat): (i: nat)
    requires size > 0
    ensures i < size
  {
    match key
    case Bool(b) => Lmod(if b then 1 else 0, size)
    case Str(_, h) => Lmod(h, size)
    case _ => if key == Num(0) then 0 else hash(key) % (if size % 2 == 0 then size - 1 else size)
  }

  /** In a vector of 2^g nodes a string is at home at its hash value modulo the size, and
      numbers and addresses at theirs modulo the largest odd number up to that. */
  lemma MainPositionIs(hash: TValue -> nat, key: TValue, g: nat)
    ensures var size, i := Pow2(g), MainPosition(hash, key, Pow2(g));
      && (key.Str? ==> i == key.h % size)
      && (key.Bool? ==> i == if key.b && g > 0 then 1 else 0)
      && (!key.Str? && !key.Bool? && key != Num(0) ==> i == hash(key) % (if g == 0 then 1 else size - 1))
      && (key == Num(0) ==> i == 0)
  {
    hide Lmod;
    var size := Pow2(g);
    assert IsPow2(size);
    if key.Str? {
      LmodRemainder(key.h, size);
    } else if key.Bool? {
      LmodRemainder(if key.b then 1 else 0, size);
      BoolHome(key.b, g);
    } else {
      EvenSize(g);
    }
  }

  lemma EvenSize(g: nat)
    ensures if g == 0 then Pow2(g) == 1 else Pow2(g) > 1 && Pow2(g) % 2 == 0
  {
  }

  lemma BoolHome(b: bool, g: nat)
    ensures (if b then 1 else 0) % Pow2(g) == if b && g > 0 then 1 else 0
  {
    if g > 0 {
      EvenSize(g);
      var n := if b then 1 else 0;
      Remainder(n, Pow2(g), 0, n);
    }
  }

  // ------------------------------------------------------------------- chains

  /** n steps along `next` lead from i to j. */
  ghost predicate Steps(ns: Nodes, i: nat, j: nat, n: nat)
    decreases n
  {
    && i < |ns|
    && if n == 0 then i == j else ns[i].next.Some? && Steps(ns, ns[i].next.value, j, n - 1)
  }

  ghost predicate Reach(ns: Nodes, i: nat, j: nat) {
    exists n: nat :: Steps(ns, i, j, n)
  }

  lemma ReachSelf(ns: Nodes, i: nat)
    requires i < |ns|
    ensures Reach(ns, i, i)
  {
    assert Steps(ns, i, i, 0);
  }

  lemma ReachOn(ns: Nodes, i: nat, j: nat)
    requires Reach(ns, i, j) && i != j
    ensures i < |ns| && ns[i].next.Some? && Reach(ns, ns[i].next.value, j)
  {
    var n: nat :| Steps(ns, i, j, n);
    assert Steps(ns, ns[i].next.value, j, n - 1);
  }

  lemma ReachVia(ns: Nodes, i: nat, j: nat)
    requires i < |ns| && ns[i].next.Some? && Reach(ns, ns[i].next.value, j)
    ensures Reach(ns, i, j)
  {
    var n: nat :| Steps(ns, ns[i].next.value, j, n);
    assert Steps(ns, i, j, n + 1);
  }

  /** Links run between used nodes only, to one from one at most, and never in a
      circle: `rank` grows along them. */
  ghost predicate Wired(ns: Nodes, rank: seq<real>) {
    && |rank| == |ns|
    && (forall i {:trigger ns[i].next} :: 0 <= i < |ns| && ns[i].next.Some? ==>
          && ns[i].key != Free && ns[i].next.value < |ns|
          && ns[ns[i].next.value].key != Free && rank[i] < rank[ns[i].next.value])
    && (forall i, j {:trigger ns[i].next, ns[j].next} :: 0 <= i < |ns| && 0 <= j < |ns| && ns[i].next.Some? && ns[i].next == ns[j].next ==> i == j)
  }

  /** What the fields of one node say. */
  ghost predicate Filled(ns: Nodes) {
    forall i :: 0 <= i < |ns| ==>
      && (ns[i].val != Nil ==> ns[i].key.Key?)
      && (ns[i].key != Free ==> ns[i].key.k != Nil)
  }

  ghost predicate Unique(ns: Nodes) {
    forall i, j :: 0 <= i < |ns| && 0 <= j < |ns| && ns[i].key.Key? && ns[i].key == ns[j].key ==> i == j
  }

  /** The node at m is where its own key belongs. */
  ghost predicate AtHome(hash: TValue -> nat, ns: Nodes, m: nat) {
    m < |ns| && ns[m].key != Free && MainPosition(hash, ns[m].key.k, |ns|) == m
  }

  /** Every key is found from its main position on, and when a key is not at its
      main position, the key that is there belongs there. */
  ghost predicate Housed(hash: TValue -> nat, ns: Nodes) {
    forall j :: 0 <= j < |ns| && ns[j].key != Free ==>
      var m := MainPosition(hash, ns[j].key.k, |ns|);
      AtHome(hash, ns, m) && Reach(ns, m, j)
  }

  /** On the way from the main position of the key at j to j stands, at d, a dead
      key with the same address. */
  ghost predicate Shadowed(hash: TValue -> nat, ns: Nodes, d: nat, j: nat) {
    && d < |ns| && j < |ns| && ns[d].key.Dead? && ns[j].key.Key? && SameAddress(ns[d].key.k, ns[j].key.k)
    && Reach(ns, MainPosition(hash, ns[j].key.k, |ns|), d) && Reach(ns, d, j)
  }

  ghost predicate Unshadowed(hash: TValue -> nat, ns: Nodes) {
    forall d: nat, j: nat :: !Shadowed(hash, ns, d, j)
  }

  lemma NotShadowed(hash: TValue -> nat, ns: Nodes, d: nat, j: nat)
    requires Unshadowed(hash, ns)
    ensures !Shadowed(hash, ns, d, j)
  {
  }

  ghost predicate NodesOk(hash: TValue -> nat, ns: Nodes, rank: seq<real>) {
    |ns| > 0 && Wired(ns, rank) && Filled(ns) && Unique(ns) && Housed(hash, ns) && Unshadowed(hash, ns)
  }

  lemma {:induction false} StepsForward(ns: Nodes, rank: seq<real>, i: nat, j: nat, n: nat)
    requires Wired(ns, rank) && Steps(ns, i, j, n)
    ensures j < |ns| && (i == j || rank[i] < rank[j])
    decreases n
  {
    if n > 0 {
      StepsForward(ns, rank, ns[i].next.value, j, n - 1);
    }
  }

  /** Chains have no circles. */
  lemma ReachOrder(ns: Nodes, rank: seq<real>, i: nat, j: nat)
    requires Wired(ns, rank) && Reach(ns, i, j) && Reach(ns, j, i)
    ensures i == j
  {
    var n: nat :| Steps(ns, i, j, n);
    var m: nat :| Steps(ns, j, i, m);
    StepsForward(ns, rank, i, j, n);
    StepsForward(ns, rank, j, i, m);
  }

  // -------------------------------------------------------------- the contents

  ghost predicate Holds(ns: Nodes, k: TValue, j: nat) {
    j < |ns| && ns[j].key == Key(k)
  }

  ghost predicate Present(ns: Nodes, k: TValue) {
    exists j: nat :: Holds(ns, k, j)
  }

  ghost function NodeValue(ns: Nodes, k: TValue): TValue {
    if Present(ns, k) then var j: nat :| Holds(ns, k, j); ns[j].val else Nil
  }

  lemma NodeValueAt(ns: Nodes, k: TValue, j: nat)
    requires Unique(ns) && Holds(ns, k, j)
    ensures NodeValue(ns, k) == ns[j].val
  {
  }

  /** How many nodes are in use. */
  ghost function UsedSet(ns: Nodes): set<nat> {
    set i | 0 <= i < |ns| && ns[i].key != Free
  }

  ghost function Below(n: nat): set<nat> {
    if n == 0 then {} else Below(n - 1) + {n - 1}
  }

  lemma {:induction false} BelowSize(n: nat)
    ensures |Below(n)| == n && forall i: nat :: i in Below(n) <==> i < n
  {
    if n > 0 {
      BelowSize(n - 1);
    }
  }

  lemma {:induction false} SubsetSize<T>(a: set<T>, b: set<T>)
    requires a <= b
    ensures |a| <= |b| && (|a| == |b| ==> a == b)
  {
    if a != {} {
      var x :| x in a;
      SubsetSize(a - {x}, b - {x});
    }
  }

  /** All nodes free. */
  lemma FreshOk(hash: TValue -> nat, ns: Nodes, rank: seq<real>)
    requires |ns| > 0 && |rank| == |ns| && forall i :: 0 <= i < |ns| ==> ns[i] == FREE_NODE
    ensures NodesOk(hash, ns, rank) && UsedSet(ns) == {} && forall k :: !Present(ns, k)
  {
  }

  // ------------------------------------------------- the three ways of insertion

  /** The value of the main position is nil: the key goes there; the node keeps
      its link. */
  function Reuse(ns: Nodes, mp: nat, key: TValue): Nodes
    requires mp < |ns|
  {
    ns[mp := ns[mp].(key := Key(key))]
  }

  /** The colliding node is at home: the key goes to a free node behind it. */
  function Append(ns: Nodes, mp: nat, n: nat, key: TValue): Nodes
    requires mp < |ns| && n < |ns|
  {
    ns[n := Node(Key(key), ns[n].val, ns[mp].next)][mp := ns[mp].(next := Some(n))]
  }

  /** The colliding node is not at home: it moves to a free node, and its
      predecessor follows. */
  function Move(ns: Nodes, prev: nat, mp: nat, n: nat, key: TValue): Nodes
    requires prev < |ns| && mp < |ns| && n < |ns|
  {
    ns[prev := ns[prev].(next := Some(n))][n := ns[mp]][mp := Node(Key(key), Nil, None)]
  }

  /** The key is in, with value nil, and nothing else has changed. */
  ghost predicate Inserted(ns: Nodes, ms: Nodes, key: TValue, at: nat) {
    && Unique(ms) && Holds(ms, key, at) && ms[at].val == Nil
    && (forall k :: k != key ==> NodeValue(ms, k) == NodeValue(ns, k) && (Present(ms, k) ==> Present(ns, k)))
  }

  // reuse

  lemma {:induction false} SameSteps(ns: Nodes, ms: Nodes, i: nat, j: nat, n: nat)
    requires |ms| == |ns| && (forall x :: 0 <= x < |ns| ==> ms[x].next == ns[x].next) && Steps(ns, i, j, n)
    ensures Steps(ms, i, j, n)
    decreases n
  {
    if n > 0 {
      SameSteps(ns, ms, ns[i].next.value, j, n - 1);
    }
  }

  lemma SameReach(ns: Nodes, ms: Nodes, i: nat, j: nat)
    requires |ms| == |ns| && (forall x :: 0 <= x < |ns| ==> ms[x].next == ns[x].next) && Reach(ns, i, j)
    ensures Reach(ms, i, j)
  {
    var n: nat :| Steps(ns, i, j, n);
    SameSteps(ns, ms, i, j, n);
  }

  lemma ReuseHoused(hash: TValue -> nat, ns: Nodes, mp: nat, key: TValue)
    requires |ns| > 0 && Housed(hash, ns) && mp == MainPosition(hash, key, |ns|)
    ensures Housed(hash, Reuse(ns, mp, key))
  {
    hide MainPosition;
    var ms := Reuse(ns, mp, key);
    forall j | 0 <= j < |ms| && ms[j].key != Free
      ensures var m := MainPosition(hash, ms[j].key.k, |ms|); AtHome(hash, ms, m) && Reach(ms, m, j)
    {
      if j == mp {
        ReachSelf(ms, mp);
      } else {
        SameReach(ns, ms, MainPosition(hash, ns[j].key.k, |ns|), j);
      }
    }
  }

  /** With the same links, a pair of nodes whose keys are the same is as it was. */
  lemma SameShadow(hash: TValue -> nat, ns: Nodes, ms: Nodes, d: nat, j: nat)
    requires |ms| == |ns| && (forall x :: 0 <= x < |ns| ==> ms[x].next == ns[x].next) && Unshadowed(hash, ns)
    requires d < |ns| && j < |ns| && ms[d].key == ns[d].key && ms[j].key == ns[j].key
    ensures !Shadowed(hash, ms, d, j)
  {
    hide MainPosition, Reach;
    if Shadowed(hash, ms, d, j) {
      SameReach(ms, ns, MainPosition(hash, ns[j].key.k, |ns|), d);
      SameReach(ms, ns, d, j);
      NotShadowed(hash, ns, d, j);
    }
  }

  lemma ReuseUnshadowed(hash: TValue -> nat, ns: Nodes, rank: seq<real>, mp: nat, key: TValue)
    requires |ns| > 0 && Unshadowed(hash, ns) && Wired(ns, rank) && mp == MainPosition(hash, key, |ns|)
    ensures Unshadowed(hash, Reuse(ns, mp, key))
  {
    hide MainPosition, Reach, Wired;
    var ms := Reuse(ns, mp, key);
    forall d: nat, j: nat
      ensures !Shadowed(hash, ms, d, j)
    {
      if Shadowed(hash, ms, d, j) {
        if j == mp {
          SameReach(ms, ns, mp, d);
          SameReach(ms, ns, d, mp);
          ReachOrder(ns, rank, d, mp);
        } else {
          SameShadow(hash, ns, ms, d, j);
        }
      }
    }
  }

  lemma ReuseOk(hash: TValue -> nat, ns: Nodes, rank: seq<real>, mp: nat, key: TValue)
    requires NodesOk(hash, ns, rank) && key != Nil && !Present(ns, key)
    requires mp == MainPosition(hash, key, |ns|) && ns[mp].val == Nil
    ensures NodesOk(hash, Reuse(ns, mp, key), rank) && Inserted(ns, Reuse(ns, mp, key), key, mp)
    ensures |UsedSet(Reuse(ns, mp, key))| <= |UsedSet(ns)| + 1
  {
    hide Housed, MainPosition, AtHome, Reach, Present, Inserted, Unshadowed;
    ReuseHoused(hash, ns, mp, key);
    ReuseUnshadowed(hash, ns, rank, mp, key);
    var ms := Reuse(ns, mp, key);
    assert UsedSet(ms) == UsedSet(ns) + {mp};
    OneChanged(ns, ms, key, mp);
  }

  /** Only one node has another key, and its value was nil: if it was the node of
      another key, nothing of that key shows. */
  lemma OneChanged(ns: Nodes, ms: Nodes, key: TValue, at: nat)
    requires Unique(ns) && Filled(ns) && !Present(ns, key) && key != Nil && |ms| == |ns| && at < |ns| && ns[at].val == Nil
    requires forall i: nat :: i < |ns| && i != at ==> ms[i].key == ns[i].key && ms[i].val == ns[i].val
    requires ms[at].key == Key(key) && ms[at].val == Nil
    ensures Filled(ms) && Inserted(ns, ms, key, at)
  {
    OneUnique(ns, ms, key, at);
    assert Holds(ms, key, at);
    forall k | k != key
      ensures NodeValue(ms, k) == NodeValue(ns, k) && (Present(ms, k) ==> Present(ns, k))
    {
      if Present(ns, k) {
        var j: nat :| Holds(ns, k, j);
        NodeValueAt(ns, k, j);
        if j != at {
          assert Holds(ms, k, j);
          NodeValueAt(ms, k, j);
        }
      }
      if Present(ms, k) {
        var j: nat :| Holds(ms, k, j);
        assert Holds(ns, k, j);
        NodeValueAt(ms, k, j);
      }
    }
  }

  lemma OneUnique(ns: Nodes, ms: Nodes, key: TValue, at: nat)
    requires Unique(ns) && !Present(ns, key) && |ms| == |ns| && at < |ns|
    requires forall i: nat :: i < |ns| && i != at ==> ms[i].key == ns[i].key
    requires ms[at].key == Key(key)
    ensures Unique(ms)
  {
    forall j | 0 <= j < |ns|
      ensures ns[j].key != Key(key)
    {
      assert !Holds(ns, key, j);
    }
  }

  // append

  lemma {:induction false} AppendSteps(ns: Nodes, mp: nat, n: nat, key: TValue, i: nat, j: nat, k: nat)
    requires mp < |ns| && n < |ns| && n != mp && ns[n].next.None? && i != n && j != n && Steps(ns, i, j, k)
    requires forall x :: 0 <= x < |ns| ==> ns[x].next != Some(n)
    ensures Reach(Append(ns, mp, n, key), i, j)
    decreases k
  {
    var ms := Append(ns, mp, n, key);
    if k == 0 {
      ReachSelf(ms, i);
    } else {
      var x := ns[i].next.value;
      AppendSteps(ns, mp, n, key, x, j, k - 1);
      if i == mp {
        ReachVia(ms, n, j);
      }
      ReachVia(ms, i, j);
    }
  }

  lemma AppendHoused(hash: TValue -> nat, ns: Nodes, rank: seq<real>, mp: nat, n: nat, key: TValue)
    requires |ns| > 0 && Wired(ns, rank) && Housed(hash, ns) && mp == MainPosition(hash, key, |ns|) && AtHome(hash, ns, mp)
    requires n < |ns| && ns[n].key == Free
    ensures Housed(hash, Append(ns, mp, n, key))
  {
    hide MainPosition;
    var ms := Append(ns, mp, n, key);
    forall j | 0 <= j < |ms| && ms[j].key != Free
      ensures var m := MainPosition(hash, ms[j].key.k, |ms|); AtHome(hash, ms, m) && Reach(ms, m, j)
    {
      if j == n {
        ReachSelf(ms, n);
        ReachVia(ms, mp, n);
      } else {
        var m := MainPosition(hash, ns[j].key.k, |ns|);
        assert AtHome(hash, ns, m);
        var k: nat :| Steps(ns, m, j, k);
        AppendSteps(ns, mp, n, key, m, j, k);
      }
    }
  }

  /** The new node ranks between the colliding one and its successor. */
  ghost function AppendRank(ns: Nodes, rank: seq<real>, mp: nat, n: nat): seq<real>
    requires |rank| == |ns| && mp < |ns| && n < |ns|
    requires ns[mp].next.Some? ==> ns[mp].next.value < |ns|
  {
    rank[n := if ns[mp].next.Some? then (rank[mp] + rank[ns[mp].next.value]) / 2.0 else rank[mp] + 1.0]
  }

  lemma AppendWired(ns: Nodes, rank: seq<real>, mp: nat, n: nat, key: TValue)
    requires Wired(ns, rank) && mp < |ns| && n < |ns| && ns[n].key == Free && ns[mp].key != Free
    ensures Wired(Append(ns, mp, n, key), AppendRank(ns, rank, mp, n))
  {
    var ms := Append(ns, mp, n, key);
    assert forall i :: 0 <= i < |ns| ==> ms[i].next == if i == mp then Some(n) else if i == n then ns[mp].next else ns[i].next;
  }

  /** What is reached between old nodes was reached before. */
  lemma {:induction false} AppendStepsBack(ns: Nodes, mp: nat, n: nat, key: TValue, i: nat, j: nat, k: nat)
    requires mp < |ns| && n < |ns| && n != mp && i != n && j != n && Steps(Append(ns, mp, n, key), i, j, k)
    requires forall x :: 0 <= x < |ns| ==> ns[x].next != Some(n)
    ensures Reach(ns, i, j)
    decreases k
  {
    var ms := Append(ns, mp, n, key);
    if k == 0 {
      ReachSelf(ns, i);
    } else if i == mp {
      assert Steps(ms, n, j, k - 1) && k > 1;
      AppendStepsBack(ns, mp, n, key, ns[mp].next.value, j, k - 2);
      ReachVia(ns, i, j);
    } else {
      AppendStepsBack(ns, mp, n, key, ns[i].next.value, j, k - 1);
      ReachVia(ns, i, j);
    }
  }

  lemma AppendReachBack(ns: Nodes, mp: nat, n: nat, key: TValue, i: nat, j: nat)
    requires mp < |ns| && n < |ns| && n != mp && i != n && j != n && Reach(Append(ns, mp, n, key), i, j)
    requires forall x :: 0 <= x < |ns| ==> ns[x].next != Some(n)
    ensures Reach(ns, i, j)
  {
    var k: nat :| Steps(Append(ns, mp, n, key), i, j, k);
    AppendStepsBack(ns, mp, n, key, i, j, k);
  }

  lemma NoLinkTo(ns: Nodes, rank: seq<real>, n: nat)
    requires Wired(ns, rank) && n < |ns| && ns[n].key == Free
    ensures forall x :: 0 <= x < |ns| ==> ns[x].next != Some(n)
  {
  }

  /** The new node comes right behind a live one, so no dead key is before it. */
  lemma AppendUnshadowed(hash: TValue -> nat, ns: Nodes, rank: seq<real>, mp: nat, n: nat, key: TValue)
    requires |ns| > 0 && Unshadowed(hash, ns) && Wired(ns, rank) && Housed(hash, ns) && mp == MainPosition(hash, key, |ns|)
    requires mp < |ns| && n < |ns| && ns[n].key == Free && ns[mp].key.Key?
    ensures Unshadowed(hash, Append(ns, mp, n, key))
  {
    NoLinkTo(ns, rank, n);
    AppendWired(ns, rank, mp, n, key);
    hide MainPosition, Reach, Wired;
    var ms := Append(ns, mp, n, key);
    forall d: nat, j: nat
      ensures !Shadowed(hash, ms, d, j)
    {
      if Shadowed(hash, ms, d, j) {
        assert d != mp && d != n;
        if j == n {
          ReachOn(ms, mp, d);
          ReachOrder(ms, AppendRank(ns, rank, mp, n), n, d);
        } else {
          var m := MainPosition(hash, ns[j].key.k, |ns|);
          assert AtHome(hash, ns, m);
          AppendReachBack(ns, mp, n, key, m, d);
          AppendReachBack(ns, mp, n, key, d, j);
          NotShadowed(hash, ns, d, j);
        }
      }
    }
  }

  lemma AppendOk(hash: TValue -> nat, ns: Nodes, rank: seq<real>, mp: nat, n: nat, key: TValue)
    requires NodesOk(hash, ns, rank) && key != Nil && !Present(ns, key)
    requires mp == MainPosition(hash, key, |ns|) && AtHome(hash, ns, mp) && ns[mp].val != Nil && n < |ns| && ns[n].key == Free
    ensures NodesOk(hash, Append(ns, mp, n, key), AppendRank(ns, rank, mp, n)) && Inserted(ns, Append(ns, mp, n, key), key, n)
    ensures |UsedSet(Append(ns, mp, n, key))| <= |UsedSet(ns)| + 1
  {
    AppendHoused(hash, ns, rank, mp, n, key);
    AppendUnshadowed(hash, ns, rank, mp, n, key);
    hide Unshadowed, Housed, MainPosition, Wired, AppendRank, Present, Inserted, Reach;
    AppendWired(ns, rank, mp, n, key);
    var ms := Append(ns, mp, n, key);
    assert UsedSet(ms) == UsedSet(ns) + {n};
    OneChanged(ns, ms, key, n);
  }

  // move

  /** Where the contents of a node are after the move. */
  function Moved(mp: nat, n: nat, i: nat): nat {
    if i == mp then n else i
  }

  lemma {:induction false} MoveSteps(ns: Nodes, prev: nat, mp: nat, n: nat, key: TValue, i: nat, j: nat, k: nat)
    requires prev < |ns| && mp < |ns| && n < |ns| && n != mp && n != prev && prev != mp
    requires ns[prev].next == Some(mp) && forall x :: 0 <= x < |ns| && ns[x].next == Some(mp) ==> x == prev
    requires ns[n].next.None? && i != n && Steps(ns, i, j, k)
    requires forall x :: 0 <= x < |ns| ==> ns[x].next != Some(n)
    requires ns[mp].next != Some(mp)
    ensures Reach(Move(ns, prev, mp, n, key), Moved(mp, n, i), Moved(mp, n, j))
    decreases k
  {
    var ms := Move(ns, prev, mp, n, key);
    if k == 0 {
      ReachSelf(ms, Moved(mp, n, i));
    } else {
      var x := ns[i].next.value;
      MoveSteps(ns, prev, mp, n, key, x, j, k - 1);
      ReachVia(ms, Moved(mp, n, i), Moved(mp, n, j));
    }
  }

  ghost predicate Before(ns: Nodes, prev: nat, mp: nat) {
    prev < |ns| && ns[prev].next == Some(mp)
  }

  lemma MoveHoused(hash: TValue -> nat, ns: Nodes, rank: seq<real>, prev: nat, mp: nat, n: nat, key: TValue)
    requires |ns| > 0 && Wired(ns, rank) && Housed(hash, ns) && mp == MainPosition(hash, key, |ns|)
    requires Before(ns, prev, mp) && n < |ns| && ns[n].key == Free && ns[mp].key != Free && !AtHome(hash, ns, mp)
    ensures Housed(hash, Move(ns, prev, mp, n, key))
  {
    hide MainPosition;
    var ms := Move(ns, prev, mp, n, key);
    assert prev != mp && prev != n && n != mp;
    forall j | 0 <= j < |ms| && ms[j].key != Free
      ensures var m := MainPosition(hash, ms[j].key.k, |ms|); AtHome(hash, ms, m) && Reach(ms, m, j)
    {
      if j == mp {
        ReachSelf(ms, mp);
      } else {
        var o := if j == n then mp else j;
        assert ms[j].key == ns[o].key;
        var m := MainPosition(hash, ns[o].key.k, |ns|);
        assert AtHome(hash, ns, m) && m != mp && m != n;
        var k: nat :| Steps(ns, m, o, k);
        MoveSteps(ns, prev, mp, n, key, m, o, k);
      }
    }
  }

  lemma {:induction false} MoveStepsBack(ns: Nodes, prev: nat, mp: nat, n: nat, key: TValue, i: nat, j: nat, k: nat)
    requires prev < |ns| && mp < |ns| && n < |ns| && n != mp && n != prev && prev != mp
    requires ns[prev].next == Some(mp) && forall x :: 0 <= x < |ns| && ns[x].next == Some(mp) ==> x == prev
    requires ns[mp].next != Some(mp) && (forall x :: 0 <= x < |ns| ==> ns[x].next != Some(n))
    requires i != mp && Steps(Move(ns, prev, mp, n, key), i, j, k)
    ensures j != mp && Reach(ns, Moved(n, mp, i), Moved(n, mp, j))
    decreases k
  {
    var ms := Move(ns, prev, mp, n, key);
    if k == 0 {
      ReachSelf(ns, Moved(n, mp, i));
    } else {
      MoveStepsBack(ns, prev, mp, n, key, ms[i].next.value, j, k - 1);
      ReachVia(ns, Moved(n, mp, i), Moved(n, mp, j));
    }
  }

  lemma MoveReachBack(ns: Nodes, rank: seq<real>, prev: nat, mp: nat, n: nat, key: TValue, i: nat, j: nat)
    requires Wired(ns, rank) && Before(ns, prev, mp) && mp < |ns| && n < |ns| && ns[n].key == Free
    requires i != mp && Reach(Move(ns, prev, mp, n, key), i, j)
    ensures j != mp && Reach(ns, Moved(n, mp, i), Moved(n, mp, j))
  {
    BeforeApart(ns, rank, prev, mp, n);
    NoLinkTo(ns, rank, n);
    var k: nat :| Steps(Move(ns, prev, mp, n, key), i, j, k);
    assert forall x :: 0 <= x < |ns| && ns[x].next == Some(mp) ==> x == prev;
    MoveStepsBack(ns, prev, mp, n, key, i, j, k);
  }

  /** Chains keep their order, and the new key is alone in its chain. */
  lemma MoveUnshadowed(hash: TValue -> nat, ns: Nodes, rank: seq<real>, prev: nat, mp: nat, n: nat, key: TValue)
    requires |ns| > 0 && Unshadowed(hash, ns) && Wired(ns, rank) && Housed(hash, ns) && mp == MainPosition(hash, key, |ns|)
    requires Before(ns, prev, mp) && n < |ns| && ns[n].key == Free && !AtHome(hash, ns, mp)
    ensures Unshadowed(hash, Move(ns, prev, mp, n, key))
  {
    BeforeApart(ns, rank, prev, mp, n);
    hide MainPosition, Reach, Wired;
    var ms := Move(ns, prev, mp, n, key);
    forall d: nat, j: nat
      ensures !Shadowed(hash, ms, d, j)
    {
      if Shadowed(hash, ms, d, j) {
        assert d != mp;
        MoveReachBack(ns, rank, prev, mp, n, key, d, j);
        var e, i := Moved(n, mp, d), Moved(n, mp, j);
        assert ms[d].key == ns[e].key && ms[j].key == ns[i].key;
        var m := MainPosition(hash, ns[i].key.k, |ns|);
        assert AtHome(hash, ns, m);
        MoveReachBack(ns, rank, prev, mp, n, key, m, d);
        NotShadowed(hash, ns, e, i);
      }
    }
  }

  ghost function MoveRank(rank: seq<real>, mp: nat, n: nat): seq<real>
    requires mp < |rank| && n < |rank|
  {
    rank[n := rank[mp]]
  }

  lemma MoveWired(ns: Nodes, rank: seq<real>, prev: nat, mp: nat, n: nat, key: TValue)
    requires Wired(ns, rank) && Before(ns, prev, mp) && mp < |ns| && n < |ns| && ns[n].key == Free && ns[mp].key != Free
    ensures Wired(Move(ns, prev, mp, n, key), MoveRank(rank, mp, n))
  {
    var ms := Move(ns, prev, mp, n, key);
    assert prev != mp && prev != n && n != mp;
    assert forall i :: 0 <= i < |ns| ==>
      ms[i].next == if i == mp then None else if i == n then ns[mp].next else if i == prev then Some(n) else ns[i].next;
  }

  lemma MoveUnique(ns: Nodes, prev: nat, mp: nat, n: nat, key: TValue)
    requires Unique(ns) && Filled(ns) && !Present(ns, key) && key != Nil && Before(ns, prev, mp) && mp < |ns| && n < |ns|
    requires ns[n].key == Free && prev != mp && prev != n && n != mp
    ensures Unique(Move(ns, prev, mp, n, key)) && Filled(Move(ns, prev, mp, n, key))
  {
    forall j | 0 <= j < |ns|
      ensures ns[j].key != Key(key)
    {
      assert !Holds(ns, key, j);
    }
    var ms := Move(ns, prev, mp, n, key);
    assert forall j :: 0 <= j < |ns| && j != mp ==> ms[j].key == ns[if j == n then mp else j].key;
  }

  lemma MoveInserted(ns: Nodes, prev: nat, mp: nat, n: nat, key: TValue)
    requires Unique(ns) && Filled(ns) && !Present(ns, key) && key != Nil && Before(ns, prev, mp) && mp < |ns| && n < |ns|
    requires ns[n].key == Free && prev != mp && prev != n && n != mp
    ensures Inserted(ns, Move(ns, prev, mp, n, key), key, mp)
  {
    MoveUnique(ns, prev, mp, n, key);
    var ms := Move(ns, prev, mp, n, key);
    assert Holds(ms, key, mp);
    forall k | k != key
      ensures NodeValue(ms, k) == NodeValue(ns, k) && (Present(ms, k) ==> Present(ns, k))
    {
      if Present(ns, k) {
        var j: nat :| Holds(ns, k, j);
        NodeValueAt(ns, k, j);
        assert Holds(ms, k, Moved(mp, n, j));
        NodeValueAt(ms, k, Moved(mp, n, j));
      }
      if Present(ms, k) {
        var j: nat :| Holds(ms, k, j);
        assert Holds(ns, k, if j == n then mp else j);
      }
    }
  }

  lemma BeforeApart(ns: Nodes, rank: seq<real>, prev: nat, mp: nat, n: nat)
    requires Wired(ns, rank) && Before(ns, prev, mp) && n < |ns| && ns[n].key == Free
    ensures prev < |ns| && mp < |ns| && prev != mp && prev != n && n != mp && ns[mp].key != Free
  {
  }

  lemma MoveOk(hash: TValue -> nat, ns: Nodes, rank: seq<real>, prev: nat, mp: nat, n: nat, key: TValue)
    requires NodesOk(hash, ns, rank) && key != Nil && !Present(ns, key) && mp == MainPosition(hash, key, |ns|)
    requires Before(ns, prev, mp) && n < |ns| && ns[n].key == Free && !AtHome(hash, ns, mp)
    ensures NodesOk(hash, Move(ns, prev, mp, n, key), MoveRank(rank, mp, n)) && Inserted(ns, Move(ns, prev, mp, n, key), key, mp)
    ensures |UsedSet(Move(ns, prev, mp, n, key))| <= |UsedSet(ns)| + 1
  {
    hide Unshadowed, Housed, MainPosition, Present, Inserted, Reach, AtHome, Wired, Filled, Unique, Before, MoveRank;
    BeforeApart(ns, rank, prev, mp, n);
    MoveHoused(hash, ns, rank, prev, mp, n, key);
    MoveUnshadowed(hash, ns, rank, prev, mp, n, key);
    MoveWired(ns, rank, prev, mp, n, key);
    MoveUnique(ns, prev, mp, n, key);
    MoveInserted(ns, prev, mp, n, key);
    MoveUsed(ns, prev, mp, n, key);
  }

  lemma MoveUsed(ns: Nodes, prev: nat, mp: nat, n: nat, key: TValue)
    requires prev < |ns| && mp < |ns| && n < |ns| && ns[mp].key != Free
    ensures |UsedSet(Move(ns, prev, mp, n, key))| <= |UsedSet(ns)| + 1
  {
    assert UsedSet(Move(ns, prev, mp, n, key)) == UsedSet(ns) + {n};
  }

  // ------------------------------------------------------------- array and nodes

  /** key is one of the integers 1..n. */
  predicate IntKey(key: TValue, n: int) {
    key.Num? && 1 <= key.n <= n
  }

  /** What a table maps k to. */
  ghost function Value(arr: seq<TValue>, ns: Nodes, k: TValue): TValue {
    if IntKey(k, |arr|) then arr[k.n - 1] else NodeValue(ns, k)
  }

  /** No node has a key that belongs to the array part. */
  ghost predicate NoArrayKeys(ns: Nodes, n: int) {
    forall j :: 0 <= j < |ns| && ns[j].key.Key? ==> !IntKey(ns[j].key.k, n)
  }

  /** The nodes from `lastfree` on are in use. */
  ghost predicate FreeBelow(ns: Nodes, lastfree: int) {
    forall j :: 0 <= j < |ns| && lastfree <= j ==> ns[j].key != Free
  }

  /** The shared node of an empty hash part has no free place to give. */
  ghost predicate FreeOk(ns: Nodes, dummy: bool, lastfree: int) {
    && lastfree <= |ns|
    && if dummy then lastfree <= 0 && ns == [FREE_NODE] else FreeBelow(ns, lastfree)
  }

  lemma InsertedKeepsArray(ns: Nodes, ms: Nodes, key: TValue, at: nat, n: int)
    requires Inserted(ns, ms, key, at) && NoArrayKeys(ns, n) && !IntKey(key, n)
    ensures NoArrayKeys(ms, n)
  {
    forall j | 0 <= j < |ms| && ms[j].key.Key?
      ensures !IntKey(ms[j].key.k, n)
    {
      var k := ms[j].key.k;
      assert Holds(ms, k, j) && Present(ms, k);
      if k != key {
        assert NodeValue(ms, k) == NodeValue(ns, k);
        var i: nat :| Holds(ns, k, i);
      }
    }
  }

  lemma InsertedValue(arr: seq<TValue>, ns: Nodes, ms: Nodes, key: TValue, at: nat)
    requires Inserted(ns, ms, key, at) && !Present(ns, key)
    ensures forall k :: Value(arr, ms, k) == Value(arr, ns, k)
  {
    NodeValueAt(ms, key, at);
  }

  // ------------------------------------------------------------------ a rebuild

  /** The contents while a table is rebuilt: the first `lim` elements of the old
      array part and the old nodes from m on are back. */
  ghost function Restored(a: seq<TValue>, lim: int, ns: Nodes, m: int, k: TValue): TValue {
    if IntKey(k, |a|) then (if k.n <= lim then a[k.n - 1] else Nil)
    else if PresentFrom(ns, m, k) then NodeValue(ns, k)
    else Nil
  }

  ghost predicate PresentFrom(ns: Nodes, m: int, k: TValue) {
    exists j: nat :: m <= j && Holds(ns, k, j)
  }

  lemma RestoreNode(a: seq<TValue>, ns: Nodes, m: nat, k: TValue)
    requires m < |ns| && Unique(ns) && NoArrayKeys(ns, |a|)
    ensures Restored(a, |a|, ns, m, k) ==
            if ns[m].key == Key(k) then ns[m].val else Restored(a, |a|, ns, m + 1, k)
  {
    if ns[m].key == Key(k) {
      assert Holds(ns, k, m);
      NodeValueAt(ns, k, m);
    } else if PresentFrom(ns, m, k) {
      var j: nat :| m <= j && Holds(ns, k, j);
      assert m + 1 <= j;
    }
  }

  /** A node without a value adds nothing. */
  lemma RestoreNil(a: seq<TValue>, ns: Nodes, m: nat, k: TValue)
    requires m < |ns| && Unique(ns) && NoArrayKeys(ns, |a|) && ns[m].val == Nil
    ensures Restored(a, |a|, ns, m, k) == Restored(a, |a|, ns, m + 1, k)
  {
    RestoreNode(a, ns, m, k);
    if ns[m].key == Key(k) {
      assert forall j: nat :: m + 1 <= j ==> !Holds(ns, k, j);
    }
  }

  lemma RestoreAll(a: seq<TValue>, ns: Nodes, k: TValue)
    ensures Restored(a, |a|, ns, 0, k) == Value(a, ns, k)
  {
    if Present(ns, k) {
      var j: nat :| Holds(ns, k, j);
      assert 0 <= j && Holds(ns, k, j);
    }
  }

  lemma RestoreNone(a: seq<TValue>, lim: nat, ns: Nodes, b: seq<TValue>, k: TValue)
    requires lim == (if |a| < |b| then |a| else |b|) && forall i :: 0 <= i < |b| ==> b[i] == if i < |a| then a[i] else Nil
    ensures (if IntKey(k, |b|) then b[k.n - 1] else Nil) == Restored(a, lim, ns, |ns|, k)
  {
  }

  /** Only a value changes. */
  lemma StoreNode(hash: TValue -> nat, ns: Nodes, rank: seq<real>, key: TValue, at: nat, v: TValue)
    requires NodesOk(hash, ns, rank) && Holds(ns, key, at)
    ensures var ms := ns[at := ns[at].(val := v)];
            && NodesOk(hash, ms, rank) && UsedSet(ms) == UsedSet(ns)
            && (forall k :: NodeValue(ms, k) == if k == key then v else NodeValue(ns, k))
  {
    hide Unshadowed, Housed, NodeValue, MainPosition, Present;
    StoreHoused(hash, ns, at, v);
    StoreUnshadowed(hash, ns, at, v);
    StoreValue(ns, key, at, v);
    assert UsedSet(ns[at := ns[at].(val := v)]) == UsedSet(ns);
    StoreWired(ns, rank, at, v);
    hide Wired, UsedSet;
  }

  lemma StoreWired(ns: Nodes, rank: seq<real>, at: nat, v: TValue)
    requires Wired(ns, rank) && at < |ns|
    ensures Wired(ns[at := ns[at].(val := v)], rank)
  {
    var ms := ns[at := ns[at].(val := v)];
    assert forall i :: 0 <= i < |ns| ==> ms[i].next == ns[i].next && ms[i].key == ns[i].key;
  }

  lemma StoreValue(ns: Nodes, key: TValue, at: nat, v: TValue)
    requires Unique(ns) && Holds(ns, key, at)
    ensures forall k :: NodeValue(ns[at := ns[at].(val := v)], k) == if k == key then v else NodeValue(ns, k)
  {
    var ms := ns[at := ns[at].(val := v)];
    forall k
      ensures NodeValue(ms, k) == if k == key then v else NodeValue(ns, k)
    {
      if Present(ns, k) {
        var j: nat :| Holds(ns, k, j);
        assert Holds(ms, k, j);
        NodeValueAt(ns, k, j);
        NodeValueAt(ms, k, j);
      }
      if Present(ms, k) {
        var j: nat :| Holds(ms, k, j);
        assert Holds(ns, k, j);
      }
    }
  }

  lemma StoreRest(ns: Nodes, at: nat, v: TValue, n: int, dummy: bool, lastfree: int)
    requires at < |ns| && ns[at].key != Free && NoArrayKeys(ns, n) && FreeOk(ns, dummy, lastfree)
    ensures var ms := ns[at := ns[at].(val := v)]; NoArrayKeys(ms, n) && FreeOk(ms, dummy, lastfree)
  {
  }

  lemma StoreHoused(hash: TValue -> nat, ns: Nodes, at: nat, v: TValue)
    requires |ns| > 0 && Housed(hash, ns) && at < |ns|
    ensures Housed(hash, ns[at := ns[at].(val := v)])
  {
    hide MainPosition;
    var ms := ns[at := ns[at].(val := v)];
    forall j | 0 <= j < |ms| && ms[j].key != Free
      ensures var m := MainPosition(hash, ms[j].key.k, |ms|); AtHome(hash, ms, m) && Reach(ms, m, j)
    {
      SameReach(ns, ms, MainPosition(hash, ns[j].key.k, |ns|), j);
    }
  }

  lemma StoreUnshadowed(hash: TValue -> nat, ns: Nodes, at: nat, v: TValue)
    requires Unshadowed(hash, ns) && at < |ns|
    ensures Unshadowed(hash, ns[at := ns[at].(val := v)])
  {
    hide MainPosition, Reach;
    var ms := ns[at := ns[at].(val := v)];
    forall d: nat, j: nat
      ensures !Shadowed(hash, ms, d, j)
    {
      if d < |ns| && j < |ns| {
        SameShadow(hash, ns, ms, d, j);
      }
    }
  }

  // ------------------------------------------------------------------ dead keys

  /** No other live key of the table has the address of the key at j: live keys
      are referred to by the table, so they are different objects. */
  ghost predicate Alone(ns: Nodes, j: nat)
    requires j < |ns| && ns[j].key != Free
  {
    forall i :: 0 <= i < |ns| && i != j && ns[i].key.Key? ==> !SameAddress(ns[i].key.k, ns[j].key.k)
  }

  function Killed(ns: Nodes, j: nat): Nodes
    requires j < |ns| && ns[j].key != Free
  {
    if Collectable(ns[j].key.k) then ns[j := ns[j].(key := Dead(ns[j].key.k))] else ns
  }

  /** A key without a value may die: nothing shows. */
  lemma KillOk(hash: TValue -> nat, ns: Nodes, rank: seq<real>, j: nat, n: int, dummy: bool, lastfree: int)
    requires NodesOk(hash, ns, rank) && j < |ns| && ns[j].key != Free && ns[j].val == Nil && (ns[j].key.Key? ==> Alone(ns, j))
    requires NoArrayKeys(ns, n) && FreeOk(ns, dummy, lastfree)
    ensures var ms := Killed(ns, j);
            && NodesOk(hash, ms, rank) && NoArrayKeys(ms, n) && FreeOk(ms, dummy, lastfree)
            && (forall k :: NodeValue(ms, k) == NodeValue(ns, k))
  {
    hide MainPosition, NodeValue, Housed, Present, Unshadowed;
    KillHoused(hash, ns, j);
    KillUnshadowed(hash, ns, j);
    KillValue(ns, j);
    var ms := Killed(ns, j);
    assert forall i :: 0 <= i < |ns| ==> ms[i].next == ns[i].next && (ms[i].key == Free <==> ns[i].key == Free);
  }

  lemma KillHoused(hash: TValue -> nat, ns: Nodes, at: nat)
    requires |ns| > 0 && Housed(hash, ns) && at < |ns| && ns[at].key != Free
    ensures Housed(hash, Killed(ns, at))
  {
    hide MainPosition;
    var ms := Killed(ns, at);
    forall j | 0 <= j < |ms| && ms[j].key != Free
      ensures var m := MainPosition(hash, ms[j].key.k, |ms|); AtHome(hash, ms, m) && Reach(ms, m, j)
    {
      SameReach(ns, ms, MainPosition(hash, ns[j].key.k, |ns|), j);
    }
  }

  lemma KillUnshadowed(hash: TValue -> nat, ns: Nodes, at: nat)
    requires Unshadowed(hash, ns) && at < |ns| && ns[at].key != Free && (ns[at].key.Key? ==> Alone(ns, at))
    ensures Unshadowed(hash, Killed(ns, at))
  {
    hide MainPosition, Reach;
    var ms := Killed(ns, at);
    forall d: nat, j: nat
      ensures !Shadowed(hash, ms, d, j)
    {
      if Shadowed(hash, ms, d, j) {
        SameShadow(hash, ns, ms, d, j);
      }
    }
  }

  lemma KillValue(ns: Nodes, at: nat)
    requires Unique(ns) && at < |ns| && ns[at].key != Free && ns[at].val == Nil
    ensures forall k :: NodeValue(Killed(ns, at), k) == NodeValue(ns, k)
  {
    var ms := Killed(ns, at);
    forall k
      ensures NodeValue(ms, k) == NodeValue(ns, k)
    {
      if Present(ns, k) {
        var j: nat :| Holds(ns, k, j);
        NodeValueAt(ns, k, j);
        if j != at {
          assert Holds(ms, k, j);
          NodeValueAt(ms, k, j);
        }
      }
      if Present(ms, k) {
        var j: nat :| Holds(ms, k, j);
        NodeValueAt(ms, k, j);
        assert Holds(ns, k, j);
      }
    }
  }
}
