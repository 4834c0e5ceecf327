/** Tables: an array part and a hash part, rebuilt when the hash part is full
    (src/ltable.c). */
module Tables {
  import opened Bits
  import opened Seqs
  import opened TableState
  import opened TableSizes
  import opened TableWalk

  /** How an assignment ends: done, or with one of two errors. */
  datatype SetResult = Stored | NilKey | Overflow

  /** Where the value of a key is kept. */
  datatype Place = Absent | InArray(i: nat) | InNode(j: nat)

  ghost predicate At(arr: seq<TValue>, ns: Nodes, key: TValue, p: Place) {
    match p
    case Absent => !IntKey(key, |arr|) && !Present(ns, key)
    case InArray(i) => i < |arr| && key == Num(i + 1)
    case InNode(j) => !IntKey(key, |arr|) && Holds(ns, key, j)
  }

  ghost function Ahead(rank: seq<real>, r: real): set<nat> {
    set j: nat | j < |rank| && rank[j] >= r
  }

  lemma AheadLess(rank: seq<real>, i: nat, j: nat)
    requires i < |rank| && j < |rank| && rank[i] < rank[j]
    ensures |Ahead(rank, rank[j])| < |Ahead(rank, rank[i])|
  {
    assert i in Ahead(rank, rank[i]) && i !in Ahead(rank, rank[j]);
    SubsetSize(Ahead(rank, rank[j]), Ahead(rank, rank[i]) - {i});
  }

  lemma LinkAhead(ns: Nodes, rank: seq<real>, i: nat)
    requires Wired(ns, rank) && i < |ns| && ns[i].next.Some?
    ensures ns[i].next.value < |ns| && |Ahead(rank, rank[ns[i].next.value])| < |Ahead(rank, rank[i])|
  {
    AheadLess(rank, i, ns[i].next.value);
  }

  /** A key can be found from here on, if it is there at all. */
  ghost predicate FoundFrom(ns: Nodes, key: TValue, n: nat) {
    forall j: nat :: Holds(ns, key, j) ==> Reach(ns, n, j)
  }

  lemma FindStart(hash: TValue -> nat, a: seq<TValue>, ns: Nodes, key: TValue)
    requires |ns| > 0 && Housed(hash, ns) && Filled(ns)
    ensures key == Nil ==> At(a, ns, key, Absent)
    ensures IntKey(key, |a|) ==> At(a, ns, key, InArray(key.n - 1))
    ensures FoundFrom(ns, key, MainPosition(hash, key, |ns|))
  {
    hide MainPosition;
  }

  lemma FindStep(a: seq<TValue>, ns: Nodes, rank: seq<real>, key: TValue, n: nat)
    requires Wired(ns, rank) && FoundFrom(ns, key, n) && n < |ns|
    ensures |rank| == |ns|
    ensures ns[n].key == Key(key) && !IntKey(key, |a|) ==> At(a, ns, key, InNode(n))
    ensures ns[n].key != Key(key) && ns[n].next.None? && !IntKey(key, |a|) ==> At(a, ns, key, Absent)
    ensures ns[n].key != Key(key) && ns[n].next.Some? ==>
              && ns[n].next.value < |ns| && FoundFrom(ns, key, ns[n].next.value)
              && |Ahead(rank, rank[ns[n].next.value])| < |Ahead(rank, rank[n])|
  {
    if ns[n].key != Key(key) {
      NextAhead(ns, key, n);
      if ns[n].next.Some? {
        LinkAhead(ns, rank, n);
      }
    }
  }

  lemma NextAhead(ns: Nodes, key: TValue, n: nat)
    requires FoundFrom(ns, key, n) && n < |ns| && ns[n].key != Key(key)
    ensures if ns[n].next.Some? then FoundFrom(ns, key, ns[n].next.value) else !Present(ns, key)
  {
    forall j: nat | Holds(ns, key, j)
      ensures ns[n].next.Some? && Reach(ns, ns[n].next.value, j)
    {
      ReachOn(ns, n, j);
    }
  }

  lemma {:induction false} NodesRest(ns: Nodes, m: nat, n: int)
    requires m <= |ns|
    ensures 0 <= NodeTotal(ns, m) - NodeCount(ns, m, n) <= m
  {
    if m > 0 {
      NodesRest(ns, m - 1, n);
    }
  }

  /** n is the largest power of two, up to the limit, such that more than half of
      1..n are keys; 0 when there is none. */
  ghost predicate Optimal(a: seq<TValue>, ns: Nodes, ek: TValue, n: nat) {
    && (n == 0 || exists g: nat :: g <= MAXBITS && n == Pow2(g) && 2 * |IntSet(a, ns, ek, n)| > n)
    && (forall g: nat :: g <= MAXBITS && Pow2(g) > n ==> 2 * |IntSet(a, ns, ek, Pow2(g))| <= Pow2(g))
  }

  /** The keys, ek among them, that an array part of size n leaves to the hash
      part. */
  ghost function HashNeed(a: seq<TValue>, ns: Nodes, ek: TValue, n: nat): int {
    ArrRest(a, |a|, n) + NodeRest(ns, 0, n) + if IntKey(ek, n) then 0 else 1
  }

  /** The optimal size is one. */
  lemma OptimalOnce(a: seq<TValue>, ns: Nodes, ek: TValue, n: nat, p: nat)
    requires Optimal(a, ns, ek, n) && Optimal(a, ns, ek, p)
    ensures n == p
  {
    hide IntSet, Pow2;
  }

  /** With the optimal array part the hash part would be too large. */
  ghost predicate Overfull(a: seq<TValue>, ns: Nodes, ek: TValue) {
    exists n: nat :: Optimal(a, ns, ek, n) && HashNeed(a, ns, ek, n) > MAXASIZE
  }

  lemma IsOverfull(a: seq<TValue>, ns: Nodes, ek: TValue, n: nat)
    requires Optimal(a, ns, ek, n)
    ensures Overfull(a, ns, ek) <==> HashNeed(a, ns, ek, n) > MAXASIZE
  {
    hide Optimal, HashNeed;
    if p: nat :| Optimal(a, ns, ek, p) && HashNeed(a, ns, ek, p) > MAXASIZE {
      OptimalOnce(a, ns, ek, n, p);
    }
  }

  lemma NotPresent(ns: Nodes, n: int, k: TValue)
    requires NoArrayKeys(ns, n) && IntKey(k, n)
    ensures !Present(ns, k)
  {
    forall j: nat
      ensures !Holds(ns, k, j)
    {
    }
  }

  /** A hash part of at most 2^26 nodes and a new key are too many only if all
      nodes stay: no key is for a grown array part. */
  lemma AllStay(a: seq<TValue>, ns: Nodes, ek: TValue, n: nat)
    requires |ns| <= MAXASIZE && HashNeed(a, ns, ek, n) > MAXASIZE && n > |a|
    ensures NoArrayKeys(ns, n)
  {
    ArrCountEnd(a, n);
    NodeRestAll(ns, 0, n);
    hide ArrCount, NodeRest;
  }

  /** The three counts add up. */
  lemma CountsAdd(a: seq<TValue>, ns: Nodes, ek: TValue, n1: seq<nat>, n2: seq<nat>, n3: seq<nat>)
    requires |n1| == |n2| == |n3| == MAXBITS + 1
    requires forall g :: 0 <= g <= MAXBITS ==> Prefix(n1, g + 1) == ArrCount(a, Pow2(g))
    requires forall g :: 0 <= g <= MAXBITS ==> Prefix(n2, g + 1) == Prefix(n1, g + 1) + NodeCount(ns, |ns|, Pow2(g))
    requires forall g :: 0 <= g <= MAXBITS ==> Prefix(n3, g + 1) == Prefix(n2, g + 1) + if IntKey(ek, Pow2(g)) then 1 else 0
    ensures forall g :: 0 <= g <= MAXBITS ==> Prefix(n3, g + 1) == IntCount(a, ns, ek, Pow2(g))
  {
    hide *;
    forall g | 0 <= g <= MAXBITS
      ensures Prefix(n3, g + 1) == IntCount(a, ns, ek, Pow2(g))
    {
      IntCountView(a, ns, ek, Pow2(g));
    }
  }

  lemma IntCountView(a: seq<TValue>, ns: Nodes, ek: TValue, n: nat)
    ensures IntCount(a, ns, ek, n) == ArrCount(a, n) + NodeCount(ns, |ns|, n) + if IntKey(ek, n) then 1 else 0
  {
  }

  lemma CountsTotal(a: seq<TValue>, ns: Nodes, ek: TValue)
    requires |a| <= MAXASIZE
    ensures IntCount(a, ns, ek, MAXASIZE) == ArrCount(a, |a|) + NodeCount(ns, |ns|, MAXASIZE) + if IntKey(ek, MAXASIZE) then 1 else 0
  {
    hide ArrCount, NodeCount, IntKey, Pow2;
    ArrCountEnd(a, MAXASIZE);
  }

  lemma CountsLast(a: seq<TValue>, ns: Nodes, ek: TValue, n3: seq<nat>)
    requires |n3| == MAXBITS + 1 && |a| <= MAXASIZE
    requires forall g :: 0 <= g <= MAXBITS ==> Prefix(n3, g + 1) == IntCount(a, ns, ek, Pow2(g))
    ensures Prefix(n3, MAXBITS + 1) == ArrCount(a, |a|) + NodeCount(ns, |ns|, MAXASIZE) + if IntKey(ek, MAXASIZE) then 1 else 0
  {
    MaxSize();
    hide Prefix, IntCount, Pow2;
    CountsTotal(a, ns, ek);
  }

  /** What computesizes chooses, in terms of keys. */
  lemma ChosenSize(a: seq<TValue>, ns: Nodes, ek: TValue, nums: seq<nat>, n: nat, na: nat, best: nat)
    requires |nums| == MAXBITS + 1 && best <= MAXBITS + 1
    requires forall g :: 0 <= g <= MAXBITS ==> Prefix(nums, g + 1) == IntCount(a, ns, ek, Pow2(g)) == |IntSet(a, ns, ek, Pow2(g))|
    requires forall g :: best <= g <= MAXBITS ==> !Dense(nums, g)
    requires if best == 0 then n == 0 && na == 0
             else n == Pow2(best - 1) && na == Prefix(nums, best) && Dense(nums, best - 1)
    ensures Optimal(a, ns, ek, n) && n <= MAXASIZE && na == if n == 0 then 0 else IntCount(a, ns, ek, n)
  {
    hide IntCount, Prefix, IntSet, Pow2;
    if best > 0 {
      ChosenDense(a, ns, ek, nums, best - 1);
    }
    forall g: nat | g <= MAXBITS && Pow2(g) > n
      ensures 2 * |IntSet(a, ns, ek, Pow2(g))| <= Pow2(g)
    {
      if 0 < best && g < best - 1 {
        Pow2Less(g, best - 1);
      }
      assert !Dense(nums, g);
    }
  }

  lemma ChosenDense(a: seq<TValue>, ns: Nodes, ek: TValue, nums: seq<nat>, g: nat)
    requires |nums| == MAXBITS + 1 && g <= MAXBITS && Dense(nums, g) && Prefix(nums, g + 1) == |IntSet(a, ns, ek, Pow2(g))|
    ensures 2 * |IntSet(a, ns, ek, Pow2(g))| > Pow2(g) && Pow2(g) <= MAXASIZE
  {
    MaxSize();
    hide Pow2;
    if g < MAXBITS {
      Pow2Less(g, MAXBITS);
    }
  }

  /** The hash part is made large enough for what the array part does not take. */
  lemma ChosenRest(a: seq<TValue>, ns: Nodes, ek: TValue, n: nat, na: nat, totaluse: nat)
    requires totaluse == ArrCount(a, |a|) + NodeTotal(ns, |ns|) + 1
    requires na == if n == 0 then 0 else IntCount(a, ns, ek, n)
    ensures totaluse - na == ArrRest(a, |a|, n) + NodeRest(ns, 0, n) + if IntKey(ek, n) then 0 else 1
    ensures ArrRest(a, |a|, n) >= 0 && NodeRest(ns, 0, n) >= 0
  {
    if n == 0 {
      NodeCountZero(ns, |ns|);
    }
    RestEnd(a, n);
    ArrCountMono(a, if n < |a| then n else |a|, |a|);
    NodeRestPos(ns, 0, n);
  }

  lemma {:induction false} NodeCountZero(ns: Nodes, m: nat)
    requires m <= |ns|
    ensures NodeCount(ns, m, 0) == 0
  {
    if m > 0 {
      NodeCountZero(ns, m - 1);
    }
  }

  lemma RestoreElements(a: seq<TValue>, i: nat, ns: Nodes, m: int)
    requires i < |a|
    ensures forall k :: Restored(a, i + 1, ns, m, k) == if k == Num(i + 1) then a[i] else Restored(a, i, ns, m, k)
    ensures Restored(a, i, ns, m, Num(i + 1)) == Nil
  {
  }

  lemma RestoreNodes(a: seq<TValue>, ns: Nodes, m: nat)
    requires m < |ns| && Unique(ns) && NoArrayKeys(ns, |a|)
    ensures forall k :: Restored(a, |a|, ns, m, k) == if ns[m].key == Key(k) then ns[m].val else Restored(a, |a|, ns, m + 1, k)
    ensures ns[m].val == Nil ==> forall k :: Restored(a, |a|, ns, m, k) == Restored(a, |a|, ns, m + 1, k)
  {
    forall k
      ensures Restored(a, |a|, ns, m, k) == if ns[m].key == Key(k) then ns[m].val else Restored(a, |a|, ns, m + 1, k)
      ensures ns[m].val == Nil ==> Restored(a, |a|, ns, m, k) == Restored(a, |a|, ns, m + 1, k)
    {
      RestoreNode(a, ns, m, k);
      if ns[m].val == Nil {
        RestoreNil(a, ns, m, k);
      }
    }
  }

  /** There is room for one more element that leaves the array part. */
  lemma ElementRoom(a: seq<TValue>, i: nat, ns: Nodes, n: nat, nhsize: nat)
    requires n <= i < |a| && ArrRest(a, |a|, n) + NodeRest(ns, 0, n) <= nhsize
    ensures ArrRest(a, i + 1, n) == ArrRest(a, i, n) + if a[i] != Nil then 1 else 0
    ensures NodeRest(ns, |ns|, n) == 0 && ArrRest(a, i + 1, n) <= nhsize
  {
    ArrCountMono(a, i + 1, |a|);
    NodeRestPos(ns, 0, n);
  }

  /** A step towards mp along its chain. */
  lemma ChainOn(ns: Nodes, rank: seq<real>, i: nat, mp: nat)
    requires Wired(ns, rank) && Reach(ns, i, mp) && i != mp
    ensures i < |ns| == |rank| && ns[i].next.Some? && ns[i].next.value < |ns| && Reach(ns, ns[i].next.value, mp)
    ensures |Ahead(rank, rank[ns[i].next.value])| < |Ahead(rank, rank[i])|
  {
    ReachOn(ns, i, mp);
    LinkAhead(ns, rank, i);
  }

  lemma HomeReach(hash: TValue -> nat, ns: Nodes, mp: nat)
    requires |ns| > 0 && Housed(hash, ns) && mp < |ns| && ns[mp].key != Free && !AtHome(hash, ns, mp)
    ensures var m := MainPosition(hash, ns[mp].key.k, |ns|); m != mp && Reach(ns, m, mp)
  {
    hide MainPosition;
  }

  lemma IsBefore(ns: Nodes, prev: nat, mp: nat)
    requires prev < |ns| && ns[prev].next == Some(mp)
    ensures Before(ns, prev, mp)
  {
  }

  lemma AppendFree(ns: Nodes, mp: nat, n: nat, key: TValue)
    requires mp < |ns| && n < |ns| && ns[mp].key != Free && FreeBelow(ns, n + 1)
    ensures FreeBelow(Append(ns, mp, n, key), n) && |Append(ns, mp, n, key)| == |ns|
  {
  }

  lemma MoveFree(ns: Nodes, prev: nat, mp: nat, n: nat, key: TValue)
    requires prev < |ns| && mp < |ns| && n < |ns| && ns[mp].key != Free && FreeBelow(ns, n + 1)
    ensures FreeBelow(Move(ns, prev, mp, n, key), n) && |Move(ns, prev, mp, n, key)| == |ns|
  {
  }

  lemma FullyUsed(ns: Nodes)
    ensures FreeBelow(ns, 0) ==> |UsedSet(ns)| == |ns|
  {
    if FreeBelow(ns, 0) {
      BelowSize(|ns|);
      assert UsedSet(ns) == Below(|ns|);
    }
  }

  lemma HomeView(hash: TValue -> nat, ns: Nodes, m: nat)
    requires m < |ns| && ns[m].key != Free
    ensures AtHome(hash, ns, m) <==> MainPosition(hash, ns[m].key.k, |ns|) == m
  {
  }

  const MAX_INT := 0x7fff_fffd

  /** Every match on the chain of the key lies from n on. */
  ghost predicate MatchesFrom(hash: TValue -> nat, ns: Nodes, key: TValue, n: nat) {
    && n < |ns| && Reach(ns, MainPosition(hash, key, |ns|), n)
    && forall j: nat :: OnChain(hash, ns, key, j) ==> Reach(ns, n, j)
  }

  lemma MatchesAhead(hash: TValue -> nat, ns: Nodes, key: TValue)
    requires |ns| > 0
    ensures MatchesFrom(hash, ns, key, MainPosition(hash, key, |ns|))
  {
    ReachSelf(ns, MainPosition(hash, key, |ns|));
    hide MainPosition;
  }

  lemma {:induction false} StepsOnward(ns: Nodes, m: nat, n: nat, k: nat)
    requires n < |ns| && Steps(ns, m, n, k) && ns[n].next.Some? && ns[n].next.value < |ns|
    ensures Steps(ns, m, ns[n].next.value, k + 1)
    decreases k
  {
    if k > 0 {
      StepsOnward(ns, ns[m].next.value, n, k - 1);
    }
  }

  lemma ReachOnward(ns: Nodes, m: nat, n: nat)
    requires n < |ns| && Reach(ns, m, n) && ns[n].next.Some? && ns[n].next.value < |ns|
    ensures Reach(ns, m, ns[n].next.value)
  {
    var k: nat :| Steps(ns, m, n, k);
    StepsOnward(ns, m, n, k);
  }

  lemma MatchOn(hash: TValue -> nat, ns: Nodes, key: TValue, n: nat)
    requires n < |ns| && !Matches(ns, key, n) && MatchesFrom(hash, ns, key, n)
    requires ns[n].next.Some? ==> ns[n].next.value < |ns|
    ensures if ns[n].next.Some? then MatchesFrom(hash, ns, key, ns[n].next.value) else forall j: nat :: !OnChain(hash, ns, key, j)
  {
    hide Reach, MainPosition;
    forall j: nat | OnChain(hash, ns, key, j)
      ensures ns[n].next.Some? && Reach(ns, ns[n].next.value, j)
    {
      ReachOn(ns, n, j);
    }
    if ns[n].next.Some? {
      ReachOnward(ns, MainPosition(hash, key, |ns|), n);
    }
  }

  lemma MatchHere(hash: TValue -> nat, a: seq<TValue>, ns: Nodes, key: TValue, n: nat)
    requires Matches(ns, key, n) && MatchesFrom(hash, ns, key, n) && key != Nil && !IntKey(key, |a|)
    ensures IndexOk(hash, a, ns, key, Some(n + |a|))
  {
    hide Reach, MainPosition;
  }

  lemma MatchView(ns: Nodes, key: TValue, n: nat)
    requires n < |ns|
    ensures Matches(ns, key, n) <==> ns[n].key == Key(key) || (ns[n].key.Dead? && SameAddress(ns[n].key.k, key))
  {
  }

  lemma EarlyIndex(hash: TValue -> nat, a: seq<TValue>, ns: Nodes, key: TValue)
    ensures key == Nil ==> IndexOk(hash, a, ns, key, Some(-1))
    ensures IntKey(key, |a|) ==> IndexOk(hash, a, ns, key, Some(key.n - 1))
  {
  }

  lemma NoMatch(hash: TValue -> nat, a: seq<TValue>, ns: Nodes, key: TValue)
    requires key != Nil && !IntKey(key, |a|) && forall j: nat :: !OnChain(hash, ns, key, j)
    ensures IndexOk(hash, a, ns, key, None)
  {
  }

  lemma MatchStep(hash: TValue -> nat, a: seq<TValue>, ns: Nodes, rank: seq<real>, key: TValue, n: nat)
    requires Wired(ns, rank) && MatchesFrom(hash, ns, key, n) && n < |ns| && key != Nil && !IntKey(key, |a|)
    ensures |rank| == |ns|
    ensures if Matches(ns, key, n) then IndexOk(hash, a, ns, key, Some(n + |a|))
            else if ns[n].next.None? then IndexOk(hash, a, ns, key, None)
            else ns[n].next.value < |ns| && MatchesFrom(hash, ns, key, ns[n].next.value)
                 && |Ahead(rank, rank[ns[n].next.value])| < |Ahead(rank, rank[n])|
  {
    hide MatchesFrom, IndexOk, OnChain;
    if Matches(ns, key, n) {
      MatchHere(hash, a, ns, key, n);
    } else {
      if ns[n].next.Some? {
        LinkAhead(ns, rank, n);
      }
      MatchOn(hash, ns, key, n);
      if ns[n].next.None? {
        NoMatch(hash, a, ns, key);
      }
    }
  }

  /** No value between positions i and j. */
  ghost predicate Blank(a: seq<TValue>, ns: Nodes, i: int, j: int) {
    forall q: nat :: i < q < j ==> PosVal(a, ns, q) == Nil
  }

  lemma BlankStart(a: seq<TValue>, ns: Nodes, i: int)
    ensures Blank(a, ns, i, i + 1)
  {
  }

  lemma BlankElement(a: seq<TValue>, ns: Nodes, i: int, j: nat)
    requires Blank(a, ns, i, j) && i < j < |a|
    ensures if a[j] == Nil then Blank(a, ns, i, j + 1) else NextEntry(a, ns, i, Num(j + 1), a[j])
  {
    BlankEnd(a, ns, i, j);
    assert PosKey(a, ns, j) == Key(Num(j + 1)) && PosVal(a, ns, j) == a[j];
  }

  lemma BlankNode(a: seq<TValue>, ns: Nodes, i: int, j: nat)
    requires Blank(a, ns, i, j) && i < j && |a| <= j < |a| + |ns|
    ensures var n := ns[j - |a|];
            if n.val == Nil then Blank(a, ns, i, j + 1) else n.key.Key? ==> NextEntry(a, ns, i, n.key.k, n.val)
  {
    BlankEnd(a, ns, i, j);
    assert PosKey(a, ns, j) == ns[j - |a|].key && PosVal(a, ns, j) == ns[j - |a|].val;
  }

  lemma BlankEnd(a: seq<TValue>, ns: Nodes, i: int, j: nat)
    requires Blank(a, ns, i, j) && i < j
    ensures j < |a| + |ns| ==> if PosVal(a, ns, j) == Nil then Blank(a, ns, i, j + 1) else IsNext(a, ns, i, j)
    ensures j >= |a| + |ns| ==> NoNext(a, ns, i)
  {
  }

  lemma IndexRange(hash: TValue -> nat, a: seq<TValue>, ns: Nodes, key: TValue, r: Option<int>)
    requires IndexOk(hash, a, ns, key, r) && r.Some?
    ensures r.value >= -1
  {
  }

  lemma NextIs(hash: TValue -> nat, a: seq<TValue>, ns: Nodes, key: TValue, i: Option<int>, r: NextResult)
    requires IndexOk(hash, a, ns, key, i) && NextFrom(a, ns, i, r)
    ensures NextOk(hash, a, ns, key, r)
  {
  }

  lemma NextKinds(a: seq<TValue>, ns: Nodes, i: int, k: TValue, v: TValue)
    ensures NextFrom(a, ns, None, BadKey)
    ensures NoNext(a, ns, i) ==> NextFrom(a, ns, Some(i), Done)
    ensures NextEntry(a, ns, i, k, v) ==> NextFrom(a, ns, Some(i), Entry(k, v))
  {
  }

  lemma IsBoundary(a: seq<TValue>, ns: Nodes, n: int)
    requires n >= 0 && (n > 0 ==> Value(a, ns, Num(n)) != Nil) && Value(a, ns, Num(n + 1)) == Nil
    ensures Boundary(a, ns, n)
  {
  }

  lemma Inside(a: seq<TValue>, ns: Nodes, i: int)
    requires Value(a, ns, Num(i)) != Nil
    ensures i <= Limit(a, ns)
  {
    if i > Limit(a, ns) {
      Beyond(a, ns, i);
    }
  }

  class Table {
    const hash: TValue -> nat
    var arr: array<TValue>
    var node: array<Node>
    /** The hash part is the shared node of empty tables. */
    var dummy: bool
    var lastfree: int
    ghost var rank: seq<real>

    ghost predicate Valid()
      reads this, arr, node
    {
      && NodesOk(hash, node[..], rank) && NoArrayKeys(node[..], arr.Length) && arr.Length <= MAXASIZE
      && node.Length <= MAXASIZE && FreeOk(node[..], dummy, lastfree)
    }

    ghost function Get(k: TValue): TValue
      reads this, arr, node
    {
      Value(arr[..], node[..], k)
    }

    /** What a traversal sees of the table. */
    ghost function View(): Contents
      reads this, arr, node
    {
      Contents(arr[..], node[..])
    }

    lemma ViewSound()
      requires Valid()
      ensures Sound(hash, View())
    {
      hide NodesOk;
    }

    // -------------------------------------------------------------------- lookup

    lemma FindReady(key: TValue)
      requires Valid()
      ensures key == Nil ==> At(arr[..], node[..], key, Absent)
      ensures key.Num? && 1 <= key.n <= arr.Length ==> At(arr[..], node[..], key, InArray(key.n - 1))
      ensures IntKey(key, arr.Length) <==> key.Num? && 1 <= key.n <= arr.Length
      ensures node.Length > 0 && Wired(node[..], rank) && FoundFrom(node[..], key, MainPosition(hash, key, node.Length))
    {
      FindStart(hash, arr[..], node[..], key);
    }

    /** luaH_get, luaH_getnum and luaH_getstr: the place of a key. */
    method Find(key: TValue) returns (p: Place)
      requires Valid()
      ensures At(arr[..], node[..], key, p) && (key == Nil ==> p == Absent)
    {
      hide *;
      ghost var a, ns := arr[..], node[..];
      FindReady(key);
      if key == Nil {
        return Absent;
      }
      if key.Num? && 1 <= key.n <= arr.Length {
        return InArray(key.n - 1);
      }
      var n: nat := MainPosition(hash, key, node.Length);
      while true
        invariant n < |ns| && ns == node[..] && a == arr[..] && FoundFrom(ns, key, n) && Wired(ns, rank)
        decreases |Ahead(rank, rank[n])|
      {
        FindStep(a, ns, rank, key, n);
        if node[n].key == Key(key) {
          return InNode(n);
        }
        if node[n].next.None? {
          return Absent;
        }
        n := node[n].next.value;
      }
    }

    /** The value at a place. */
    method Load(p: Place) returns (v: TValue)
      requires Valid()
      requires p.InArray? ==> p.i < arr.Length
      requires p.InNode? ==> p.j < node.Length
      ensures forall k :: At(arr[..], node[..], k, p) ==> v == Get(k)
    {
      match p {
        case Absent => v := Nil;
        case InArray(i) => v := arr[i];
        case InNode(j) =>
          v := node[j].val;
          forall k | At(arr[..], node[..], k, p)
            ensures v == Get(k)
          {
            NodeValueAt(node[..], k, j);
          }
      }
    }

    /** luaH_get. */
    method Lookup(key: TValue) returns (v: TValue)
      requires Valid()
      ensures v == Get(key)
    {
      var p := Find(key);
      v := Load(p);
    }

    // ----------------------------------------------------------------- insertion

    /** getfreepos. */
    method GetFreePos() returns (r: Option<nat>)
      requires Valid()
      modifies this`lastfree
      ensures match r
              case Some(n) => !dummy && n == lastfree < node.Length && node[n].key == Free && FreeBelow(node[..], n + 1)
              case None => Valid() && (dummy || FreeBelow(node[..], 0))
    {
      while lastfree > 0
        invariant lastfree <= node.Length && FreeOk(node[..], dummy, lastfree)
        decreases lastfree
      {
        lastfree := lastfree - 1;
        if node[lastfree].key == Free {
          return Some(lastfree);
        }
      }
      lastfree := lastfree - 1;
      return None;
    }

    /** The main position of key has no value: the key goes there. */
    method ReuseNode(mp: nat, key: TValue)
      requires Valid() && !dummy && mp == MainPosition(hash, key, node.Length) && node[mp].val == Nil
      requires key != Nil && !IntKey(key, arr.Length) && !Present(node[..], key)
      modifies node
      ensures Valid() && Inserted(old(node[..]), node[..], key, mp) && |UsedSet(node[..])| <= |UsedSet(old(node[..]))| + 1
    {
      ghost var ns := node[..];
      hide MainPosition, Wired, Housed, Filled, Unique, Inserted, NoArrayKeys;
      ReuseOk(hash, ns, rank, mp, key);
      node[mp] := node[mp].(key := Key(key));
      assert node[..] == Reuse(ns, mp, key);
      InsertedKeepsArray(ns, node[..], key, mp, arr.Length);
    }

    /** The writes of the append. */
    method WriteAppend(mp: nat, n: nat, key: TValue)
      requires mp < node.Length && n < node.Length && n != mp
      modifies node
      ensures node[..] == Append(old(node[..]), mp, n, key)
    {
      node[n] := node[n].(key := Key(key), next := node[mp].next);
      node[mp] := node[mp].(next := Some(n));
    }

    /** The colliding node is at home: the key goes to the free node n. */
    method AppendNode(mp: nat, n: nat, key: TValue)
      requires NodesOk(hash, node[..], rank) && NoArrayKeys(node[..], arr.Length) && arr.Length <= MAXASIZE
      requires !dummy && n == lastfree < node.Length <= MAXASIZE && FreeBelow(node[..], n + 1) && node[n].key == Free
      requires mp == MainPosition(hash, key, node.Length) && AtHome(hash, node[..], mp) && node[mp].val != Nil
      requires key != Nil && !IntKey(key, arr.Length) && !Present(node[..], key)
      modifies node, this`rank
      ensures Valid() && Inserted(old(node[..]), node[..], key, n) && |UsedSet(node[..])| <= |UsedSet(old(node[..]))| + 1
    {
      ghost var ns := node[..];
      assert ns[n].val == Nil && ns[mp].key != Free;
      hide MainPosition, Wired, Housed, Filled, Unique, Inserted, NoArrayKeys, AtHome, Append, AppendRank;
      AppendOk(hash, ns, rank, mp, n, key);
      rank := AppendRank(ns, rank, mp, n);
      WriteAppend(mp, n, key);
      AppendFree(ns, mp, n, key);
      InsertedKeepsArray(ns, node[..], key, n, arr.Length);
    }

    lemma PredecessorReady(mp: nat)
      requires NodesOk(hash, node[..], rank) && mp < node.Length && node[mp].key != Free && !AtHome(hash, node[..], mp)
      ensures node.Length > 0 && Wired(node[..], rank)
      ensures var m := MainPosition(hash, node[mp].key.k, node.Length); m != mp && Reach(node[..], m, mp)
    {
      HomeReach(hash, node[..], mp);
    }

    /** The node in whose chain the colliding node at mp comes next. */
    method Predecessor(mp: nat) returns (prev: nat)
      requires NodesOk(hash, node[..], rank) && mp < node.Length && node[mp].key != Free && !AtHome(hash, node[..], mp)
      ensures Before(node[..], prev, mp)
    {
      hide *;
      ghost var ns := node[..];
      PredecessorReady(mp);
      prev := MainPosition(hash, node[mp].key.k, node.Length);
      ChainOn(ns, rank, prev, mp);
      while node[prev].next != Some(mp)
        invariant prev < |ns| && ns == node[..] && prev != mp && Reach(ns, prev, mp) && ns[prev].next.Some? && Wired(ns, rank)
        decreases |Ahead(rank, rank[prev])|
      {
        ChainOn(ns, rank, prev, mp);
        prev := node[prev].next.value;
        ChainOn(ns, rank, prev, mp);
      }
      IsBefore(ns, prev, mp);
    }

    /** The writes of the move. */
    method WriteMove(prev: nat, mp: nat, n: nat, key: TValue)
      requires prev < node.Length && mp < node.Length && n < node.Length && prev != mp && prev != n && n != mp
      modifies node
      ensures node[..] == Move(old(node[..]), prev, mp, n, key)
    {
      node[prev] := node[prev].(next := Some(n));
      node[n] := node[mp];
      node[mp] := Node(Key(key), Nil, None);
    }

    /** The colliding node is out of its main position: it moves to the free node
        n, and the key takes its place. */
    method MoveNode(mp: nat, n: nat, key: TValue)
      requires NodesOk(hash, node[..], rank) && NoArrayKeys(node[..], arr.Length) && arr.Length <= MAXASIZE
      requires !dummy && n == lastfree < node.Length <= MAXASIZE && FreeBelow(node[..], n + 1) && node[n].key == Free
      requires mp == MainPosition(hash, key, node.Length) && node[mp].key != Free && !AtHome(hash, node[..], mp)
      requires key != Nil && !IntKey(key, arr.Length) && !Present(node[..], key)
      modifies node, this`rank
      ensures Valid() && Inserted(old(node[..]), node[..], key, mp) && |UsedSet(node[..])| <= |UsedSet(old(node[..]))| + 1
    {
      ghost var ns := node[..];
      hide MainPosition, Wired, Housed, Filled, Unique, Inserted, NoArrayKeys, AtHome, Before, Move, MoveRank;
      var prev := Predecessor(mp);
      BeforeApart(ns, rank, prev, mp, n);
      MoveOk(hash, ns, rank, prev, mp, n, key);
      rank := MoveRank(rank, mp, n);
      WriteMove(prev, mp, n, key);
      MoveFree(ns, prev, mp, n, key);
      InsertedKeepsArray(ns, node[..], key, mp, arr.Length);
    }

    /** No place for a new key: its main position is taken and no node is free. */
    ghost predicate Full(key: TValue)
      requires node.Length > 0
      reads this, node
    {
      dummy || (node[MainPosition(hash, key, node.Length)].val != Nil && FreeBelow(node[..], 0))
    }

    /** newkey, when a place is free: the key is in and nothing else shows. */
    method TryInsert(key: TValue) returns (r: Option<nat>)
      requires Valid() && key != Nil && !IntKey(key, arr.Length) && !Present(node[..], key)
      modifies this`lastfree, this`rank, node
      ensures Valid() && node.Length > 0 && (!dummy && |UsedSet(old(node[..]))| < node.Length ==> r.Some?)
      ensures old(node.Length) > 0 && (r.None? <==> old(Full(key)))
      ensures match r
              case Some(at) => Inserted(old(node[..]), node[..], key, at) && |UsedSet(node[..])| <= |UsedSet(old(node[..]))| + 1
              case None => node[..] == old(node[..])
    {
      hide MainPosition, Wired, Housed, Unique, Inserted, NoArrayKeys, AtHome;
      var mp := MainPosition(hash, key, node.Length);
      if node[mp].val == Nil && !dummy {
        ReuseNode(mp, key);
        return Some(mp);
      }
      assert !dummy ==> node[mp].key != Free;
      r := GetFreePos();
      if r.None? {
        FullyUsed(node[..]);
        return;
      }
      var n := r.value;
      if MainPosition(hash, node[mp].key.k, node.Length) != mp {
        HomeView(hash, node[..], mp);
        MoveNode(mp, n, key);
        return Some(mp);
      } else {
        HomeView(hash, node[..], mp);
        AppendNode(mp, n, key);
        return Some(n);
      }
    }

    // ------------------------------------------------------------ set and rehash

    /** newkey.  `deep` says that the table may be rebuilt: an insertion made by
        the rebuilding itself never comes to that.  Absent is the error of a
        rebuild that would need too large a hash part. */
    method NewKey(key: TValue, ghost deep: bool) returns (p: Place)
      requires Valid() && key != Nil && !IntKey(key, arr.Length) && !Present(node[..], key)
      requires deep || (!dummy && |UsedSet(node[..])| < node.Length)
      modifies this, arr, node
      ensures Valid() && (forall k :: Get(k) == old(Get(k))) && (p != Absent ==> At(arr[..], node[..], key, p))
      ensures (arr == old(arr) || fresh(arr)) && (node == old(node) || fresh(node))
      ensures old(node.Length) > 0 && (p == Absent <==> old(Full(key)) && Overfull(old(arr[..]), old(node[..]), key))
      ensures !deep ==> p != Absent && arr == old(arr) && node == old(node) && dummy == old(dummy) && |UsedSet(node[..])| <= |UsedSet(old(node[..]))| + 1
      decreases deep, 1
    {
      ghost var ns := node[..];
      var r := TryInsert(key);
      if r.Some? {
        p := InNode(r.value);
        InsertedValue(arr[..], ns, node[..], key, r.value);
      } else {
        var ok := Rehash(key);
        if !ok {
          return Absent;
        }
        p := SetSlot(key, false);
      }
    }

    /** What resize leaves when it fails: the array part may have grown already, and
        the hash part is the old one. */
    ghost predicate Torn(a: seq<TValue>, ns: Nodes)
      reads this, arr, node
    {
      && node[..] == ns && arr.Length >= |a|
      && forall i :: 0 <= i < arr.Length ==> arr[i] == if i < |a| then a[i] else Nil
    }

    /** When rehash comes to that, nothing is lost all the same. */
    lemma TornKeeps(a: seq<TValue>, ns: Nodes)
      requires Torn(a, ns) && (arr.Length == |a| || NoArrayKeys(ns, arr.Length))
      ensures forall k :: Get(k) == Value(a, ns, k)
    {
      forall k
        ensures Get(k) == Value(a, ns, k)
      {
        if IntKey(k, arr.Length) && !IntKey(k, |a|) {
          NotPresent(ns, arr.Length, k);
        }
      }
    }

    /** How many keys have a value. */
    ghost function Entries(): nat
      reads this, arr, node
    {
      ArrCount(arr[..], arr.Length) + NodeTotal(node[..], node.Length)
    }

    /** luaH_set on a key that is not nil: the place for its value, or the error of
        newkey. */
    method SetSlot(key: TValue, ghost deep: bool) returns (p: Place)
      requires Valid() && key != Nil
      requires deep || IntKey(key, arr.Length) || (!dummy && |UsedSet(node[..])| < node.Length)
      modifies this, arr, node
      ensures Valid() && (forall k :: Get(k) == old(Get(k))) && (p != Absent ==> At(arr[..], node[..], key, p))
      ensures (arr == old(arr) || fresh(arr)) && (node == old(node) || fresh(node))
      ensures old(node.Length) > 0 && (p == Absent <==> old(NoPlace(key)))
      ensures !deep ==> p != Absent && arr == old(arr) && node == old(node) && dummy == old(dummy)
                        && |UsedSet(node[..])| <= |UsedSet(old(node[..]))| + (if IntKey(key, arr.Length) then 0 else 1)
      decreases deep, 2
    {
      p := Find(key);
      if p == Absent {
        p := NewKey(key, deep);
      }
    }

    /** The key is not there, there is no node for it, and a rebuild would need too
        large a hash part. */
    ghost predicate NoPlace(key: TValue)
      requires node.Length > 0
      reads this, arr, node
    {
      At(arr[..], node[..], key, Absent) && Full(key) && Overfull(arr[..], node[..], key)
    }

    /** setobj on the place of a key. */
    method Store(p: Place, ghost key: TValue, v: TValue)
      requires Valid() && At(arr[..], node[..], key, p) && p != Absent
      modifies arr, node
      ensures Valid() && (forall k :: Get(k) == if k == key then v else old(Get(k)))
      ensures UsedSet(node[..]) == UsedSet(old(node[..])) && Touched(old(View()), View())
    {
      hide NodesOk, NodeValue, UsedSet, Touched, FreeOk, NoArrayKeys, Present;
      ghost var a, ns := arr[..], node[..];
      StoreReady(p, key, v);
      if p.InArray? {
        arr[p.i] := v;
        assert arr[..] == a[p.i := v] && node[..] == ns;
      } else {
        StoreNode(hash, ns, rank, key, p.j, v);
        StoreRest(ns, p.j, v, arr.Length, dummy, lastfree);
        node[p.j] := node[p.j].(val := v);
        assert node[..] == ns[p.j := ns[p.j].(val := v)] && arr[..] == a;
      }
    }

    lemma StoreReady(p: Place, key: TValue, v: TValue)
      requires Valid() && At(arr[..], node[..], key, p) && p != Absent
      ensures p.InArray? ==> p.i < arr.Length && key == Num(p.i + 1) && Touched(View(), View().(a := arr[..][p.i := v]))
      ensures p.InNode? ==>
                && p.j < node.Length && Holds(node[..], key, p.j) && node[p.j].key != Free && !IntKey(key, arr.Length)
                && Touched(View(), View().(ns := node[..][p.j := node[p.j].(val := v)]))
    {
      StoreTouches(View(), if p.InArray? then p.i else arr.Length + p.j, v);
    }

    /** The array part gets another length: setarrayvector when it grows. */
    method SetArrayVector(size: nat)
      modifies this`arr
      ensures fresh(arr) && arr.Length == size
      ensures forall i :: 0 <= i < size ==> arr[i] == if i < old(arr.Length) then old(arr[i]) else Nil
    {
      var a := arr;
      arr := new TValue[size](i requires 0 <= i reads a => if i < a.Length then a[i] else Nil);
    }

    /** setnodevector: a new hash part, all nodes free, or the error "table
        overflow". */
    method SetNodeVector(size: nat) returns (ok: bool)
      modifies this`node, this`dummy, this`lastfree, this`rank
      ensures ok == (size <= MAXASIZE)
      ensures ok ==> fresh(node) && NodesOk(hash, node[..], rank) && FreeOk(node[..], dummy, lastfree)
      ensures ok ==> size <= node.Length <= MAXASIZE && (dummy <==> size == 0)
      ensures ok ==> forall j :: 0 <= j < node.Length ==> node[j] == FREE_NODE
      ensures !ok ==> node == old(node) && dummy == old(dummy) && lastfree == old(lastfree) && rank == old(rank)
    {
      if size == 0 {
        node := new Node[1](_ => FREE_NODE);
        dummy := true;
        lastfree := 0;
        assert node[..] == [FREE_NODE];
      } else {
        var lsize := CeilLog2(size);
        MaxSize();
        SliceUnique(size, lsize, MAXBITS);
        if lsize > MAXBITS {
          return false;
        }
        if lsize < MAXBITS {
          Pow2Less(lsize, MAXBITS);
        }
        node := new Node[Pow2(lsize)](_ => FREE_NODE);
        dummy := false;
        lastfree := node.Length;
      }
      rank := seq(node.Length, _ => 0.0);
      FreshOk(hash, node[..], rank);
      ok := true;
    }

    /** What Resize has done when the first lim elements of the old array part and
        the old nodes from m on are back. */
    ghost predicate Rebuilding(a: seq<TValue>, lim: nat, ns: Nodes, m: nat, n: nat, nhsize: nat)
      reads this, arr, node
    {
      && Valid() && arr.Length == n && m <= |ns| && node.Length >= nhsize && (dummy <==> nhsize == 0)
      && (forall k :: Get(k) == Restored(a, lim, ns, m, k))
      && |UsedSet(node[..])| <= ArrRest(a, lim, if n < |a| then n else |a|) + NodeRest(ns, m, n)
    }

    /** Puts one entry back. */
    method PutBack(key: TValue, v: TValue)
      requires Valid() && key != Nil && (IntKey(key, arr.Length) || (!dummy && |UsedSet(node[..])| < node.Length))
      modifies this, arr, node
      ensures Valid() && arr == old(arr) && node == old(node) && dummy == old(dummy)
      ensures forall k :: Get(k) == if k == key then v else old(Get(k))
      ensures |UsedSet(node[..])| <= |UsedSet(old(node[..]))| + (if IntKey(key, arr.Length) then 0 else 1)
      decreases false, 3
    {
      hide Valid, Get;
      var p := SetSlot(key, false);
      Store(p, key, v);
    }

    /** The elements that the array part loses go to the hash part. */
    method PutBackElements(olda: array<TValue>, ghost ns: Nodes, ghost nhsize: nat)
      requires Rebuilding(olda[..], arr.Length, ns, |ns|, arr.Length, nhsize) && arr.Length < olda.Length && olda != arr
      requires ArrRest(olda[..], olda.Length, arr.Length) + NodeRest(ns, 0, arr.Length) <= nhsize
      modifies this, arr, node
      ensures arr == old(arr) && node == old(node) && Rebuilding(olda[..], olda.Length, ns, |ns|, arr.Length, nhsize)
      decreases false, 4
    {
      hide Valid, Get, Restored, ArrRest, NodeRest, UsedSet;
      ghost var a, n := olda[..], arr.Length;
      var i := arr.Length;
      while i < olda.Length
        invariant arr.Length <= i <= olda.Length && olda[..] == a && arr == old(arr) && node == old(node) && arr.Length == n
        invariant Rebuilding(a, i, ns, |ns|, n, nhsize)
      {
        ElementRoom(a, i, ns, n, nhsize);
        RestoreElements(a, i, ns, |ns|);
        if olda[i] != Nil {
          PutBack(Num(i + 1), olda[i]);
        }
        i := i + 1;
      }
    }

    /** The old nodes, from the last to the first. */
    method PutBackNodes(nold: array<Node>, ghost a: seq<TValue>, ghost nhsize: nat)
      requires Rebuilding(a, |a|, nold[..], nold.Length, arr.Length, nhsize) && nold != node
      requires Filled(nold[..]) && Unique(nold[..]) && NoArrayKeys(nold[..], |a|)
      requires ArrRest(a, |a|, if arr.Length < |a| then arr.Length else |a|) + NodeRest(nold[..], 0, arr.Length) <= nhsize
      modifies this, arr, node
      ensures arr == old(arr) && node == old(node) && Rebuilding(a, |a|, nold[..], 0, arr.Length, nhsize)
      decreases false, 4
    {
      hide Valid, Get, Restored, ArrRest, NodeRest, UsedSet, Unique, NoArrayKeys;
      ghost var ns, n := nold[..], arr.Length;
      var i := nold.Length;
      while i > 0
        invariant 0 <= i <= nold.Length && nold[..] == ns && arr == old(arr) && node == old(node) && arr.Length == n
        invariant Rebuilding(a, |a|, ns, i, n, nhsize)
      {
        i := i - 1;
        NodeRestStep(ns, i, n);
        NodeRestMono(ns, i, n);
        RestoreNodes(a, ns, i);
        if nold[i].val != Nil {
          PutBack(nold[i].key.k, nold[i].val);
        }
      }
    }

    /** Both parts have their new sizes; nothing is put back yet. */
    lemma RebuildStart(a: seq<TValue>, ns: Nodes, nhsize: nat)
      requires NodesOk(hash, node[..], rank) && FreeOk(node[..], dummy, lastfree) && arr.Length <= MAXASIZE
      requires forall j :: 0 <= j < node.Length ==> node[j] == FREE_NODE
      requires forall i :: 0 <= i < arr.Length ==> arr[i] == if i < |a| then a[i] else Nil
      requires nhsize <= node.Length <= MAXASIZE && (dummy <==> nhsize == 0)
      ensures Rebuilding(a, if arr.Length < |a| then arr.Length else |a|, ns, |ns|, arr.Length, nhsize)
    {
      var lim := if arr.Length < |a| then arr.Length else |a|;
      forall k
        ensures Get(k) == Restored(a, lim, ns, |ns|, k)
      {
        RestoreNone(a, lim, ns, arr[..], k);
      }
      assert UsedSet(node[..]) == {};
    }

    /** resize: both parts get new sizes and every entry is put back.  A hash part
        that would be too large is an error. */
    method Resize(nasize: nat, nhsize: nat) returns (ok: bool)
      requires Valid() && nasize <= MAXASIZE
      requires ArrRest(arr[..], arr.Length, nasize) + NodeRest(node[..], 0, nasize) <= nhsize
      modifies this, arr
      ensures ok == (nhsize <= MAXASIZE)
      ensures ok ==> Valid() && (forall k :: Get(k) == old(Get(k)))
      ensures (arr == old(arr) || fresh(arr)) && (ok ==> fresh(node) && arr.Length == nasize)
      ensures ok ==> node.Length >= nhsize && (dummy <==> nhsize == 0)
      ensures ok ==> |UsedSet(node[..])| <= ArrRest(old(arr[..]), old(arr.Length), nasize) + NodeRest(old(node[..]), 0, nasize)
      ensures !ok ==> node == old(node) && dummy == old(dummy) && lastfree == old(lastfree) && rank == old(rank)
      ensures !ok ==> Torn(old(arr[..]), old(node[..])) && arr.Length == if nasize > old(arr.Length) then nasize else old(arr.Length)
      decreases false, 5
    {
      ghost var a, ns := arr[..], node[..];
      var olda, nold := arr, node;
      hide Torn, NodesOk, FreeOk, Restored, ArrRest, NodeRest, UsedSet, Value, Wired;
      if nasize > arr.Length {
        SetArrayVector(nasize);
      }
      ok := SetNodeVector(nhsize);
      if !ok {
        IsTorn(a, ns);
        return;
      }
      if nasize < olda.Length {
        SetArrayVector(nasize);
      }
      RebuildStart(a, ns, nhsize);
      RestEnd(a, nasize);
      if nasize < olda.Length {
        PutBackElements(olda, ns, nhsize);
      }
      PutBackNodes(nold, a, nhsize);
      forall k
        ensures Get(k) == old(Get(k))
      {
        RestoreAll(a, ns, k);
      }
    }

    /** The first half of rehash: all keys are counted, slice by slice. */
    method CountKeys(ek: TValue) returns (nums: array<nat>, nasize: nat, totaluse: nat)
      requires Valid()
      ensures fresh(nums) && nums.Length == MAXBITS + 1
      ensures nasize == Prefix(nums[..], MAXBITS + 1) && totaluse == Entries() + 1
      ensures forall g :: 0 <= g <= MAXBITS ==> Prefix(nums[..], g + 1) == IntCount(arr[..], node[..], ek, Pow2(g))
    {
      UsedHaveKeys();
      hide *;
      nums := new nat[MAXBITS + 1](_ => 0);
      nasize := NumUseArray(arr, nums);
      ghost var n1 := nums[..];
      var used, ause := NumUseHash(node, nums);
      ghost var n2 := nums[..];
      var one := CountInt(ek, nums);
      CountsAdd(arr[..], node[..], ek, n1, n2, nums[..]);
      CountsLast(arr[..], node[..], ek, nums[..]);
      EntriesView();
      nasize, totaluse := nasize + ause + one, nasize + used + 1;
    }

    lemma EntriesView()
      ensures Entries() == ArrCount(arr[..], arr.Length) + NodeTotal(node[..], node.Length)
    {
    }

    lemma UsedHaveKeys()
      requires Valid()
      ensures forall j :: 0 <= j < node.Length && node[j].val != Nil ==> node[j].key.Key?
    {
    }

    /** rehash: room for one more key.  The array part gets the largest power of
        two of which more than half of the integers are keys; it fails exactly if
        the other keys are more than a hash part can hold, and even then changes no
        mapping. */
    method Rehash(ek: TValue) returns (ok: bool)
      requires Valid() && ek != Nil && !IntKey(ek, arr.Length) && !Present(node[..], ek)
      modifies this, arr
      ensures Valid() && (forall k :: Get(k) == old(Get(k)))
      ensures (arr == old(arr) || fresh(arr)) && (if ok then fresh(node) else node == old(node))
      ensures ok ==> IntKey(ek, arr.Length) || (!dummy && |UsedSet(node[..])| < node.Length)
      ensures ok ==> Optimal(old(arr[..]), old(node[..]), ek, arr.Length)
      ensures ok <==> !Overfull(old(arr[..]), old(node[..]), ek)
      decreases true, 0
    {
      ghost var a, ns := arr[..], node[..];
      BoundedCounts(ek);
      hide NodesOk, FreeOk, NoArrayKeys, ArrCount, NodeTotal, NodeCount, Prefix, Pow2, IntCount, Optimal, Dense, Present, Get, Torn, Overfull;
      var nums, nasize, totaluse := CountKeys(ek);
      var n, na, best := ComputeSizes(nums, nasize);
      ChosenSize(a, ns, ek, nums[..], n, na, best);
      ChosenRest(a, ns, ek, n, na, totaluse);
      IsOverfull(a, ns, ek, n);
      ok := Resize(n, totaluse - na);
      if !ok {
        if n > |a| {
          AllStay(a, ns, ek, n);
        }
        TornKeeps(a, ns);
        TornNodes(a, ns);
      }
    }

    lemma IsTorn(a: seq<TValue>, ns: Nodes)
      requires node[..] == ns && arr.Length >= |a|
      requires forall i :: 0 <= i < arr.Length ==> arr[i] == if i < |a| then a[i] else Nil
      ensures Torn(a, ns)
    {
    }

    lemma TornNodes(a: seq<TValue>, ns: Nodes)
      requires Torn(a, ns)
      ensures node[..] == ns
    {
    }

    lemma BoundedCounts(ek: TValue)
      requires Valid() && !IntKey(ek, arr.Length) && !Present(node[..], ek)
      ensures forall g :: 0 <= g <= MAXBITS ==> IntCount(arr[..], node[..], ek, Pow2(g)) == |IntSet(arr[..], node[..], ek, Pow2(g))| <= Pow2(g)
    {
      forall g | 0 <= g <= MAXBITS
        ensures IntCount(arr[..], node[..], ek, Pow2(g)) == |IntSet(arr[..], node[..], ek, Pow2(g))| <= Pow2(g)
      {
        IntsCounted(arr[..], node[..], ek, Pow2(g));
      }
    }

    // ------------------------------------------------------------ the operations

    /** luaH_set and the assignment to the place that it returns: it succeeds, or
        the key is nil, or the table overflows; an error changes nothing. */
    method Set(key: TValue, v: TValue) returns (r: SetResult)
      requires Valid()
      modifies this, arr, node
      ensures Valid() && forall k :: Get(k) == if r == Stored && k == key then v else old(Get(k))
      ensures r == NilKey <==> key == Nil
      ensures old(node.Length) > 0 && (r == Overflow <==> key != Nil && old(NoPlace(key)))
      ensures (arr == old(arr) || fresh(arr)) && (node == old(node) || fresh(node))
    {
      hide NodesOk, FreeOk, NoArrayKeys, Value, Overfull, NoPlace;
      NodesThere();
      if key == Nil {
        return NilKey;
      }
      var p := SetSlot(key, true);
      if p == Absent {
        return Overflow;
      }
      Store(p, key, v);
      r := Stored;
    }

    lemma NodesThere()
      requires Valid()
      ensures node.Length > 0
    {
    }

    /** luaH_new. */
    constructor (hash: TValue -> nat, narray: nat, nhash: nat)
      requires narray <= MAXASIZE && nhash <= MAXASIZE
      ensures Valid() && this.hash == hash && fresh(arr) && fresh(node)
      ensures forall k :: Get(k) == Nil
    {
      this.hash := hash;
      arr := new TValue[0];
      node := new Node[1](_ => FREE_NODE);
      new;
      SetArrayVector(narray);
      var ok := SetNodeVector(nhash);
    }

    /** luaH_resizearray, as OP_SETLIST uses it: only to grow. */
    method ResizeArray(nasize: nat)
      requires Valid() && arr.Length <= nasize <= MAXASIZE
      modifies this, arr
      ensures Valid() && arr.Length == nasize && (forall k :: Get(k) == old(Get(k)))
    {
      var nsize := if dummy then 0 else node.Length;
      ArrCountEnd(arr[..], nasize);
      NodesRest(node[..], node.Length, nasize);
      if dummy {
        assert node[..][0] == FREE_NODE;
      }
      var ok := Resize(nasize, nsize);
    }

    /** removeentry: an entry without value whose key is an object gets a dead
        key. */
    method RemoveEntry(j: nat)
      requires Valid() && j < node.Length && node[j].key != Free && node[j].val == Nil
      requires node[j].key.Key? ==> Alone(node[..], j)
      modifies node
      ensures Valid() && (forall k :: Get(k) == old(Get(k)))
      ensures node[..] == Killed(old(node[..]), j) && Touched(old(View()), View())
    {
      ghost var a, ns := arr[..], node[..];
      KillTouches(View(), j);
      KillOk(hash, ns, rank, j, arr.Length, dummy, lastfree);
      if Collectable(node[j].key.k) {
        node[j] := node[j].(key := Dead(node[j].key.k));
      }
      assert node[..] == Killed(ns, j) && arr[..] == a;
    }

    // -------------------------------------------------------- traversal and length

    lemma IndexReady(key: TValue)
      requires Valid()
      ensures key == Nil ==> IndexOk(hash, arr[..], node[..], key, Some(-1))
      ensures key.Num? && 0 < key.n <= arr.Length ==> IndexOk(hash, arr[..], node[..], key, Some(key.n - 1))
      ensures IntKey(key, arr.Length) <==> key.Num? && 1 <= key.n <= arr.Length
      ensures node.Length > 0 && Wired(node[..], rank) && MatchesFrom(hash, node[..], key, MainPosition(hash, key, node.Length))
    {
      EarlyIndex(hash, arr[..], node[..], key);
      MatchesAhead(hash, node[..], key);
    }

    /** findindex; None is the error "invalid key to 'next'". */
    method FindIndex(key: TValue) returns (r: Option<int>)
      requires Valid()
      ensures IndexOk(hash, arr[..], node[..], key, r)
    {
      hide *;
      ghost var a, ns := arr[..], node[..];
      IndexReady(key);
      if key == Nil {
        return Some(-1);
      }
      if key.Num? && 0 < key.n <= arr.Length {
        return Some(key.n - 1);
      }
      var n: nat := MainPosition(hash, key, node.Length);
      while true
        invariant n < |ns| && ns == node[..] && a == arr[..] && MatchesFrom(hash, ns, key, n) && Wired(ns, rank)
        decreases |Ahead(rank, rank[n])|
      {
        MatchStep(hash, a, ns, rank, key, n);
        MatchView(ns, key, n);
        if node[n].key == Key(key) || (node[n].key.Dead? && SameAddress(node[n].key.k, key)) {
          return Some(n + arr.Length);
        }
        if node[n].next.None? {
          return None;
        }
        n := node[n].next.value;
      }
    }

    /** luaH_next: the entry behind a key, the end, or the error of findindex. */
    method Next(key: TValue) returns (r: NextResult)
      requires Valid()
      ensures NextOk(hash, arr[..], node[..], key, r)
    {
      hide *;
      ghost var a, ns := arr[..], node[..];
      var f := FindIndex(key);
      if f.None? {
        NextKinds(a, ns, 0, Nil, Nil);
        NextIs(hash, a, ns, key, f, BadKey);
        return BadKey;
      }
      UsedHaveKeys();
      IndexRange(hash, a, ns, key, f);
      var i: nat := f.value + 1;
      BlankStart(a, ns, f.value);
      while i < arr.Length
        invariant a == arr[..] && ns == node[..] && f.value < i && Blank(a, ns, f.value, i)
      {
        BlankElement(a, ns, f.value, i);
        if arr[i] != Nil {
          r := Entry(Num(i + 1), arr[i]);
          NextKinds(a, ns, f.value, Num(i + 1), arr[i]);
          NextIs(hash, a, ns, key, f, r);
          return;
        }
        i := i + 1;
      }
      while i - arr.Length < node.Length
        invariant a == arr[..] && ns == node[..] && i >= arr.Length && f.value < i && Blank(a, ns, f.value, i)
      {
        var n := node[i - arr.Length];
        BlankNode(a, ns, f.value, i);
        if n.val != Nil {
          r := Entry(n.key.k, n.val);
          NextKinds(a, ns, f.value, n.key.k, n.val);
          NextIs(hash, a, ns, key, f, r);
          return;
        }
        i := i + 1;
      }
      BlankEnd(a, ns, f.value, i);
      r := Done;
      NextKinds(a, ns, f.value, Nil, Nil);
      NextIs(hash, a, ns, key, f, r);
    }

    /** luaH_getnum. */
    method GetNum(i: int) returns (v: TValue)
      requires Valid()
      ensures v == Value(arr[..], node[..], Num(i))
    {
      v := Lookup(Num(i));
    }

    /** unbound_search. */
    method UnboundSearch(j0: nat) returns (n: int)
      requires Valid() && (j0 > 0 ==> Value(arr[..], node[..], Num(j0)) != Nil)
      ensures Boundary(arr[..], node[..], n)
    {
      hide *;
      ghost var a, ns := arr[..], node[..];
      var i, j := j0, j0 + 1;
      var v := GetNum(j);
      while v != Nil
        invariant 0 <= i < j && v == Value(a, ns, Num(j)) && (i > 0 ==> Value(a, ns, Num(i)) != Nil)
        decreases Limit(a, ns) + 1 - j
      {
        Inside(a, ns, j);
        i := j;
        j := j * 2;
        if j > MAX_INT {
          n := LinearSearch();
          return;
        }
        v := GetNum(j);
      }
      while j - i > 1
        invariant 0 <= i < j && Value(a, ns, Num(j)) == Nil && (i > 0 ==> Value(a, ns, Num(i)) != Nil)
        decreases j - i
      {
        var m := (i + j) / 2;
        v := GetNum(m);
        if v == Nil {
          j := m;
        } else {
          i := m;
        }
      }
      n := i;
      IsBoundary(a, ns, n);
    }

    /** The way out of unbound_search when doubling overflows. */
    method LinearSearch() returns (n: int)
      requires Valid()
      ensures Boundary(arr[..], node[..], n)
    {
      hide *;
      ghost var a, ns := arr[..], node[..];
      var i := 1;
      var v := GetNum(i);
      while v != Nil
        invariant i >= 1 && v == Value(a, ns, Num(i)) && (i > 1 ==> Value(a, ns, Num(i - 1)) != Nil)
        decreases Limit(a, ns) + 1 - i
      {
        Inside(a, ns, i);
        i := i + 1;
        v := GetNum(i);
      }
      n := i - 1;
      IsBoundary(a, ns, n);
    }

    /** luaH_getn: a boundary. */
    method Length() returns (n: int)
      requires Valid()
      ensures Boundary(arr[..], node[..], n)
    {
      var j: nat := arr.Length;
      if j > 0 && arr[j - 1] == Nil {
        var i := 0;
        while j - i > 1
          invariant 0 <= i < j <= arr.Length && arr[j - 1] == Nil && (i > 0 ==> arr[i - 1] != Nil)
          decreases j - i
        {
          var m := (i + j) / 2;
          if arr[m - 1] == Nil {
            j := m;
          } else {
            i := m;
          }
        }
        n := i;
      } else if dummy {
        assert node[..][0] == FREE_NODE;
        n := j;
      } else {
        n := UnboundSearch(j);
      }
    }
  }
}
