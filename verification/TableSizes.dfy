/** The choice of sizes when a table is rebuilt: the slice of every integer key,
    the counts per slice, and the optimal array size (src/ltable.c:193-264,
    src/lobject.c:57-72). */
module TableSizes {
  import opened Bits
  import opened Seqs
  import opened TableState

  /** The array part has at most 2^MAXBITS elements. */
  const MAXBITS := 26

  const MAXASIZE: nat := 0x400_0000

  lemma MaxSize()
    ensures Pow2(MAXBITS) == MAXASIZE
  {
    Pow2Sum(13, 13);
    assert Pow2(13) == 8192;
  }

  // ------------------------------------------------------------- base-2 logarithm

  lemma {:induction false} Pow2Sum(a: nat, b: nat)
    ensures Pow2(a + b) == Pow2(a) * Pow2(b)
  {
    if a > 0 {
      Pow2Sum(a - 1, b);
    }
  }

  lemma {:induction false} Pow2Less(a: nat, b: nat)
    requires a < b
    ensures 2 * Pow2(a) <= Pow2(b)
  {
    if a + 1 < b {
      Pow2Less(a, b - 1);
    }
  }

  /** The table of luaO_log2: one more than the logarithm, 0 for 0. */
  function Log2Entry(x: nat): (t: nat)
    requires x < 256
    ensures x == 0 <==> t == 0
    ensures x > 0 ==> Pow2(t - 1) <= x < Pow2(t)
  {
    assert Pow2(1) == 2 && Pow2(2) == 4 && Pow2(3) == 8 && Pow2(4) == 16;
    assert Pow2(5) == 32 && Pow2(6) == 64 && Pow2(7) == 128 && Pow2(8) == 256;
    if x == 0 then 0 else if x < 2 then 1 else if x < 4 then 2 else if x < 8 then 3 else if x < 16 then 4
    else if x < 32 then 5 else if x < 64 then 6 else if x < 128 then 7 else 8
  }

  lemma MulMono(p: nat, a: nat, b: nat)
    requires a <= b
    ensures p * a <= p * b
  {
  }

  lemma MulAssoc(p: nat, a: nat, b: nat)
    ensures p * (a * b) == (p * a) * b
  {
  }

  lemma Log2Done(x: nat, y: nat, m: nat)
    requires y < 256 && x > 0 && Pow2(m) * y <= x < Pow2(m) * (y + 1)
    ensures Log2Entry(y) > 0 ==> Pow2(m + Log2Entry(y) - 1) <= x < Pow2(m + Log2Entry(y))
    ensures y == 0 ==> Log2Entry(y) == 0 && x < Pow2(m)
  {
    var t := Log2Entry(y);
    hide Pow2, Log2Entry;
    if t > 0 {
      Pow2Sum(m, t - 1);
      Pow2Sum(m, t);
      MulMono(Pow2(m), Pow2(t - 1), y);
      MulMono(Pow2(m), y + 1, Pow2(t));
    }
  }

  lemma Log2Byte(x: nat, y: nat, m: nat)
    requires Pow2(m) * y <= x < Pow2(m) * (y + 1)
    ensures Pow2(m + 8) * (y / 256) <= x < Pow2(m + 8) * (y / 256 + 1)
  {
    assert Pow2(8) == 256 by { assert Pow2(4) == 16; Pow2Sum(4, 4); }
    hide Pow2;
    var q := y / 256;
    Pow2Sum(m, 8);
    MulMono(Pow2(m), 256 * q, y);
    MulMono(Pow2(m), y + 1, 256 * (q + 1));
    MulAssoc(Pow2(m), 256, q);
    MulAssoc(Pow2(m), 256, q + 1);
  }

  /** luaO_log2: eight bits at a time, and a table for the rest. */
  method Log2(x: nat) returns (r: int)
    ensures x == 0 ==> r == -1
    ensures x > 0 ==> r >= 0 && Pow2(r) <= x < Pow2(r + 1)
  {
    var l, y := -1, x;
    assert Pow2(0) == 1;
    hide Pow2, Log2Entry;
    while y >= 256
      invariant l >= -1 && y >= 0 && Pow2(l + 1) * y <= x < Pow2(l + 1) * (y + 1)
      invariant (y == x && l == -1) || 0 < y < x
      decreases y
    {
      Log2Byte(x, y, l + 1);
      l := l + 8;
      y := y / 256;
    }
    if x > 0 {
      Log2Done(x, y, l + 1);
    }
    r := l + Log2Entry(y);
  }

  /** ceillog2: the slice (2^(r-1), 2^r] that x lies in. */
  method CeilLog2(x: nat) returns (r: nat)
    requires x > 0
    ensures x <= Pow2(r) && (r > 0 ==> Pow2(r - 1) < x)
  {
    var l := Log2(x - 1);
    r := l + 1;
  }

  lemma SliceUnique(x: nat, r: nat, g: nat)
    requires x > 0 && x <= Pow2(r) && (r > 0 ==> Pow2(r - 1) < x)
    ensures r <= g <==> x <= Pow2(g)
  {
    if r < g {
      Pow2Less(r, g);
    } else if g < r && g + 1 < r {
      Pow2Less(g, r - 1);
    }
  }

  // --------------------------------------------------------------------- counts

  /** nums[0] + ... + nums[g-1]. */
  ghost function Prefix(nums: seq<nat>, g: nat): nat
    requires g <= |nums|
  {
    if g == 0 then 0 else Prefix(nums, g - 1) + nums[g - 1]
  }

  lemma {:induction false} PrefixUpdate(nums: seq<nat>, r: nat, v: nat, g: nat)
    requires r < |nums| && g <= |nums|
    ensures Prefix(nums[r := v], g) == Prefix(nums, g) + if r < g then v - nums[r] else 0
  {
    if g > 0 {
      PrefixUpdate(nums, r, v, g - 1);
    }
  }

  lemma {:induction false} PrefixMore(nums: seq<nat>, g: nat, h: nat)
    requires g <= h <= |nums|
    ensures Prefix(nums, g) <= Prefix(nums, h)
  {
    if g < h {
      PrefixMore(nums, g, h - 1);
    }
  }

  /** Elements in use among the first n of the array part. */
  ghost function ArrCount(arr: seq<TValue>, n: nat): nat {
    if n == 0 then 0 else ArrCount(arr, n - 1) + if n - 1 < |arr| && arr[n - 1] != Nil then 1 else 0
  }

  lemma {:induction false} ArrCountEnd(arr: seq<TValue>, n: nat)
    requires n >= |arr|
    ensures ArrCount(arr, n) == ArrCount(arr, |arr|)
  {
    if n > |arr| {
      ArrCountEnd(arr, n - 1);
    }
  }

  /** Among the first m nodes: those in use, and those in use with a key in 1..n. */
  ghost function NodeTotal(ns: Nodes, m: nat): nat
    requires m <= |ns|
  {
    if m == 0 then 0 else NodeTotal(ns, m - 1) + if ns[m - 1].val != Nil then 1 else 0
  }

  ghost function NodeCount(ns: Nodes, m: nat, n: int): nat
    requires m <= |ns|
  {
    if m == 0 then 0
    else NodeCount(ns, m - 1, n) + if ns[m - 1].val != Nil && ns[m - 1].key.Key? && IntKey(ns[m - 1].key.k, n) then 1 else 0
  }

  /** Counts elements i..lim of the array part. */
  method CountSlice(arr: array<TValue>, i: nat, lim: nat) returns (lc: nat)
    requires 1 <= i <= lim + 1 && lim <= arr.Length
    ensures lc == ArrCount(arr[..], lim) - ArrCount(arr[..], i - 1)
  {
    lc := 0;
    var k := i;
    while k <= lim
      invariant i <= k <= lim + 1 && lc == ArrCount(arr[..], k - 1) - ArrCount(arr[..], i - 1)
    {
      if arr[k - 1] != Nil {
        lc := lc + 1;
      }
      k := k + 1;
    }
  }

  /** nums[r] += d. */
  method AddTo(nums: array<nat>, r: nat, d: nat)
    requires r < nums.Length
    modifies nums
    ensures nums[..] == old(nums[..])[r := old(nums[r]) + d]
    ensures forall g :: 0 <= g <= nums.Length ==> Prefix(nums[..], g) == Prefix(old(nums[..]), g) + if r < g then d else 0
  {
    ghost var before := nums[..];
    nums[r] := nums[r] + d;
    assert nums[..] == before[r := before[r] + d];
    forall g | 0 <= g <= nums.Length
      ensures Prefix(nums[..], g) == Prefix(before, g) + if r < g then d else 0
    {
      PrefixUpdate(before, r, before[r] + d, g);
    }
  }

  /** What is counted before slice lg: the first i-1 elements. */
  ghost predicate Sliced(arr: seq<TValue>, nums: seq<nat>, lg: nat, i: nat) {
    && |nums| == MAXBITS + 1 && lg <= MAXBITS + 1 && 1 <= i <= |arr| + 1
    && i - 1 == (if lg == 0 then 0 else if Pow2(lg - 1) < |arr| then Pow2(lg - 1) else |arr|)
    && Prefix(nums, lg) == ArrCount(arr, i - 1)
    && (forall g :: lg <= g <= MAXBITS ==> nums[g] == 0)
    && (forall g :: 0 <= g < lg ==> Prefix(nums, g + 1) == ArrCount(arr, Pow2(g)))
  }

  lemma SliceDone(arr: seq<TValue>, nums: seq<nat>, nums': seq<nat>, lg: nat, i: nat, lim: nat, lc: nat)
    requires Sliced(arr, nums, lg, i) && lg <= MAXBITS && lim == (if Pow2(lg) > |arr| then |arr| else Pow2(lg)) && i <= lim + 1
    requires lc == ArrCount(arr, lim) - ArrCount(arr, i - 1) && nums' == nums[lg := nums[lg] + lc]
    ensures Sliced(arr, nums', lg + 1, lim + 1)
  {
    forall g | 0 <= g <= lg + 1
      ensures Prefix(nums', g) == Prefix(nums, g) + if lg < g then lc else 0
    {
      PrefixUpdate(nums, lg, nums'[lg], g);
    }
    if Pow2(lg) > |arr| {
      ArrCountEnd(arr, Pow2(lg));
    }
    assert forall g :: 0 <= g < lg + 1 ==> Prefix(nums', g + 1) == ArrCount(arr, Pow2(g));
  }

  /** The limit of a slice is not before its first element. */
  lemma SliceStart(arr: seq<TValue>, nums: seq<nat>, lg: nat, i: nat)
    requires Sliced(arr, nums, lg, i) && Pow2(lg) <= |arr|
    ensures i <= Pow2(lg)
  {
    if lg > 0 {
      Pow2Less(lg - 1, lg);
    }
  }

  lemma SlicedFirst(arr: seq<TValue>, nums: seq<nat>)
    requires |nums| == MAXBITS + 1 && forall g :: 0 <= g <= MAXBITS ==> nums[g] == 0
    ensures Sliced(arr, nums, 0, 1) && ArrCount(arr, 0) == 0
  {
  }

  /** numusearray: the array part, slice by slice. */
  method NumUseArray(arr: array<TValue>, nums: array<nat>) returns (ause: nat)
    requires arr.Length <= MAXASIZE && nums.Length == MAXBITS + 1
    requires forall g :: 0 <= g <= MAXBITS ==> nums[g] == 0
    modifies nums
    ensures ause == ArrCount(arr[..], arr.Length)
    ensures forall g :: 0 <= g <= MAXBITS ==> Prefix(nums[..], g + 1) == ArrCount(arr[..], Pow2(g))
  {
    hide Sliced, Prefix, ArrCount;
    ghost var a := arr[..];
    ause := 0;
    var i := 1;
    var lg, ttlg := 0, 1;
    SlicedFirst(a, nums[..]);
    while lg <= MAXBITS
      invariant 0 <= lg <= MAXBITS + 1 && ttlg == Pow2(lg) && 1 <= i <= arr.Length + 1
      invariant ause == ArrCount(a, i - 1) && Sliced(a, nums[..], lg, i)
    {
      var lim := ttlg;
      if lim > arr.Length {
        lim := arr.Length;
        if i > lim {
          break;
        }
      } else {
        SliceStart(a, nums[..], lg, i);
      }
      var lc := CountSlice(arr, i, lim);
      ghost var before := nums[..];
      assert before[lg] == nums[lg];
      AddTo(nums, lg, lc);
      SliceDone(a, before, nums[..], lg, i, lim, lc);
      i := lim + 1;
      ause := ause + lc;
      lg, ttlg := lg + 1, ttlg * 2;
    }
    RestEmpty(a, nums[..], lg, i);
  }

  /** When all elements are counted the other slices stay empty. */
  lemma RestEmpty(arr: seq<TValue>, nums: seq<nat>, lg: nat, i: nat)
    requires Sliced(arr, nums, lg, i) && |arr| <= MAXASIZE && (lg == MAXBITS + 1 || i - 1 == |arr|)
    ensures ArrCount(arr, i - 1) == ArrCount(arr, |arr|)
    ensures forall g :: 0 <= g <= MAXBITS ==> Prefix(nums, g + 1) == ArrCount(arr, Pow2(g))
  {
    MaxSize();
    hide Pow2;
    forall g | lg <= g <= MAXBITS
      ensures Prefix(nums, g + 1) == ArrCount(arr, Pow2(g))
    {
      PrefixRest(nums, lg, g + 1);
      if lg > 0 {
        Pow2Less(lg - 1, g);
      }
      ArrCountEnd(arr, Pow2(g));
    }
  }

  lemma {:induction false} PrefixRest(nums: seq<nat>, lg: nat, g: nat)
    requires lg <= g <= |nums| && forall h :: lg <= h < |nums| ==> nums[h] == 0
    ensures Prefix(nums, g) == Prefix(nums, lg)
  {
    if lg < g {
      PrefixRest(nums, lg, g - 1);
    }
  }

  /** countint: one more in the slice of an integer key. */
  method CountInt(key: TValue, nums: array<nat>) returns (one: nat)
    requires nums.Length == MAXBITS + 1
    modifies nums
    ensures one == if IntKey(key, MAXASIZE) then 1 else 0
    ensures forall g :: 0 <= g <= MAXBITS ==>
              Prefix(nums[..], g + 1) == Prefix(old(nums[..]), g + 1) + if IntKey(key, Pow2(g)) then 1 else 0
  {
    MaxSize();
    hide Pow2, Prefix;
    if key.Num? && 0 < key.n <= MAXASIZE {
      var r := CeilLog2(key.n);
      SliceUnique(key.n, r, MAXBITS);
      ghost var before := nums[..];
      AddTo(nums, r, 1);
      forall g | 0 <= g <= MAXBITS
        ensures Prefix(nums[..], g + 1) == Prefix(before, g + 1) + if IntKey(key, Pow2(g)) then 1 else 0
      {
        SliceUnique(key.n, r, g);
      }
      one := 1;
    } else {
      one := 0;
      forall g | 0 <= g <= MAXBITS
        ensures !IntKey(key, Pow2(g))
      {
        if g < MAXBITS {
          Pow2Less(g, MAXBITS);
        }
      }
    }
  }

  /** Nodes from m on that are in use, and those with a key in 1..n. */
  ghost function TotalFrom(ns: Nodes, m: nat): int
    requires m <= |ns|
  {
    NodeTotal(ns, |ns|) - NodeTotal(ns, m)
  }

  ghost function CountFrom(ns: Nodes, m: nat, n: int): int
    requires m <= |ns|
  {
    NodeCount(ns, |ns|, n) - NodeCount(ns, m, n)
  }

  /** numusehash: the nodes in use, from the last to the first. */
  method NumUseHash(node: array<Node>, nums: array<nat>) returns (totaluse: int, ause: int)
    requires nums.Length == MAXBITS + 1 && forall j :: 0 <= j < node.Length && node[j].val != Nil ==> node[j].key.Key?
    modifies nums
    ensures totaluse == NodeTotal(node[..], node.Length) && ause == NodeCount(node[..], node.Length, MAXASIZE)
    ensures forall g :: 0 <= g <= MAXBITS ==>
              Prefix(nums[..], g + 1) == Prefix(old(nums[..]), g + 1) + NodeCount(node[..], node.Length, Pow2(g))
  {
    ghost var ns, nums0 := node[..], nums[..];
    hide Prefix, Pow2, IntKey;
    totaluse, ause := 0, 0;
    var i := node.Length;
    while i > 0
      invariant 0 <= i <= node.Length
      invariant totaluse == TotalFrom(ns, i) && ause == CountFrom(ns, i, MAXASIZE)
      invariant forall g :: 0 <= g <= MAXBITS ==> Prefix(nums[..], g + 1) == Prefix(nums0, g + 1) + CountFrom(ns, i, Pow2(g))
    {
      i := i - 1;
      if node[i].val != Nil {
        var one := CountInt(node[i].key.k, nums);
        ause := ause + one;
        totaluse := totaluse + 1;
      }
    }
  }

  // ------------------------------------------------------------- the optimal size

  /** The first g+1 slices hold more than half of 1..2^g. */
  ghost predicate Dense(nums: seq<nat>, g: nat)
    requires g < |nums|
  {
    Prefix(nums, g + 1) > Pow2(g) / 2
  }

  /** No larger slice is dense when all keys are counted, or when there are too
      few keys for it. */
  lemma NoneLarger(q: seq<nat>, i: nat, narray: nat, g: nat)
    requires |q| == MAXBITS + 1 && i <= g <= MAXBITS && Prefix(q, MAXBITS + 1) == narray
    requires narray <= Pow2(i) / 2 || (i > 0 && narray <= Pow2(i - 1))
    ensures !Dense(q, g)
  {
    PrefixMore(q, g + 1, MAXBITS + 1);
    if i < g {
      Pow2Less(i, g);
    }
  }

  /** computesizes: the largest power of two that is more than half full, and how
      many keys it covers.  The index stays within `nums`. */
  method ComputeSizes(nums: array<nat>, narray: nat) returns (n: nat, na: nat, ghost best: nat)
    requires nums.Length == MAXBITS + 1 && Prefix(nums[..], MAXBITS + 1) == narray
    requires forall g :: 0 <= g <= MAXBITS ==> Prefix(nums[..], g + 1) <= Pow2(g)
    ensures best <= MAXBITS + 1
    ensures forall g :: best <= g <= MAXBITS ==> !Dense(nums[..], g)
    ensures if best == 0 then n == 0 && na == 0
            else n == Pow2(best - 1) && na == Prefix(nums[..], best) && Dense(nums[..], best - 1)
  {
    hide *;
    ghost var q := nums[..];
    var a, i, twotoi := 0, 0, 1;
    n, na, best := 0, 0, 0;
    SizesStart(q);
    while twotoi / 2 < narray
      invariant 0 <= i <= MAXBITS && twotoi == Pow2(i) && a == Prefix(q, i) && (i > 0 ==> a != narray)
      invariant best <= i && forall g :: best <= g < i ==> !Dense(q, g)
      invariant if best == 0 then n == 0 && na == 0 else n == Pow2(best - 1) && na == Prefix(q, best) && Dense(q, best - 1)
      decreases MAXBITS - i
    {
      SizesStep(q, i);
      if nums[i] > 0 {
        a := a + nums[i];
        if a > twotoi / 2 {
          n, na, best := twotoi, a, i + 1;
        }
      }
      if a == narray {
        forall g | i < g <= MAXBITS
          ensures !Dense(q, g)
        {
          NoneLarger(q, i + 1, narray, g);
        }
        return;
      }
      i, twotoi := i + 1, twotoi * 2;
    }
    forall g | i <= g <= MAXBITS
      ensures !Dense(q, g)
    {
      NoneLarger(q, i, narray, g);
    }
  }

  lemma SizesStart(q: seq<nat>)
    ensures Pow2(0) == 1 && Prefix(q, 0) == 0 && MAXBITS >= 0
  {
  }

  /** One slice: it is dense only if it adds keys. */
  lemma SizesStep(q: seq<nat>, i: nat)
    requires |q| == MAXBITS + 1 && i <= MAXBITS && forall g :: 0 <= g <= MAXBITS ==> Prefix(q, g + 1) <= Pow2(g)
    ensures Prefix(q, i + 1) == Prefix(q, i) + q[i] <= Pow2(i) && Pow2(i + 1) == 2 * Pow2(i)
    ensures Dense(q, i) <==> q[i] > 0 && Prefix(q, i + 1) > Pow2(i) / 2
  {
    if i > 0 {
      assert Prefix(q, i - 1 + 1) <= Pow2(i - 1);
    }
  }

  /** What goes back into the hash part when the array part gets n elements. */
  ghost function ArrRest(arr: seq<TValue>, lim: nat, n: nat): int {
    ArrCount(arr, lim) - ArrCount(arr, n)
  }

  ghost function NodeRest(ns: Nodes, m: nat, n: int): int
    requires m <= |ns|
  {
    TotalFrom(ns, m) - CountFrom(ns, m, n)
  }

  lemma NodeRestStep(ns: Nodes, m: nat, n: int)
    requires m < |ns|
    ensures NodeRest(ns, m, n) == NodeRest(ns, m + 1, n) +
              if ns[m].val != Nil && !(ns[m].key.Key? && IntKey(ns[m].key.k, n)) then 1 else 0
  {
  }

  lemma {:induction false} ArrCountMono(arr: seq<TValue>, a: nat, b: nat)
    requires a <= b
    ensures ArrCount(arr, a) <= ArrCount(arr, b)
  {
    if a < b {
      ArrCountMono(arr, a, b - 1);
    }
  }

  lemma {:induction false} NodeRestMono(ns: Nodes, m: nat, n: int)
    requires m <= |ns|
    ensures 0 <= NodeRest(ns, m, n) <= NodeRest(ns, 0, n)
    decreases |ns| - m
  {
    NodeRestPos(ns, m, n);
    NodeRestFront(ns, m, n);
  }

  lemma {:induction false} NodeRestPos(ns: Nodes, m: nat, n: int)
    requires m <= |ns|
    ensures 0 <= NodeRest(ns, m, n)
    decreases |ns| - m
  {
    if m < |ns| {
      NodeRestStep(ns, m, n);
      NodeRestPos(ns, m + 1, n);
    }
  }

  lemma {:induction false} NodeRestFront(ns: Nodes, m: nat, n: int)
    requires m <= |ns|
    ensures NodeRest(ns, m, n) <= NodeRest(ns, 0, n)
  {
    if m > 0 {
      NodeRestStep(ns, m - 1, n);
      NodeRestFront(ns, m - 1, n);
    }
  }

  /** At most every node; then every node has a key that stays. */
  lemma {:induction false} NodeRestAll(ns: Nodes, m: nat, n: int)
    requires m <= |ns|
    ensures NodeRest(ns, m, n) <= |ns| - m
    ensures NodeRest(ns, m, n) == |ns| - m ==>
              forall j :: m <= j < |ns| ==> ns[j].val != Nil && !(ns[j].key.Key? && IntKey(ns[j].key.k, n))
    decreases |ns| - m
  {
    if m < |ns| {
      NodeRestStep(ns, m, n);
      NodeRestAll(ns, m + 1, n);
    }
  }

  lemma RestEnd(arr: seq<TValue>, n: nat)
    ensures ArrRest(arr, |arr|, if n < |arr| then n else |arr|) == ArrRest(arr, |arr|, n)
  {
    if n >= |arr| {
      ArrCountEnd(arr, n);
    }
  }

  // ------------------------------------------------------------ what is counted

  /** The integers 1..n that have a value, and the one about to get one. */
  ghost function IntSet(arr: seq<TValue>, ns: Nodes, ek: TValue, n: nat): set<int> {
    set i | 1 <= i <= n && (Value(arr, ns, Num(i)) != Nil || ek == Num(i))
  }

  /** The counts that rehash works with. */
  ghost function IntCount(arr: seq<TValue>, ns: Nodes, ek: TValue, n: nat): nat {
    ArrCount(arr, n) + NodeCount(ns, |ns|, n) + if IntKey(ek, n) then 1 else 0
  }

  ghost predicate InArr(arr: seq<TValue>, n: nat, i: int) {
    1 <= i <= n && i <= |arr| && arr[i - 1] != Nil
  }

  ghost function ArrSet(arr: seq<TValue>, n: nat): set<int> {
    set i | 1 <= i <= n && InArr(arr, n, i)
  }

  lemma {:induction false} ArrSetSize(arr: seq<TValue>, n: nat)
    ensures |ArrSet(arr, n)| == ArrCount(arr, n)
  {
    if n > 0 {
      ArrSetSize(arr, n - 1);
      if n <= |arr| && arr[n - 1] != Nil {
        assert ArrSet(arr, n) == ArrSet(arr, n - 1) + {n};
      } else {
        assert ArrSet(arr, n) == ArrSet(arr, n - 1);
      }
    }
  }

  ghost predicate Uses(ns: Nodes, j: nat, i: int) {
    j < |ns| && ns[j].key == Key(Num(i)) && ns[j].val != Nil
  }

  ghost predicate InNodes(ns: Nodes, m: nat, i: int) {
    exists j: nat :: j < m && Uses(ns, j, i)
  }

  ghost function NodeSet(ns: Nodes, m: nat, n: nat): set<int> {
    set i | 1 <= i <= n && InNodes(ns, m, i)
  }

  lemma {:induction false} NodeSetSize(ns: Nodes, m: nat, n: nat)
    requires m <= |ns| && Unique(ns)
    ensures |NodeSet(ns, m, n)| == NodeCount(ns, m, n)
  {
    if m == 0 {
      assert NodeSet(ns, 0, n) == {};
    } else {
      NodeSetSize(ns, m - 1, n);
      hide NodeSet, Unique;
      NodeSetStep(ns, m - 1, n);
    }
  }

  lemma NodeSetStep(ns: Nodes, m: nat, n: nat)
    requires m < |ns| && Unique(ns)
    ensures var x, s := ns[m], NodeSet(ns, m, n);
            if x.val != Nil && x.key.Key? && IntKey(x.key.k, n)
            then NodeSet(ns, m + 1, n) == s + {x.key.k.n} && x.key.k.n !in s
            else NodeSet(ns, m + 1, n) == s
  {
    var x := ns[m];
    forall i | 1 <= i <= n
      ensures InNodes(ns, m + 1, i) <==> InNodes(ns, m, i) || Uses(ns, m, i)
    {
      if InNodes(ns, m + 1, i) && !Uses(ns, m, i) {
        var j: nat :| j < m + 1 && Uses(ns, j, i);
        assert j < m;
      }
    }
    if x.val != Nil && x.key.Key? && IntKey(x.key.k, n) {
      assert forall j: nat :: j < m ==> !Uses(ns, j, x.key.k.n);
    }
  }

  lemma ValueSets(arr: seq<TValue>, ns: Nodes, i: int, n: nat)
    requires Unique(ns) && NoArrayKeys(ns, |arr|) && 1 <= i <= n
    ensures Value(arr, ns, Num(i)) != Nil <==> InArr(arr, n, i) || InNodes(ns, |ns|, i)
    ensures !(InArr(arr, n, i) && InNodes(ns, |ns|, i))
  {
    if i > |arr| {
      if j: nat :| Holds(ns, Num(i), j) {
        NodeValueAt(ns, Num(i), j);
        if ns[j].val != Nil {
          assert Uses(ns, j, i);
        }
      }
      if InNodes(ns, |ns|, i) {
        var j: nat :| j < |ns| && Uses(ns, j, i);
        assert Holds(ns, Num(i), j);
      }
    }
  }

  lemma {:induction false} IntsSize(n: nat)
    ensures |set i | 1 <= i <= n && IntKey(Num(i), n)| == n
  {
    if n > 0 {
      IntsSize(n - 1);
      assert (set i | 1 <= i <= n && IntKey(Num(i), n)) == (set i | 1 <= i <= n - 1 && IntKey(Num(i), n - 1)) + {n};
    }
  }

  /** The counts are the numbers of integer keys. */
  lemma IntsCounted(arr: seq<TValue>, ns: Nodes, ek: TValue, n: nat)
    requires Unique(ns) && NoArrayKeys(ns, |arr|) && Value(arr, ns, ek) == Nil
    ensures IntCount(arr, ns, ek, n) == |IntSet(arr, ns, ek, n)| <= n
  {
    var a, b, e := ArrSet(arr, n), NodeSet(ns, |ns|, n), if IntKey(ek, n) then {ek.n} else {};
    ArrSetSize(arr, n);
    NodeSetSize(ns, |ns|, n);
    forall i | 1 <= i <= n
      ensures Value(arr, ns, Num(i)) != Nil <==> i in a || i in b
      ensures !(i in a && i in b)
    {
      ValueSets(arr, ns, i, n);
    }
    assert IntSet(arr, ns, ek, n) == a + b + e;
    hide IntSet, ArrSet, NodeSet, Value, ArrCount, NodeCount;
    assert a !! b && (a + b) !! e;
    Sizes(a, b, e);
    InRange(arr, ns, ek, n);
  }

  lemma Sizes(a: set<int>, b: set<int>, c: set<int>)
    requires a !! b && (a + b) !! c
    ensures |a + b + c| == |a| + |b| + |c|
  {
  }

  lemma InRange(arr: seq<TValue>, ns: Nodes, ek: TValue, n: nat)
    ensures |IntSet(arr, ns, ek, n)| <= n
  {
    IntsSize(n);
    SubsetSize(IntSet(arr, ns, ek, n), set i | 1 <= i <= n && IntKey(Num(i), n));
  }
}
