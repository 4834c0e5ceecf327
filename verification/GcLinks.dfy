/** How the list links of the objects represent the lists of GcState.State, and
    what the link updates of the collector do to them (src/lgc.c:985-1178,
    src/lgc.c:500-528). */
module GcLinks {
  import opened Bits
  import opened Seqs
  import opened LinkedLists
  import opened GcState
  import opened GcRelease
  import opened GcMark
  import opened GcAtomic
  import opened GcStore
  import opened GcSweep
  import opened GcCycle
  import opened GcObjects

  /** `GCObject **sweepgc`: the list head, or the `next` field of an object. */
  datatype Cursor = RootHead | NextOf(o: Ref)

  /** The cursor stands before position k of q. */
  ghost predicate Denotes(c: Cursor, q: seq<Ref>, k: nat) {
    match c
    case RootHead => k == 0
    case NextOf(o) => 0 < k <= |q| && q[k - 1] == o
  }

  ghost predicate Doubly(next: Links, prev: Links, head: Option<Ref>, q: seq<Ref>) {
    Chain(next, head, q) && Backs(prev, q)
  }

  ghost predicate Buckets(next: Links, prev: Links, hash: seq<Option<Ref>>, strt: seq<seq<Ref>>) {
    |hash| == |strt| && forall b :: 0 <= b < |strt| ==> Doubly(next, prev, hash[b], strt[b])
  }

  /** Links exist for allocated objects only: reading one of a freed object would
      be an error. */
  ghost predicate LinksFor(heap: map<Ref, GCObject>, next: Links, prev: Links) {
    next.Keys == heap.Keys && prev.Keys == heap.Keys
  }

  // ------------------------------------------------------- cutting an object out

  function CutHead(next: Links, prev: Links, head: Option<Ref>, c: Ref): Option<Ref>
    requires c in next && c in prev
  {
    if prev[c].Some? then head else next[c]
  }

  lemma CutLinksFor(h: map<Ref, GCObject>, next: Links, prev: Links, c: Ref)
    requires LinksFor(h, next, prev) && c in next && c in prev
    requires (prev[c].Some? ==> prev[c].value in h) && (next[c].Some? ==> next[c].value in h)
    ensures LinksFor(Forget(h, c), Forget(CutNext(next, prev, c), c), Forget(CutPrev(next, prev, c), c))
  {
    assert CutNext(next, prev, c).Keys == next.Keys && CutPrev(next, prev, c).Keys == prev.Keys;
  }

  lemma ForgetLinks(h: map<Ref, GCObject>, next: Links, prev: Links, c: Ref)
    requires LinksFor(h, next, prev)
    ensures LinksFor(Forget(h, c), Forget(next, c), Forget(prev, c))
  {
  }

  lemma LinkAt(next: Links, prev: Links, head: Option<Ref>, q: seq<Ref>, c: Ref) returns (k: nat)
    requires Doubly(next, prev, head, q) && NoDup(q) && c in q
    ensures k < |q| && q[k] == c && k == IndexOf(q, c)
    ensures c in next && c in prev && next[c] == After(q, k) && prev[c] == Before(q, k)
    ensures next[c] != Some(c) && c in CutPrev(next, prev, c) && CutPrev(next, prev, c)[c] == prev[c]
  {
    k := IndexOf(q, c);
    assert k + 1 < |q| ==> q[k + 1] != q[k];
  }

  /** Cutting c out leaves the list without c, and every other object's links. */
  lemma CutOut(next: Links, prev: Links, head: Option<Ref>, q: seq<Ref>, c: Ref)
    requires Doubly(next, prev, head, q) && NoDup(q) && c in q
    ensures c in next && c in prev
    ensures Doubly(CutNext(next, prev, c), CutPrev(next, prev, c), CutHead(next, prev, head, c), Without(q, c))
    ensures forall x :: x in next && x !in q ==> x in CutNext(next, prev, c) && CutNext(next, prev, c)[x] == next[x]
    ensures forall x :: x in prev && x !in q ==> x in CutPrev(next, prev, c) && CutPrev(next, prev, c)[x] == prev[x]
  {
    var k := LinkAt(next, prev, head, q, c);
    UnlinkChain(next, head, q, k);
    UnlinkBacks(prev, q, k);
    WithoutAt(q, k);
  }

  lemma ShrinkLinks(next: Links, prev: Links, head: Option<Ref>, q: seq<Ref>, c: Ref)
    requires Doubly(next, prev, head, q) && c !in q
    ensures Doubly(Forget(next, c), Forget(prev, c), head, q)
  {
    ChainFrame(next, Forget(next, c), head, q);
    BacksFrame(prev, Forget(prev, c), q);
  }

  lemma KeepLinks(next: Links, prev: Links, next': Links, prev': Links, head: Option<Ref>, q: seq<Ref>)
    requires Doubly(next, prev, head, q)
    requires forall x :: x in q ==> x in next' && next'[x] == next[x] && x in prev' && prev'[x] == prev[x]
    ensures Doubly(next', prev', head, q)
  {
    ChainFrame(next, next', head, q);
    BacksFrame(prev, prev', q);
  }

  /** The cursor after c has been cut out: one that stood in c's own link moves
      back to the link that pointed to c. */
  lemma CursorCut(cur: Cursor, q: seq<Ref>, k: nat, j: nat)
    requires NoDup(q) && j < |q| && k <= |q| && Denotes(cur, q, k)
    ensures var r := q[..j] + q[j + 1..];
            var cur' := if cur == NextOf(q[j]) then (if j > 0 then NextOf(q[j - 1]) else RootHead) else cur;
            Denotes(cur', r, if j < k then k - 1 else k)
  {
    var r := q[..j] + q[j + 1..];
    assert forall i :: 0 <= i < |r| ==> r[i] == if i < j then q[i] else q[i + 1];
    if cur != NextOf(q[j]) && cur.NextOf? {
      assert q[k - 1] == cur.o;
    }
  }

  /** The list that c was in, once c is cut out and freed. */
  lemma CutAndFreed(next: Links, prev: Links, head: Option<Ref>, q: seq<Ref>, c: Ref)
    requires Doubly(next, prev, head, q) && NoDup(q) && c in q
    ensures c in next && c in prev && next[c] != Some(c)
    ensures Doubly(Forget(CutNext(next, prev, c), c), Forget(CutPrev(next, prev, c), c), CutHead(next, prev, head, c), Without(q, c))
  {
    var k := LinkAt(next, prev, head, q, c);
    CutOut(next, prev, head, q, c);
    ShrinkLinks(CutNext(next, prev, c), CutPrev(next, prev, c), CutHead(next, prev, head, c), Without(q, c), c);
  }

  /** Any other list. */
  lemma OtherFreed(next: Links, prev: Links, head: Option<Ref>, q: seq<Ref>, c: Ref, h: Option<Ref>, r: seq<Ref>)
    requires Doubly(next, prev, head, q) && NoDup(q) && c in q
    requires forall x :: x in r ==> x !in q
    ensures c in next && c in prev
    ensures Chain(next, h, r) ==> Chain(Forget(CutNext(next, prev, c), c), h, r)
    ensures Backs(prev, r) ==> Backs(Forget(CutPrev(next, prev, c), c), r)
  {
    CutOut(next, prev, head, q, c);
    if Chain(next, h, r) {
      assert forall x :: x in r ==> x in next by { assert forall i :: 0 <= i < |r| ==> r[i] in next; }
      ChainFrame(next, Forget(CutNext(next, prev, c), c), h, r);
    }
    if Backs(prev, r) {
      assert forall x :: x in r ==> x in prev by { assert forall i :: 0 <= i < |r| ==> r[i] in prev; }
      BacksFrame(prev, Forget(CutPrev(next, prev, c), c), r);
    }
  }

  /** All lists when an object of `rootgc` is cut out and freed. */
  lemma RootFreed(next: Links, prev: Links, s: State, root: Option<Ref>, hash: seq<Option<Ref>>, open: Option<Ref>, c: Ref)
    requires Linked(s) && c in s.rootgc
    requires Doubly(next, prev, root, s.rootgc) && Buckets(next, prev, hash, s.strt) && Chain(next, open, s.openupval)
    ensures c in next && c in prev && next[c] != Some(c)
    ensures var n, p := Forget(CutNext(next, prev, c), c), Forget(CutPrev(next, prev, c), c);
            && Doubly(n, p, CutHead(next, prev, root, c), Without(s.rootgc, c))
            && Buckets(n, p, hash, s.strt)
            && Chain(n, open, s.openupval)
  {
    CutAndFreed(next, prev, root, s.rootgc, c);
    assert forall x :: x in s.openupval ==> x !in s.rootgc;
    OtherFreed(next, prev, root, s.rootgc, c, open, s.openupval);
    assert forall b, x :: 0 <= b < |s.strt| && x in s.strt[b] ==> x !in s.rootgc;
    hide Linked, CutNext, CutPrev, CutHead;
    forall b | 0 <= b < |s.strt|
      ensures Doubly(Forget(CutNext(next, prev, c), c), Forget(CutPrev(next, prev, c), c), hash[b], s.strt[b])
    {
      OtherFreed(next, prev, root, s.rootgc, c, hash[b], s.strt[b]);
    }
  }

  /** The bucket of a string has nothing in common with the other lists. */
  lemma StringApart(s: State, c: Ref)
    requires Linked(s) && Shaped(s) && c in s.heap && s.heap[c].kind == TString
    ensures |s.strt| > 0
    ensures var b := Lmod(s.heap[c].hash, |s.strt|);
            && c in s.strt[b] && NoDup(s.strt[b])
            && (forall x :: x in s.rootgc ==> x !in s.strt[b])
            && (forall x :: x in s.openupval ==> x !in s.strt[b])
            && (forall a, x :: 0 <= a < |s.strt| && a != b && x in s.strt[a] ==> x !in s.strt[b])
  {
    hide Lmod;
  }

  /** All lists when a string is cut out and freed. */
  lemma StringFreed(next: Links, prev: Links, s: State, root: Option<Ref>, hash: seq<Option<Ref>>, open: Option<Ref>, c: Ref, b: nat)
    requires b < |s.strt| == |hash| && c in s.strt[b] && NoDup(s.strt[b])
    requires forall x :: x in s.rootgc ==> x !in s.strt[b]
    requires forall x :: x in s.openupval ==> x !in s.strt[b]
    requires forall a, x :: 0 <= a < |s.strt| && a != b && x in s.strt[a] ==> x !in s.strt[b]
    requires Doubly(next, prev, root, s.rootgc) && Buckets(next, prev, hash, s.strt) && Chain(next, open, s.openupval)
    ensures c in next && c in prev && next[c] != Some(c)
    ensures var n, p := Forget(CutNext(next, prev, c), c), Forget(CutPrev(next, prev, c), c);
            && Doubly(n, p, root, s.rootgc)
            && Buckets(n, p, hash[b := CutHead(next, prev, hash[b], c)], s.strt[b := Without(s.strt[b], c)])
            && Chain(n, open, s.openupval)
  {
    var q := s.strt[b];
    assert Doubly(next, prev, hash[b], q);
    CutAndFreed(next, prev, hash[b], q, c);
    OtherFreed(next, prev, hash[b], q, c, open, s.openupval);
    OtherFreed(next, prev, hash[b], q, c, root, s.rootgc);
    forall a | 0 <= a < |s.strt| && a != b
      ensures Doubly(Forget(CutNext(next, prev, c), c), Forget(CutPrev(next, prev, c), c), hash[a], s.strt[a])
    {
      OtherFreed(next, prev, hash[b], q, c, hash[a], s.strt[a]);
    }
    hide Forget, CutNext, CutPrev, CutHead, Chain, Backs, Without;
  }

  /** The gray lists when a gray object is cut out and freed. */
  lemma GrayCut(next: Links, prev: Links, s: State, gray: Option<Ref>, grayagain: Option<Ref>, c: Ref)
    requires GrayLists(s.heap, s.gray, s.grayagain) && c in s.heap && s.heap[c].color == Gray && s.heap[c].Traversable()
    requires Doubly(next, prev, gray, s.gray) && Doubly(next, prev, grayagain, s.grayagain)
    ensures c in next && c in prev && next[c] != Some(c)
    ensures prev[c].None? ==> gray == Some(c) || grayagain == Some(c)
    ensures Doubly(Forget(CutNext(next, prev, c), c), Forget(CutPrev(next, prev, c), c), CutGray(next, prev, gray, c), Without(s.gray, c))
    ensures Doubly(Forget(CutNext(next, prev, c), c), Forget(CutPrev(next, prev, c), c), CutGrayagain(next, prev, gray, grayagain, c), Without(s.grayagain, c))
  {
    if c in s.gray {
      var k := LinkAt(next, prev, gray, s.gray, c);
      CutAndFreed(next, prev, gray, s.gray, c);
      OtherFreed(next, prev, gray, s.gray, c, grayagain, s.grayagain);
    } else {
      var k := LinkAt(next, prev, grayagain, s.grayagain, c);
      CutAndFreed(next, prev, grayagain, s.grayagain, c);
      OtherFreed(next, prev, grayagain, s.grayagain, c, gray, s.gray);
      assert gray != Some(c);
    }
  }

  function CutGray(next: Links, prev: Links, gray: Option<Ref>, c: Ref): Option<Ref>
    requires c in next && c in prev
  {
    if prev[c].None? && gray == Some(c) then next[c] else gray
  }

  function CutGrayagain(next: Links, prev: Links, gray: Option<Ref>, grayagain: Option<Ref>, c: Ref): Option<Ref>
    requires c in next && c in prev
  {
    if prev[c].None? && gray != Some(c) then next[c] else grayagain
  }

  /** The gray lists when an object that is not gray is freed. */
  lemma GrayKept(next: Links, prev: Links, s: State, gray: Option<Ref>, grayagain: Option<Ref>, c: Ref)
    requires GrayLists(s.heap, s.gray, s.grayagain) && c in s.heap && !(s.heap[c].color == Gray && s.heap[c].Traversable())
    requires Doubly(next, prev, gray, s.gray) && Doubly(next, prev, grayagain, s.grayagain)
    ensures Doubly(Forget(next, c), Forget(prev, c), gray, s.gray) && Doubly(Forget(next, c), Forget(prev, c), grayagain, s.grayagain)
  {
    ShrinkLinks(next, prev, gray, s.gray, c);
    ShrinkLinks(next, prev, grayagain, s.grayagain, c);
  }

  lemma ListLinks(h: map<Ref, GCObject>, next: Links, prev: Links, head: Option<Ref>, q: seq<Ref>, c: Ref)
    requires LinksFor(h, next, prev) && Doubly(next, prev, head, q) && NoDup(q) && c in q
    ensures c in next && c in prev
    ensures LinksFor(Forget(h, c), Forget(CutNext(next, prev, c), c), Forget(CutPrev(next, prev, c), c))
  {
    var k := LinkAt(next, prev, head, q, c);
    assert (k > 0 ==> q[k - 1] in next) && (k + 1 < |q| ==> q[k + 1] in next);
    CutLinksFor(h, next, prev, c);
  }

  /** What the lists are after a string is freed, stated for the lists that
      Remove leaves. */
  lemma StringGone(heap: map<Ref, GCObject>, next: Links, prev: Links, s: State, root: Option<Ref>, hash: seq<Option<Ref>>, open: Option<Ref>, c: Ref)
    requires Linked(s) && Shaped(s) && c in s.heap && s.heap[c].kind == TString
    requires Doubly(next, prev, root, s.rootgc) && Buckets(next, prev, hash, s.strt) && Chain(next, open, s.openupval)
    requires LinksFor(heap, next, prev)
    ensures c in next && c in prev && next[c] != Some(c) && |s.strt| == |hash| > 0
    ensures !(s.heap[c].color == Gray && s.heap[c].Traversable())
    ensures var b := Lmod(s.heap[c].hash, |hash|);
            var n, p := Forget(CutNext(next, prev, c), c), Forget(CutPrev(next, prev, c), c);
            && Doubly(n, p, root, Remove(s, c).rootgc)
            && Buckets(n, p, hash[b := CutHead(next, prev, hash[b], c)], Remove(s, c).strt)
            && Chain(n, open, Remove(s, c).openupval)
            && LinksFor(Forget(heap, c), n, p)
    ensures Remove(s, c).gray == s.gray && Remove(s, c).grayagain == s.grayagain && Remove(s, c).sweepgc == s.sweepgc
    ensures Remove(s, c).rootgc == s.rootgc
  {
    StringApart(s, c);
    var b := Lmod(s.heap[c].hash, |hash|);
    StringFreed(next, prev, s, root, hash, open, c, b);
    ListLinks(heap, next, prev, hash[b], s.strt[b], c);
    hide Doubly, Buckets, Chain, CutNext, CutPrev, CutHead, LinksFor, Forget, Linked, Shaped, Lmod;
  }

  ghost predicate RemovedRest(s: State, t: State, c: Ref) {
    && t.heap == Forget(s.heap, c)
    && t.currentwhite == s.currentwhite && t.gcstate == s.gcstate && t.sweepstrgc == s.sweepstrgc
    && t.mainthread == s.mainthread && t.registry == s.registry && t.mt == s.mt
  }

  lemma RemovedKeeps(s: State, c: Ref)
    requires Linked(s) && c in s.heap
    ensures |s.strt| > 0 && RemovedRest(s, Remove(s, c), c)
  {
  }

  /** The same for an object of `rootgc`. */
  lemma RootGone(heap: map<Ref, GCObject>, next: Links, prev: Links, s: State, root: Option<Ref>, hash: seq<Option<Ref>>, open: Option<Ref>, c: Ref)
    requires Linked(s) && Shaped(s) && c in s.heap && s.heap[c].InRoot()
    requires Doubly(next, prev, root, s.rootgc) && Buckets(next, prev, hash, s.strt) && Chain(next, open, s.openupval)
    requires LinksFor(heap, next, prev)
    ensures c in next && c in prev && next[c] != Some(c) && |s.strt| > 0
    ensures var n, p := Forget(CutNext(next, prev, c), c), Forget(CutPrev(next, prev, c), c);
            && Doubly(n, p, CutHead(next, prev, root, c), Remove(s, c).rootgc)
            && Buckets(n, p, hash, Remove(s, c).strt)
            && Chain(n, open, Remove(s, c).openupval)
            && LinksFor(Forget(heap, c), n, p)
  {
    RootNoDup(s, c);
    RootFreed(next, prev, s, root, hash, open, c);
    ListLinks(heap, next, prev, root, s.rootgc, c);
    hide Doubly, Buckets, Chain, CutNext, CutPrev, CutHead, LinksFor, Forget, Linked, Shaped;
  }

  /** Where the cursor stands after MoveCursor. */
  lemma CursorGone(next: Links, prev: Links, s: State, root: Option<Ref>, cur: Cursor, c: Ref)
    requires Linked(s) && c in s.heap && s.heap[c].InRoot() && Doubly(next, prev, root, s.rootgc)
    requires s.gcstate == Sweep ==> s.sweepgc <= |s.rootgc| && Denotes(cur, s.rootgc, s.sweepgc)
    ensures c in prev && |s.strt| > 0 && c in CutPrev(next, prev, c) && CutPrev(next, prev, c)[c] == prev[c]
    ensures s.gcstate == Sweep ==>
              var t := Remove(s, c);
              var cur' := if cur == NextOf(c) then (if prev[c].Some? then NextOf(prev[c].value) else RootHead) else cur;
              t.sweepgc <= |t.rootgc| && Denotes(cur', t.rootgc, t.sweepgc)
  {
    hide Linked, Doubly, Denotes, NoDup, Without, IndexOf, CutPrev;
    RootNoDup(s, c);
    var k := LinkAt(next, prev, root, s.rootgc, c);
    if s.gcstate == Sweep {
      CursorCut(cur, s.rootgc, s.sweepgc, k);
      WithoutAt(s.rootgc, k);
    }
  }

  lemma GrayGone(h: map<Ref, GCObject>, next: Links, prev: Links, gray: Option<Ref>, grayagain: Option<Ref>, s: State, c: Ref)
    requires LinksFor(h, next, prev)
    requires GrayLists(s.heap, s.gray, s.grayagain) && c in s.heap && s.heap[c].color == Gray && s.heap[c].Traversable()
    requires Doubly(next, prev, gray, s.gray) && Doubly(next, prev, grayagain, s.grayagain)
    ensures c in next && c in prev && next[c] != Some(c)
    ensures prev[c].None? ==> gray == Some(c) || grayagain == Some(c)
    ensures var n, p := Forget(CutNext(next, prev, c), c), Forget(CutPrev(next, prev, c), c);
            && Doubly(n, p, CutGray(next, prev, gray, c), Without(s.gray, c))
            && Doubly(n, p, CutGrayagain(next, prev, gray, grayagain, c), Without(s.grayagain, c))
            && LinksFor(Forget(h, c), n, p)
  {
    GrayCut(next, prev, s, gray, grayagain, c);
    if c in s.gray {
      ListLinks(h, next, prev, gray, s.gray, c);
    } else {
      ListLinks(h, next, prev, grayagain, s.grayagain, c);
    }
  }

  lemma RootNoDup(s: State, c: Ref)
    requires Linked(s) && c in s.heap && s.heap[c].InRoot()
    ensures NoDup(s.rootgc) && c in s.rootgc && |s.strt| > 0
  {
  }

  ghost predicate GrayOk(s: State) {
    s.gcstate == Propagate ==> GrayLists(s.heap, s.gray, s.grayagain)
  }

  /** The first drop of a cascade, in the terms of SubRef: when the count does
      not run out, and when it does. */
  lemma DropKeeps(s: State, c: Ref, rest: seq<Option<Ref>>)
    requires Sound(s, [Some(c)] + rest) && GrayOk(s)
    requires c in s.heap && !(s.heap[c].ref - 1 <= 0 && s.heap[c].Releasable())
    ensures var s1 := Decrement(s, c);
            && GrayOk(s1) && |s1.heap| == |s.heap| && Sound(s1, rest)
            && Release(s, [Some(c)] + rest) == Release(s1, rest)
  {
    var work := [Some(c)] + rest;
    assert work[0] == Some(c) && work[1..] == rest;
    DecrementGray(s, c);
    DecrementShrinks(s, c);
    assert LiveIn(s.heap, s.currentwhite, work[0].value);
    hide Linked, Shaped, Closed, Counts, GrayOk, AllLive;
    DropSound(s, work);
    DropShrinks(s, work);
    assert Drop(s, work) == (Decrement(s, c), rest);
  }

  lemma DropFrees(s: State, c: Ref, rest: seq<Option<Ref>>)
    requires Sound(s, [Some(c)] + rest) && GrayOk(s)
    requires c in s.heap && s.heap[c].ref - 1 <= 0 && s.heap[c].Releasable()
    ensures var s1 := Decrement(s, c);
            && Linked(s1) && Shaped(s1) && |s1.strt| > 0 && GrayOk(s1)
            && GrayOk(Remove(s1, c)) && |Remove(s1, c).heap| < |s.heap|
            && Sound(Remove(s1, c), s.heap[c].slots + rest)
            && Release(s, [Some(c)] + rest) == Release(Remove(s1, c), s.heap[c].slots + rest)
  {
    var work := [Some(c)] + rest;
    assert work[0] == Some(c) && work[1..] == rest;
    DecrementGray(s, c);
    DecrementLinked(s, c);
    RemoveGray(Decrement(s, c), c);
    DecrementShrinks(s, c);
    assert LiveIn(s.heap, s.currentwhite, work[0].value);
    RemoveShrinks(Decrement(s, c), c);
    hide Linked, Shaped, Closed, Counts, GrayOk, AllLive, Remove;
    DropSound(s, work);
    DropShrinks(s, work);
    assert Drop(s, work) == (Remove(Decrement(s, c), c), s.heap[c].slots + rest);
  }

  lemma FirstLive(s: State, c: Ref, rest: seq<Option<Ref>>)
    requires Sound(s, [Some(c)] + rest)
    ensures c in s.heap
  {
    assert ([Some(c)] + rest)[0] == Some(c);
    assert LiveIn(s.heap, s.currentwhite, ([Some(c)] + rest)[0].value);
  }

  lemma DecrementGray(s: State, c: Ref)
    requires c in s.heap && GrayOk(s)
    ensures GrayOk(Decrement(s, c))
  {
  }

  lemma RemoveGray(s: State, c: Ref)
    requires c in s.heap && |s.strt| > 0 && GrayOk(s)
    ensures GrayOk(Remove(s, c))
  {
    if s.gcstate == Propagate {
      GrayWithout(s.heap, s.gray, s.grayagain, c);
    }
  }

  lemma SkipNone(s: State, rest: seq<Option<Ref>>)
    requires Sound(s, [None] + rest)
    ensures Sound(s, rest) && Release(s, [None] + rest) == Release(s, rest)
  {
    var work := [None] + rest;
    assert work[1..] == rest;
    SkipSound(s, work);
    hide Sound;
  }

  /** What the marking methods rely on. */
  ghost predicate MarkReady(s: State) {
    && s.gcstate == Propagate && Markable(s) && Shades(s.heap)
    && GrayLists(s.heap, s.gray, s.grayagain)
  }

  lemma SameKeys(h: map<Ref, GCObject>, g: map<Ref, GCObject>, next: Links, prev: Links)
    requires LinksFor(h, next, prev) && g.Keys == h.Keys
    ensures LinksFor(g, next, prev)
  {
  }

  lemma PushLists(h: map<Ref, GCObject>, next: Links, prev: Links, gray: Option<Ref>, grayagain: Option<Ref>, s: State, x: Ref)
    requires Doubly(next, prev, gray, s.gray) && Doubly(next, prev, grayagain, s.grayagain) && LinksFor(h, next, prev)
    requires MarkReady(s) && x in h && x in s.heap && s.heap[x].color.White?
    ensures var n := next[x := gray];
            var p := if gray.Some? then prev[x := None][gray.value := Some(x)] else prev[x := None];
            Doubly(n, p, Some(x), [x] + s.gray) && Doubly(n, p, grayagain, s.grayagain) && LinksFor(h, n, p)
  {
    assert x !in s.gray && x !in s.grayagain;
    PushChain(next, gray, s.gray, x);
    PushBacks(prev, s.gray, x);
    var n := next[x := gray];
    var p := if gray.Some? then prev[x := None][gray.value := Some(x)] else prev[x := None];
    assert gray.Some? ==> gray.value in s.gray;
    assert forall i :: 0 <= i < |s.grayagain| ==> s.grayagain[i] in next && s.grayagain[i] in prev;
    assert s.gray != [] ==> s.gray[0] in prev;
    KeepLinks(next, prev, n, p, grayagain, s.grayagain);
    assert n.Keys == next.Keys && p.Keys == prev.Keys;
  }

  lemma PaintReady(s: State, x: Ref)
    requires MarkReady(s) && x in s.heap && s.heap[x].color.White?
    ensures MarkReady(Paint(s, x)) && |Whites(Paint(s, x).heap)| < |Whites(s.heap)|
    ensures s.mainthread in s.heap && s.mainthread in Paint(s, x).heap
    ensures s.heap[x].level.Some? ==> s.heap[x].level.value < |s.heap[s.mainthread].slots|
    ensures Within(Paint(s, x).heap, Kids(s, x))
    ensures Mark(s, x) == MarkAll(Paint(s, x), Kids(s, x))
  {
    PaintDarker(s, x);
    PaintLists(s, x);
    KidsWithin(s, x);
  }

  lemma PaintView(s: State, x: Ref)
    requires x in s.heap
    ensures var o := s.heap[x];
            !o.Traversable() ==>
              Paint(s, x) == s.(heap := s.heap[x := o.(color := if o.kind == TString || o.level.Some? then Gray else Black)])
  {
  }

  lemma WithinTail(s: State, q: seq<Option<Ref>>)
    requires Markable(s) && q != [] && Within(s.heap, q)
    ensures Within(s.heap, q[1..]) && (q[0].Some? ==> q[0].value in s.heap)
    ensures q[0].Some? ==> Within(Mark(s, q[0].value).heap, q[1..]) && |Whites(Mark(s, q[0].value).heap)| <= |Whites(s.heap)|
    ensures MarkAll(s, q) == MarkAll(if q[0].Some? then Mark(s, q[0].value) else s, q[1..])
  {
  }

  lemma ReadyPhase(s: State)
    requires MarkReady(s)
    ensures s.gcstate == Propagate
  {
  }

  lemma SeparateKeys(h: map<Ref, GCObject>)
    ensures Separate(h).Keys == h.Keys
  {
  }

  lemma FirstGray(s: State, next: Links, prev: Links, gray: Option<Ref>)
    requires MarkReady(s) && Doubly(next, prev, gray, s.gray) && gray.Some?
    ensures s.gray != [] && s.gray[0] == gray.value && s.gray[0] in s.heap && s.gray[0] in next && s.gray[0] in prev
  {
    assert s.gray[0] in s.gray;
  }

  /** The gray list without its head. */
  lemma PickHead(h: map<Ref, GCObject>, next: Links, prev: Links, gray: Option<Ref>, grayagain: Option<Ref>, s: State, x: Ref)
    requires MarkReady(s) && Doubly(next, prev, gray, s.gray) && Doubly(next, prev, grayagain, s.grayagain)
    requires LinksFor(h, next, prev) && s.gray != [] && s.gray[0] == x
    ensures x in next && x in prev
    ensures var p := if next[x].Some? then prev[next[x].value := None] else prev;
            Doubly(next, p, next[x], s.gray[1..]) && Doubly(next, p, grayagain, s.grayagain) && LinksFor(h, next, p)
  {
    assert x in s.gray;
    UnlinkChain(next, gray, s.gray, 0);
    UnlinkBacks(prev, s.gray, 0);
    assert s.gray[..0] + s.gray[1..] == s.gray[1..];
    assert next[x] == After(s.gray, 0) && prev[x] == Before(s.gray, 0);
    var p := if next[x].Some? then prev[next[x].value := None] else prev;
    assert next[x].Some? ==> next[x].value in s.gray;
    assert forall i :: 0 <= i < |s.grayagain| ==> s.grayagain[i] in next && s.grayagain[i] in prev;
    KeepLinks(next, prev, next, p, grayagain, s.grayagain);
    assert p.Keys == prev.Keys by { assert next[x].Some? ==> s.gray[1] in prev; }
  }

  /** A thread that leaves the gray list goes to the front of `grayagain`. */
  lemma PushAgain(h: map<Ref, GCObject>, next: Links, prev: Links, gray: Option<Ref>, grayagain: Option<Ref>, p: seq<Ref>, q: seq<Ref>, x: Ref)
    requires NoDup(q) && x !in p && x !in q && x in h && forall y :: y in p ==> y !in q
    requires Doubly(next, prev, gray, p) && Doubly(next, prev, grayagain, q) && LinksFor(h, next, prev)
    ensures var n := next[x := grayagain];
            var b := if grayagain.Some? then prev[x := None][grayagain.value := Some(x)] else prev[x := None];
            Doubly(n, b, gray, p) && Doubly(n, b, Some(x), [x] + q) && LinksFor(h, n, b)
  {
    PushChain(next, grayagain, q, x);
    PushBacks(prev, q, x);
    var n := next[x := grayagain];
    var b := if grayagain.Some? then prev[x := None][grayagain.value := Some(x)] else prev[x := None];
    assert grayagain.Some? ==> grayagain.value in q && q[0] in prev;
    assert forall i :: 0 <= i < |p| ==> p[i] in next && p[i] in prev;
    KeepLinks(next, prev, n, b, gray, p);
    assert n.Keys == next.Keys && b.Keys == prev.Keys;
  }

  lemma PickApart(s: State)
    requires MarkReady(s) && s.gray != []
    ensures var x, p := s.gray[0], s.gray[1..];
            NoDup(s.grayagain) && x !in p && x !in s.grayagain && forall y :: y in p ==> y !in s.grayagain
  {
    assert s.gray[0] in s.gray;
    assert s.gray[0] !in s.gray[1..] by { assert forall i :: 0 < i < |s.gray| ==> s.gray[i] != s.gray[0]; }
  }

  lemma PickView(s: State)
    requires s.gray != [] && s.gray[0] in s.heap
    ensures var x := s.gray[0];
            Pick(s) == s.(heap := if s.heap[x].kind == TThread then s.heap else Tint(s.heap, x, Black),
                          gray := s.gray[1..],
                          grayagain := if s.heap[x].kind == TThread then [x] + s.grayagain else s.grayagain)
  {
  }

  lemma ReadyMarkable(s: State)
    requires MarkReady(s)
    ensures Markable(s)
  {
  }

  lemma PickedReady(s: State)
    requires MarkReady(s) && s.gray != [] && s.gray[0] in s.heap
    ensures !s.heap[s.gray[0]].color.White? && MarkReady(Pick(s)) && Within(Pick(s).heap, s.heap[s.gray[0]].slots)
    ensures s.gray[0] in Pick(s).heap && Pick(s).heap[s.gray[0]].slots == s.heap[s.gray[0]].slots
    ensures PropagateMark(s) == MarkAll(Pick(s), s.heap[s.gray[0]].slots)
  {
    assert s.gray[0] in s.gray;
    PickMarkable(s);
    PickLists(s);
  }

  ghost predicate Heads(head: Option<Ref>, q: seq<Ref>) {
    head == First(q)
  }

  lemma NoHeads()
    ensures Heads(None, [])
  {
  }

  lemma HeadFirst(next: Links, prev: Links, head: Option<Ref>, q: seq<Ref>)
    requires Doubly(next, prev, head, q)
    ensures Heads(head, q)
  {
  }

  lemma StringStays(s: State, c: Ref)
    requires c in s.heap && |s.strt| > 0 && s.heap[c].kind == TString
    ensures Remove(s, c).grayagain == s.grayagain
  {
  }

  /** In the mark phase the head of `grayagain` is there. */
  lemma HeadLinks(s: State, head: Option<Ref>)
    requires MarkReady(s) && Heads(head, s.grayagain)
    ensures head.Some? ==> HasGrayLinks(s.heap, head.value)
  {
    if s.grayagain != [] {
      assert s.grayagain[0] in s.grayagain;
    }
  }

  lemma HeadView(s: State, head: Option<Ref>)
    requires Heads(head, s.grayagain)
    ensures HeadThere(s) <==> (head.Some? ==> HasGrayLinks(s.heap, head.value))
  {
  }

  lemma BlackApart(s: State, o: Ref)
    requires GrayLists(s.heap, s.gray, s.grayagain) && o in s.heap && s.heap[o].color == Black
    ensures NoDup(s.grayagain) && o !in s.gray && o !in s.grayagain && forall y :: y in s.gray ==> y !in s.grayagain
  {
  }

  lemma ReadyBarrier(s: State)
    requires s.gcstate == Propagate ==> MarkReady(s)
    ensures (s.gcstate == Propagate ==> Markable(s)) && GrayOk(s)
  {
  }

  /** A store, in the order in which setobj does it: first the slot, then the
      count of the new value. */
  lemma StoreSteps(s: State, o: Ref, i: nat, v: Option<Ref>)
    requires o in s.heap && i < |s.heap[o].slots| && LiveOpt(s, v)
    ensures var h := s.heap[o := s.heap[o].(slots := s.heap[o].slots[i := v])];
            (v.Some? ==> v.value in h)
            && Write(s, o, i, v) == s.(heap := if v.Some? then h[v.value := h[v.value].(ref := h[v.value].ref + 1)] else h)
  {
    var h := s.heap[o := s.heap[o].(slots := s.heap[o].slots[i := v])];
    AddRefsFrame(h, [v]);
    assert forall x: Ref :: Count([v], x) == if v == Some(x) then 1 else 0;
    assert AddRefs(h, [v]) == if v.Some? then h[v.value := h[v.value].(ref := h[v.value].ref + 1)] else h;
  }

  /** What SetObj needs to know at each of its steps. */
  lemma SetReady(s: State, o: Ref, i: nat, v: Option<Ref>)
    requires Inv(s) && Reachable(s, o) && Live(s, o) && i < |s.heap[o].slots| && LiveOpt(s, v)
    ensures Sound(Write(s, o, i, v), [s.heap[o].slots[i]] + []) && GrayOk(Write(s, o, i, v))
    ensures Sound(s, []) && Sound(Write(s, o, i, v), [s.heap[o].slots[i]])
    ensures var t := Release(Write(s, o, i, v), [s.heap[o].slots[i]] + []);
            && Release(t, []) == t && Overwrite(s, o, i, v) == t
            && o in t.heap && (v.Some? ==> v.value in t.heap) && (t.gcstate == Propagate ==> MarkReady(t) && Markable(t))
            && Inv(SetSlot(s, o, i, v)) && SetSlot(s, o, i, v) == Barrier(t, o, v)
  {
    var q := [s.heap[o].slots[i]];
    assert q + [] == q;
    WriteSound(s, o, i, v);
    WriteGray(s, o, i, v);
    OverwriteKeeps(s, o, i, v);
    StoredReady(Overwrite(s, o, i, v), o, v);
    hide Inv, Sound, Stored, MarkReady, GrayOk, Write, Reachable, Barrier, Live, LiveOpt;
  }

  lemma WriteGray(s: State, o: Ref, i: nat, v: Option<Ref>)
    requires Inv(s) && o in s.heap && i < |s.heap[o].slots|
    ensures GrayOk(Write(s, o, i, v))
  {
    WriteFrame(s, o, i, v);
    assert forall x :: x in s.heap ==> Write(s, o, i, v).heap[x].Traversable() == s.heap[x].Traversable();
  }

  lemma StoredReady(s: State, o: Ref, v: Option<Ref>)
    requires Stored(s, o, v)
    ensures o in s.heap && (v.Some? ==> v.value in s.heap)
    ensures s.gcstate == Propagate ==> MarkReady(s) && Markable(s)
  {
    SoundMarkable(s);
  }

  // -------------------------------------------------------------- sweeping a list

  /** A list and its heap when the first j objects have been visited. */
  ghost function PartHeap(h: map<Ref, GCObject>, q: seq<Ref>, j: nat, w: bool): map<Ref, GCObject>
    requires j <= |q|
  {
    SweepHeap(h, q[..j], w)
  }

  ghost function PartList(h: map<Ref, GCObject>, q: seq<Ref>, j: nat, w: bool): seq<Ref>
    requires j <= |q| && forall x :: x in q ==> x in h
  {
    Kept(h, q[..j], w) + q[j..]
  }

  /** How many of the first j objects are kept: where the sweep stands. */
  ghost function PartAt(h: map<Ref, GCObject>, q: seq<Ref>, j: nat, w: bool): nat
    requires j <= |q| && forall x :: x in q ==> x in h
  {
    |Kept(h, q[..j], w)|
  }

  lemma {:induction false} KeptMore(h: map<Ref, GCObject>, q: seq<Ref>, x: Ref, w: bool)
    requires x in h && forall y :: y in q ==> y in h
    ensures forall y :: y in q + [x] ==> y in h
    ensures Kept(h, q + [x], w) == Kept(h, q, w) + (if Doomed(h[x], w) then [] else [x])
  {
    if q == [] {
      assert q + [x] == [x] && [x][1..] == [];
    } else {
      assert (q + [x])[0] == q[0] && (q + [x])[1..] == q[1..] + [x];
      KeptMore(h, q[1..], x, w);
    }
  }

  lemma SweepMore(h: map<Ref, GCObject>, q: seq<Ref>, x: Ref, w: bool)
    requires x in h && x !in q
    ensures x in SweepHeap(h, q, w) && SweepHeap(h, q, w)[x] == h[x]
    ensures SweepHeap(h, q + [x], w) ==
            if Doomed(h[x], w) then Forget(SweepHeap(h, q, w), x) else Tint(SweepHeap(h, q, w), x, White(w))
  {
  }

  lemma CutAt(a: seq<Ref>, x: Ref, b: seq<Ref>)
    ensures var r := a + ([x] + b);
            r[|a|] == x && r[..|a|] + r[|a| + 1..] == a + b && a + [x] + b == r
  {
    assert (a + ([x] + b))[..|a|] == a && (a + ([x] + b))[|a| + 1..] == b;
  }

  lemma NoDupConcat(a: seq<Ref>, b: seq<Ref>)
    requires NoDup(a) && NoDup(b) && forall x :: x in a ==> x !in b
    ensures NoDup(a + b)
  {
    forall i, j | 0 <= i < j < |a + b|
      ensures (a + b)[i] != (a + b)[j]
    {
      if i < |a| <= j {
        assert a[i] in a && b[j - |a|] in b;
      }
    }
  }

  /** One visit: the object is cut out of the list, or turns white. */
  lemma PartStep(h: map<Ref, GCObject>, q: seq<Ref>, j: nat, w: bool)
    requires j < |q| && NoDup(q) && forall x :: x in q ==> x in h
    ensures var x, g, r, k := q[j], PartHeap(h, q, j, w), PartList(h, q, j, w), PartAt(h, q, j, w);
            && k < |r| && r[k] == x && x in g && g[x] == h[x]
            && (if Doomed(h[x], w)
                then PartHeap(h, q, j + 1, w) == Forget(g, x) && PartList(h, q, j + 1, w) == r[..k] + r[k + 1..]
                     && PartAt(h, q, j + 1, w) == k
                else PartHeap(h, q, j + 1, w) == Tint(g, x, White(w)) && PartList(h, q, j + 1, w) == r
                     && PartAt(h, q, j + 1, w) == k + 1)
  {
    var x := q[j];
    assert q[..j + 1] == q[..j] + [x];
    assert x !in q[..j];
    KeptMore(h, q[..j], x, w);
    SweepMore(h, q[..j], x, w);
    assert q[j..] == [x] + q[j + 1..];
    hide Kept, SweepHeap, NoDup;
    CutAt(Kept(h, q[..j], w), x, q[j + 1..]);
    assert Kept(h, q[..j], w) + [] == Kept(h, q[..j], w);
  }

  lemma PartIsList(h: map<Ref, GCObject>, q: seq<Ref>, j: nat, w: bool)
    requires j <= |q| && NoDup(q) && forall x :: x in q ==> x in h
    ensures var r := PartList(h, q, j, w); NoDup(r) && PartAt(h, q, j, w) <= |r| && |r| - PartAt(h, q, j, w) == |q| - j
    ensures forall x :: x in PartList(h, q, j, w) ==> x in q && x in PartHeap(h, q, j, w)
  {
    var kept := Kept(h, q[..j], w);
    assert NoDup(q[..j]);
    assert forall x :: x in kept ==> x in q[..j];
    assert forall x :: x in q[j..] ==> x !in q[..j];
    NoDupConcat(kept, q[j..]);
  }

  lemma PartEnds(h: map<Ref, GCObject>, q: seq<Ref>, w: bool)
    requires forall x :: x in q ==> x in h
    ensures PartHeap(h, q, 0, w) == h && PartList(h, q, 0, w) == q && PartAt(h, q, 0, w) == 0
    ensures PartHeap(h, q, |q|, w) == SweepHeap(h, q, w) && PartList(h, q, |q|, w) == Kept(h, q, w)
  {
    assert q[..0] == [] && q[0..] == q && q[..|q|] == q && q[|q|..] == [];
  }

  /** The three writes that cut an object out from behind pred: what sweeplist
      does through its pointer to a link. */
  function EraseNext(next: Links, pred: Option<Ref>, n: Option<Ref>): Links {
    if pred.Some? then next[pred.value := n] else next
  }

  function ErasePrev(prev: Links, pred: Option<Ref>, n: Option<Ref>): Links {
    if n.Some? then prev[n.value := pred] else prev
  }

  /** The list swept, and a list that has nothing in common with it. */
  lemma EraseChain(next: Links, head: Option<Ref>, q: seq<Ref>, k: nat)
    requires Chain(next, head, q) && NoDup(q) && k < |q|
    ensures q[k] in next && next[q[k]] == After(q, k) && next[q[k]] != Some(q[k])
    ensures var pred := Before(q, k);
            Chain(Forget(EraseNext(next, pred, next[q[k]]), q[k]), if pred.Some? then head else next[q[k]], q[..k] + q[k + 1..])
  {
    UnlinkChain(next, head, q, k);
    var n := next[q[k]];
    var pred := Before(q, k);
    assert n != Some(q[k]);
    ChainFrame(EraseNext(next, pred, n), Forget(EraseNext(next, pred, n), q[k]), if pred.Some? then head else n, q[..k] + q[k + 1..]);
  }

  lemma EraseOther(next: Links, prev: Links, pred: Option<Ref>, n: Option<Ref>, c: Ref, q: seq<Ref>, head: Option<Ref>, r: seq<Ref>)
    requires c in q && (pred.Some? ==> pred.value in q) && (n.Some? ==> n.value in q)
    requires forall x :: x in r ==> x !in q
    ensures Chain(next, head, r) ==> Chain(Forget(EraseNext(next, pred, n), c), head, r)
    ensures Backs(prev, r) ==> Backs(Forget(ErasePrev(prev, pred, n), c), r)
  {
    if Chain(next, head, r) {
      assert forall i :: 0 <= i < |r| ==> r[i] in r;
      ChainFrame(next, Forget(EraseNext(next, pred, n), c), head, r);
    }
    if Backs(prev, r) {
      assert forall i :: 0 <= i < |r| ==> r[i] in r;
      BacksFrame(prev, Forget(ErasePrev(prev, pred, n), c), r);
    }
  }

  lemma EraseBacks(prev: Links, q: seq<Ref>, k: nat)
    requires Backs(prev, q) && NoDup(q) && k < |q|
    ensures Backs(Forget(ErasePrev(prev, Before(q, k), After(q, k)), q[k]), q[..k] + q[k + 1..])
  {
    UnlinkBacks(prev, q, k);
    var p := ErasePrev(prev, Before(q, k), After(q, k));
    BacksFrame(p, Forget(p, q[k]), q[..k] + q[k + 1..]);
  }

  lemma EraseLinksFor(h: map<Ref, GCObject>, next: Links, prev: Links, q: seq<Ref>, k: nat)
    requires LinksFor(h, next, prev) && k < |q| && forall x :: x in q ==> x in h
    ensures LinksFor(Forget(h, q[k]), Forget(EraseNext(next, Before(q, k), After(q, k)), q[k]), Forget(ErasePrev(prev, Before(q, k), After(q, k)), q[k]))
  {
    var n, p := EraseNext(next, Before(q, k), After(q, k)), ErasePrev(prev, Before(q, k), After(q, k));
    assert n.Keys == next.Keys && p.Keys == prev.Keys;
  }

  lemma EraseBuckets(next: Links, prev: Links, pred: Option<Ref>, n: Option<Ref>, c: Ref, q: seq<Ref>, hash: seq<Option<Ref>>, strt: seq<seq<Ref>>)
    requires c in q && (pred.Some? ==> pred.value in q) && (n.Some? ==> n.value in q)
    requires forall b, x :: 0 <= b < |strt| && x in strt[b] ==> x !in q
    requires Buckets(next, prev, hash, strt)
    ensures Buckets(Forget(EraseNext(next, pred, n), c), Forget(ErasePrev(prev, pred, n), c), hash, strt)
  {
    forall b | 0 <= b < |strt|
      ensures Doubly(Forget(EraseNext(next, pred, n), c), Forget(ErasePrev(prev, pred, n), c), hash[b], strt[b])
    {
      EraseOther(next, prev, pred, n, c, q, hash[b], strt[b]);
    }
  }

  /** A list whose objects are in no other list. */
  ghost predicate Apart(q: seq<Ref>, a: seq<Ref>, strt: seq<seq<Ref>>) {
    && (forall x :: x in q ==> x !in a)
    && (forall b, x :: 0 <= b < |strt| && x in strt[b] ==> x !in q)
  }

  lemma NoList(next: Links, prev: Links)
    ensures Doubly(next, prev, None, [])
  {
  }

  /** What is read through the pointer to the link behind pred. */
  lemma Behind(next: Links, head: Option<Ref>, q: seq<Ref>, k: nat)
    requires Chain(next, head, q) && k <= |q|
    ensures var pred := Before(q, k);
            && (pred.Some? ==> pred.value in next)
            && (if pred.Some? then next[pred.value] else head) == (if k < |q| then Some(q[k]) else None)
  {
    if k > 0 {
      assert next[q[k - 1]] == After(q, k - 1);
    }
  }

  // the open upvalues

  ghost function OpenPart(s: State, j: nat): State
    requires j <= |s.openupval| && forall x :: x in s.openupval ==> x in s.heap
  {
    s.(heap := PartHeap(s.heap, s.openupval, j, s.currentwhite), openupval := PartList(s.heap, s.openupval, j, s.currentwhite))
  }

  /** What holds of the open upvalues while they are swept. */
  ghost predicate OpenReady(s: State) {
    NoDup(s.openupval) && (forall x :: x in s.openupval ==> x in s.heap) && Apart(s.openupval, s.rootgc, s.strt)
  }

  lemma OpenPartReady(s: State, j: nat)
    requires OpenReady(s) && j <= |s.openupval|
    ensures OpenReady(OpenPart(s, j))
    ensures var k := PartAt(s.heap, s.openupval, j, s.currentwhite);
            k <= |OpenPart(s, j).openupval| && |OpenPart(s, j).openupval| - k == |s.openupval| - j
    ensures OpenPart(s, j).currentwhite == s.currentwhite
  {
    PartIsList(s.heap, s.openupval, j, s.currentwhite);
  }

  lemma OpenPartStep(s: State, j: nat)
    requires OpenReady(s) && j < |s.openupval|
    ensures var x, t, k := s.openupval[j], OpenPart(s, j), PartAt(s.heap, s.openupval, j, s.currentwhite);
            && k < |t.openupval| && t.openupval[k] == x && x in t.heap
            && (if Doomed(t.heap[x], s.currentwhite)
                then OpenPart(s, j + 1) == t.(heap := Forget(t.heap, x), openupval := t.openupval[..k] + t.openupval[k + 1..])
                     && PartAt(s.heap, s.openupval, j + 1, s.currentwhite) == k
                else OpenPart(s, j + 1) == t.(heap := t.heap[x := t.heap[x].(color := White(s.currentwhite))])
                     && PartAt(s.heap, s.openupval, j + 1, s.currentwhite) == k + 1)
  {
    PartStep(s.heap, s.openupval, j, s.currentwhite);
  }

  lemma OpenPartEnds(s: State)
    requires forall x :: x in s.openupval ==> x in s.heap
    ensures OpenPart(s, 0) == s && PartAt(s.heap, s.openupval, 0, s.currentwhite) == 0
    ensures OpenPart(s, |s.openupval|) == SweepOpen(s)
  {
    PartEnds(s.heap, s.openupval, s.currentwhite);
  }

  lemma LinkedOpen(s: State)
    requires Linked(s) && Shaped(s)
    ensures OpenReady(s)
  {
  }

  /** Everything about the links when an open upvalue is erased. */
  lemma OpenErased(s: State, next: Links, prev: Links, root: Option<Ref>, hash: seq<Option<Ref>>, open: Option<Ref>, k: nat)
    requires OpenReady(s) && k < |s.openupval|
    requires Doubly(next, prev, root, s.rootgc) && Buckets(next, prev, hash, s.strt) && Chain(next, open, s.openupval)
    requires LinksFor(s.heap, next, prev)
    ensures var q := s.openupval;
            var c, pred := q[k], Before(q, k);
            && c in next && next[c] == After(q, k) && c in s.heap
            && var n, p := Forget(EraseNext(next, pred, next[c]), c), Forget(ErasePrev(prev, pred, next[c]), c);
            && Doubly(n, p, root, s.rootgc) && Buckets(n, p, hash, s.strt)
            && Chain(n, if pred.Some? then open else next[c], q[..k] + q[k + 1..])
            && LinksFor(Forget(s.heap, c), n, p)
  {
    var q := s.openupval;
    assert q[k] in q;
    EraseChain(next, open, q, k);
    assert forall x :: x in s.rootgc ==> x !in q;
    EraseOther(next, prev, Before(q, k), After(q, k), q[k], q, root, s.rootgc);
    EraseBuckets(next, prev, Before(q, k), After(q, k), q[k], q, hash, s.strt);
    EraseLinksFor(s.heap, next, prev, q, k);
  }

  // a bucket of the string table

  ghost function BucketPart(s: State, b: nat, j: nat): State
    requires b < |s.strt| && j <= |s.strt[b]| && forall x :: x in s.strt[b] ==> x in s.heap
  {
    s.(heap := PartHeap(s.heap, s.strt[b], j, s.currentwhite), strt := s.strt[b := PartList(s.heap, s.strt[b], j, s.currentwhite)])
  }

  ghost predicate BucketReady(s: State, b: nat) {
    && b < |s.strt| && NoDup(s.strt[b])
    && (forall x :: x in s.strt[b] ==> x in s.heap && x !in s.rootgc && x !in s.openupval)
    && (forall a, x :: 0 <= a < |s.strt| && a != b && x in s.strt[a] ==> x !in s.strt[b])
  }

  lemma BucketPartReady(s: State, b: nat, j: nat)
    requires BucketReady(s, b) && j <= |s.strt[b]|
    ensures BucketReady(BucketPart(s, b, j), b)
    ensures var k := PartAt(s.heap, s.strt[b], j, s.currentwhite);
            k <= |BucketPart(s, b, j).strt[b]| && |BucketPart(s, b, j).strt[b]| - k == |s.strt[b]| - j
    ensures BucketPart(s, b, j).currentwhite == s.currentwhite
  {
    PartIsList(s.heap, s.strt[b], j, s.currentwhite);
  }

  lemma BucketPartStep(s: State, b: nat, j: nat)
    requires BucketReady(s, b) && j < |s.strt[b]|
    ensures var x, t, k := s.strt[b][j], BucketPart(s, b, j), PartAt(s.heap, s.strt[b], j, s.currentwhite);
            && k < |t.strt[b]| && t.strt[b][k] == x && x in t.heap
            && (if Doomed(t.heap[x], s.currentwhite)
                then BucketPart(s, b, j + 1) == t.(heap := Forget(t.heap, x), strt := t.strt[b := t.strt[b][..k] + t.strt[b][k + 1..]])
                     && PartAt(s.heap, s.strt[b], j + 1, s.currentwhite) == k
                else BucketPart(s, b, j + 1) == t.(heap := t.heap[x := t.heap[x].(color := White(s.currentwhite))])
                     && PartAt(s.heap, s.strt[b], j + 1, s.currentwhite) == k + 1)
  {
    PartStep(s.heap, s.strt[b], j, s.currentwhite);
  }

  lemma BucketPartEnds(s: State, b: nat)
    requires BucketReady(s, b)
    ensures BucketPart(s, b, 0) == s && PartAt(s.heap, s.strt[b], 0, s.currentwhite) == 0
    ensures BucketPart(s, b, |s.strt[b]|) ==
            s.(heap := SweepHeap(s.heap, s.strt[b], s.currentwhite), strt := s.strt[b := Kept(s.heap, s.strt[b], s.currentwhite)])
  {
    PartEnds(s.heap, s.strt[b], s.currentwhite);
  }

  lemma LinkedBucket(s: State, b: nat)
    requires Linked(s) && Shaped(s) && b < |s.strt|
    ensures BucketReady(s, b)
  {
    hide Lmod;
    forall a, x | 0 <= a < |s.strt| && a != b && x in s.strt[a]
      ensures x !in s.strt[b]
    {
      assert Lmod(s.heap[x].hash, |s.strt|) == a;
    }
  }

  /** And when a string is erased. */
  lemma StringErased(s: State, next: Links, prev: Links, root: Option<Ref>, hash: seq<Option<Ref>>, open: Option<Ref>, b: nat, k: nat)
    requires BucketReady(s, b) && k < |s.strt[b]|
    requires Doubly(next, prev, root, s.rootgc) && Buckets(next, prev, hash, s.strt) && Chain(next, open, s.openupval)
    requires LinksFor(s.heap, next, prev)
    ensures var q := s.strt[b];
            var c, pred := q[k], Before(q, k);
            && c in next && next[c] == After(q, k) && c in s.heap && b < |hash|
            && var n, p := Forget(EraseNext(next, pred, next[c]), c), Forget(ErasePrev(prev, pred, next[c]), c);
            && Doubly(n, p, root, s.rootgc) && Chain(n, open, s.openupval)
            && Buckets(n, p, if pred.Some? then hash else hash[b := next[c]], s.strt[b := q[..k] + q[k + 1..]])
            && LinksFor(Forget(s.heap, c), n, p)
  {
    var q := s.strt[b];
    var c, pred := q[k], Before(q, k);
    assert c in q && Doubly(next, prev, hash[b], q);
    EraseChain(next, hash[b], q, k);
    EraseBacks(prev, q, k);
    EraseOther(next, prev, pred, After(q, k), c, q, root, s.rootgc);
    EraseOther(next, prev, pred, After(q, k), c, q, open, s.openupval);
    EraseLinksFor(s.heap, next, prev, q, k);
    var n, p := Forget(EraseNext(next, pred, next[c]), c), Forget(ErasePrev(prev, pred, next[c]), c);
    forall a | 0 <= a < |s.strt| && a != b
      ensures Doubly(n, p, hash[a], s.strt[a])
    {
      EraseOther(next, prev, pred, After(q, k), c, q, hash[a], s.strt[a]);
    }
    hide Chain, Backs, Forget, EraseNext, ErasePrev, LinksFor;
  }

  lemma StringStepReady(s: State)
    requires Inv(s) && s.gcstate == Sweepstring
    ensures var b := s.sweepstrgc;
            && s.sweepgc == 0 && b < |s.strt| && BucketReady(s, b)
            && SweepString(s) == BucketPart(s, b, |s.strt[b]|).(sweepstrgc := b + 1, gcstate := if b + 1 >= |s.strt| then Sweep else Sweepstring)
            && |BucketPart(s, b, |s.strt[b]|).strt| == |s.strt| && BucketPart(s, b, |s.strt[b]|).sweepgc == 0
  {
    LinkedBucket(s, s.sweepstrgc);
    BucketPartEnds(s, s.sweepstrgc);
  }

  // the root list

  ghost predicate RootReady(s: State) {
    && s.sweepgc < |s.rootgc| && NoDup(s.rootgc)
    && (forall x :: x in s.rootgc ==> x in s.heap && x !in s.openupval)
    && (forall b, x :: 0 <= b < |s.strt| && x in s.strt[b] ==> x !in s.rootgc)
  }

  lemma LinkedRoot(s: State)
    requires Linked(s) && s.sweepgc < |s.rootgc|
    ensures RootReady(s)
  {
    assert forall x :: x in s.rootgc ==> s.heap[x].InRoot();
  }

  /** One visit of the root list, as erasing or as whitening. */
  lemma VisitView(s: State)
    requires s.sweepgc < |s.rootgc| && s.rootgc[s.sweepgc] in s.heap
    ensures var k, x := s.sweepgc, s.rootgc[s.sweepgc];
            SweepAt(s) == if Doomed(s.heap[x], s.currentwhite)
                          then s.(heap := Forget(s.heap, x), rootgc := s.rootgc[..k] + s.rootgc[k + 1..])
                          else s.(heap := s.heap[x := s.heap[x].(color := White(s.currentwhite))], sweepgc := k + 1)
  {
    var k, x, w := s.sweepgc, s.rootgc[s.sweepgc], s.currentwhite;
    assert [] + [x] == [x];
    SweepMore(s.heap, [], x, w);
    assert SweepHeap(s.heap, [], w) == s.heap;
    KeptMore(s.heap, [], x, w);
    assert s.rootgc == s.rootgc[..k] + [x] + s.rootgc[k + 1..];
  }

  lemma OpenThenRoot(s: State)
    requires Linked(s) && Shaped(s) && s.sweepgc < |s.rootgc|
    ensures forall x :: x in s.openupval ==> x in s.heap
    ensures Linked(SweepOpen(s)) && RootReady(SweepOpen(s)) && s.rootgc[s.sweepgc] in SweepOpen(s).heap
  {
    SweepOpenLists(s);
    LinkedRoot(SweepOpen(s));
    assert s.rootgc[s.sweepgc] in SweepOpen(s).rootgc;
  }

  /** The cursor names the link behind which the object at position k hangs. */
  lemma CursorBehind(cur: Cursor, q: seq<Ref>, k: nat)
    requires Denotes(cur, q, k) && k <= |q|
    ensures Before(q, k) == if cur == RootHead then None else Some(cur.o)
  {
  }

  /** And when an object of `rootgc` is erased. */
  lemma RootErased(s: State, next: Links, prev: Links, root: Option<Ref>, hash: seq<Option<Ref>>, open: Option<Ref>)
    requires RootReady(s)
    requires Doubly(next, prev, root, s.rootgc) && Buckets(next, prev, hash, s.strt) && Chain(next, open, s.openupval)
    requires LinksFor(s.heap, next, prev)
    ensures var q, k := s.rootgc, s.sweepgc;
            var c, pred := q[k], Before(q, k);
            && c in next && next[c] == After(q, k) && c in s.heap
            && var n, p := Forget(EraseNext(next, pred, next[c]), c), Forget(ErasePrev(prev, pred, next[c]), c);
            && Doubly(n, p, if pred.Some? then root else next[c], q[..k] + q[k + 1..])
            && Buckets(n, p, hash, s.strt) && Chain(n, open, s.openupval) && LinksFor(Forget(s.heap, c), n, p)
  {
    var q, k := s.rootgc, s.sweepgc;
    assert q[k] in q;
    EraseChain(next, root, q, k);
    EraseBacks(prev, q, k);
    assert forall x :: x in s.openupval ==> x !in q;
    EraseOther(next, prev, Before(q, k), After(q, k), q[k], q, open, s.openupval);
    EraseBuckets(next, prev, Before(q, k), After(q, k), q[k], q, hash, s.strt);
    EraseLinksFor(s.heap, next, prev, q, k);
  }

  /** A cursor before position k still stands there when the object at k goes. */
  lemma CursorStays(cur: Cursor, q: seq<Ref>, k: nat)
    requires Denotes(cur, q, k) && k < |q|
    ensures Denotes(cur, q[..k] + q[k + 1..], k) && k <= |q[..k] + q[k + 1..]|
  {
  }

  lemma VisitReady(s: State)
    requires Sweeping(s) && s.sweepgc < |s.rootgc|
    ensures Linked(s) && Shaped(s) && RootReady(s) && s.rootgc[s.sweepgc] in s.heap
  {
    LinkedRoot(s);
    assert s.rootgc[s.sweepgc] in s.rootgc;
  }

  lemma SweepListStep(s: State, n: nat)
    requires Sweeping(s) && n > 0 && s.sweepgc < |s.rootgc|
    ensures Linked(s) && Sweeping(SweepOne(s)) && SweepList(s, n) == SweepList(SweepOne(s), n - 1)
  {
    SweepOneKeeps(s);
    hide SweepOne;
  }

  lemma SweepListEnd(s: State, n: nat)
    requires Sweeping(s) && (n == 0 || s.sweepgc >= |s.rootgc|)
    ensures SweepList(s, n) == s
  {
  }

  lemma SweepStepReady(s: State)
    requires Inv(s) && s.gcstate == Sweep
    ensures Sweeping(s)
    ensures var t := SweepList(s, SWEEP_MAX);
            SweepStep(s) == if t.sweepgc == |t.rootgc| then t.(gcstate := Finalize) else t
  {
  }

  // -------------------------------------------------------------- whole steps

  /** What MarkRoots needs to know. */
  lemma RootsReady(s: State)
    requires Inv(s) && s.gcstate == Pause
    ensures var s0 := s.(gray := [], grayagain := [], gcstate := Propagate);
            && MarkReady(s0) && Markable(s0) && s0.mainthread in s0.heap && Within(s0.heap, RootValues(s0))
            && MarkRoot(s) == MarkAll(s0, RootValues(s0))
  {
    MarkRootReady(s);
  }

  lemma InvPhase(s: State)
    requires MarkInv(s)
    ensures s.gcstate == Propagate
  {
  }

  lemma InvReady(s: State)
    requires MarkInv(s)
    ensures MarkReady(s) && s.mainthread in s.heap && Within(s.heap, s.mt)
    ensures forall x :: x in s.heap && s.heap[x].level.Some? ==> s.heap[x].level.value < |s.heap[s.mainthread].slots|
  {
    MarkInvMarkable(s);
  }

  lemma PropagateAllStep(s: State)
    requires MarkInv(s) && s.gray != []
    ensures Markable(s) && s.gray[0] in s.heap && !s.heap[s.gray[0]].color.White?
    ensures MarkInv(PropagateMark(s)) && PropagateAll(s) == PropagateAll(PropagateMark(s))
    ensures |Whites(PropagateMark(s).heap)| + |PropagateMark(s).gray| < |Whites(s.heap)| + |s.gray|
  {
    PropagateMarkInv(s);
  }

  lemma PropagateAllEnd(s: State)
    requires MarkInv(s) && s.gray == []
    ensures PropagateAll(s) == s
  {
  }

  /** One step of remarkupvals: the value of a marked open upvalue is marked. */
  lemma RemarkGray(s: State, q: seq<Ref>)
    requires MarkInv(s) && q != [] && OpenIn(s.heap, q) && s.heap[q[0]].color == Gray
    ensures Markable(s) && s.mainthread in s.heap && s.heap[q[0]].level.value < |s.heap[s.mainthread].slots|
    ensures var kid := [s.heap[s.mainthread].slots[s.heap[q[0]].level.value]];
            && Within(s.heap, kid) && MarkInv(MarkAll(s, kid)) && OpenIn(MarkAll(s, kid).heap, q[1..])
            && RemarkUpvals(s, q) == RemarkUpvals(MarkAll(s, kid), q[1..])
            && MarkAll(s, kid).openupval == s.openupval
  {
    hide MarkInv, Markable, Within, OpenIn;
    RemarkReady(s, q);
    assert Kids(s, q[0]) == [s.heap[s.mainthread].slots[s.heap[q[0]].level.value]];
  }

  lemma RemarkOther(s: State, q: seq<Ref>)
    requires MarkInv(s) && q != [] && OpenIn(s.heap, q) && s.heap[q[0]].color != Gray
    ensures OpenIn(s.heap, q[1..]) && RemarkUpvals(s, q) == RemarkUpvals(s, q[1..])
  {
  }

  lemma FirstIn(s: State, q: seq<Ref>)
    requires OpenIn(s.heap, q) && q != []
    ensures q[0] in s.heap && s.heap[q[0]].level.Some?
  {
  }

  lemma RemarkEnd(s: State)
    requires MarkInv(s)
    ensures RemarkUpvals(s, []) == s
  {
  }

  /** The marking part of the atomic step, one step after the other. */
  lemma MarkSteps(s: State, running: Ref)
    requires MarkInv(s) && running in s.heap
    ensures OpenIn(s.heap, s.openupval)
    ensures var u := RemarkUpvals(s, s.openupval);
            var s1 := PropagateAll(u);
            && MarkInv(u) && MarkInv(s1) && Markable(s1) && Within(s1.heap, [Some(running)] + s1.mt)
            && var v := MarkAll(s1, [Some(running)] + s1.mt);
            && MarkInv(v)
            && var s2 := PropagateAll(v);
            && MarkInv(s2) && s2.gcstate == Propagate
            && var w := s2.(gray := s2.grayagain, grayagain := []);
            && MarkInv(w) && PropagateAll(w) == MarkAtomic(s, running)
  {
    OpenLevels(s);
    var s1 := RemarkOpen(s);
    assert running in s1.heap;
    MarkInvMarkable(s1);
    RootsWithin(s1, running);
    MarkAllInv(s1, [Some(running)] + s1.mt);
    var s2 := RemarkRoots(s1, running);
    InvPhase(s2);
    Regray(s2);
  }

  // ---------------------------------------------------------------- new objects

  lemma AddRefsMore(h: map<Ref, GCObject>, q: seq<Option<Ref>>, v: Option<Ref>)
    requires v.Some? ==> v.value in h
    ensures var g := AddRefs(h, q);
            && (v.Some? ==> v.value in g)
            && AddRefs(h, q + [v]) == if v.Some? then g[v.value := g[v.value].(ref := g[v.value].ref + 1)] else g
  {
    AddRefsFrame(h, q);
    AddRefsFrame(h, q + [v]);
    forall x: Ref
      ensures Count(q + [v], x) == Count(q, x) + if v == Some(x) then 1 else 0
    {
      CountConcat(q, [v], x);
    }
  }

  lemma AddRefsNone(h: map<Ref, GCObject>)
    ensures AddRefs(h, []) == h
  {
    AddRefsFrame(h, []);
  }

  /** Where a new object enters `rootgc`. */
  function Place(s: State, kind: Kind): nat
    requires kind == TUserdata ==> s.mainthread in s.rootgc
  {
    if kind == TUserdata then IndexOf(s.rootgc, s.mainthread) + 1 else 0
  }

  lemma LinkView(s: State, id: Ref, kind: Kind, slots: seq<Option<Ref>>)
    requires kind == TUserdata ==> s.mainthread in s.rootgc
    ensures var s1 := s.(heap := AddRefs(s.heap, slots));
            var j := Place(s, kind);
            Link(s, id, kind, slots) == s1.(heap := s1.heap[id := Fresh(s.currentwhite, kind, slots, None, 0)],
                                            rootgc := Insert(s.rootgc, j, id),
                                            sweepgc := if j < s.sweepgc then s.sweepgc + 1 else s.sweepgc)
  {
  }

  /** The links behind which a new object is hooked in: behind pred, or at the
      head. */
  function HookNext(next: Links, head: Option<Ref>, pred: Option<Ref>, id: Ref): Links
    requires pred.Some? ==> pred.value in next
  {
    if pred.Some? then next[id := next[pred.value]][pred.value := Some(id)] else next[id := head]
  }

  function HookPrev(prev: Links, succ: Option<Ref>, pred: Option<Ref>, id: Ref): Links {
    if succ.Some? then prev[id := pred][succ.value := Some(id)] else prev[id := pred]
  }

  lemma HookedHead(next: Links, prev: Links, head: Option<Ref>, q: seq<Ref>, id: Ref)
    requires Doubly(next, prev, head, q) && NoDup(q) && id !in q
    ensures Doubly(HookNext(next, head, None, id), HookPrev(prev, head, None, id), Some(id), Insert(q, 0, id))
  {
    PushChain(next, head, q, id);
    PushBacks(prev, q, id);
    hide Chain, Backs;
    assert Insert(q, 0, id) == [id] + q;
  }

  lemma HookedBehind(next: Links, prev: Links, head: Option<Ref>, q: seq<Ref>, j: nat, id: Ref)
    requires Doubly(next, prev, head, q) && NoDup(q) && id !in q && 0 < j <= |q|
    ensures q[j - 1] in next && next[q[j - 1]] == After(q, j - 1)
    ensures var pred := Some(q[j - 1]);
            Doubly(HookNext(next, head, pred, id), HookPrev(prev, After(q, j - 1), pred, id), head, Insert(q, j, id))
  {
    hide Chain, Backs, NoDup;
    ChainAt(next, head, q, j - 1);
    InsertChain(next, head, q, j - 1, id);
    InsertBacks(prev, q, j - 1, id);
  }

  lemma ChainAt(next: Links, head: Option<Ref>, q: seq<Ref>, k: nat)
    requires Chain(next, head, q)
    ensures head == First(q) && (k < |q| ==> q[k] in next && next[q[k]] == After(q, k))
  {
  }

  lemma Hooked(next: Links, prev: Links, head: Option<Ref>, q: seq<Ref>, j: nat, id: Ref)
    requires Doubly(next, prev, head, q) && NoDup(q) && id !in q && j <= |q|
    ensures var pred := Before(q, j);
            && (pred.Some? ==> pred.value in next)
            && var succ := if pred.Some? then next[pred.value] else head;
            Doubly(HookNext(next, head, pred, id), HookPrev(prev, succ, pred, id), if pred.Some? then head else Some(id), Insert(q, j, id))
  {
    hide Doubly, NoDup, HookNext, HookPrev;
    if j == 0 {
      HookedHead(next, prev, head, q, id);
    } else {
      HookedBehind(next, prev, head, q, j, id);
    }
  }

  lemma HookOther(next: Links, prev: Links, head: Option<Ref>, q: seq<Ref>, j: nat, id: Ref, h: Option<Ref>, r: seq<Ref>)
    requires Doubly(next, prev, head, q) && j <= |q| && id !in r && forall x :: x in r ==> x !in q
    ensures var pred := Before(q, j);
            && (pred.Some? ==> pred.value in next)
            && var succ := if pred.Some? then next[pred.value] else head;
            && (Chain(next, h, r) ==> Chain(HookNext(next, head, pred, id), h, r))
            && (Backs(prev, r) ==> Backs(HookPrev(prev, succ, pred, id), r))
  {
    var pred := Before(q, j);
    assert j > 0 ==> q[j - 1] in next && next[q[j - 1]] == After(q, j - 1);
    var succ := if pred.Some? then next[pred.value] else head;
    assert succ.Some? ==> succ.value in q;
    if Chain(next, h, r) {
      assert forall i :: 0 <= i < |r| ==> r[i] in r;
      ChainFrame(next, HookNext(next, head, pred, id), h, r);
    }
    if Backs(prev, r) {
      assert forall i :: 0 <= i < |r| ==> r[i] in r;
      BacksFrame(prev, HookPrev(prev, succ, pred, id), r);
    }
  }

  lemma HookLinksFor(h: map<Ref, GCObject>, next: Links, prev: Links, head: Option<Ref>, q: seq<Ref>, j: nat, id: Ref, o: GCObject)
    requires LinksFor(h, next, prev) && Doubly(next, prev, head, q) && j <= |q|
    ensures var pred := Before(q, j);
            && (pred.Some? ==> pred.value in next)
            && var succ := if pred.Some? then next[pred.value] else head;
            LinksFor(h[id := o], HookNext(next, head, pred, id), HookPrev(prev, succ, pred, id))
  {
    var pred := Before(q, j);
    assert j > 0 ==> q[j - 1] in next && next[q[j - 1]] == After(q, j - 1);
    var succ := if pred.Some? then next[pred.value] else head;
    assert succ.Some? ==> succ.value in q && succ.value in prev;
    assert HookNext(next, head, pred, id).Keys == next.Keys + {id};
    assert HookPrev(prev, succ, pred, id).Keys == prev.Keys + {id};
  }

  /** All lists when a new object enters `rootgc` at position j. */
  lemma RootHooked(s: State, next: Links, prev: Links, root: Option<Ref>, hash: seq<Option<Ref>>, open: Option<Ref>, j: nat, id: Ref, o: GCObject)
    requires Linked(s) && Shaped(s) && id !in s.heap && j <= |s.rootgc|
    requires Doubly(next, prev, root, s.rootgc) && Buckets(next, prev, hash, s.strt) && Chain(next, open, s.openupval)
    requires LinksFor(s.heap, next, prev)
    ensures var pred := Before(s.rootgc, j);
            && (pred.Some? ==> pred.value in next)
            && var succ := if pred.Some? then next[pred.value] else root;
            var n, p := HookNext(next, root, pred, id), HookPrev(prev, succ, pred, id);
            && Doubly(n, p, if pred.Some? then root else Some(id), Insert(s.rootgc, j, id))
            && Buckets(n, p, hash, s.strt) && Chain(n, open, s.openupval) && LinksFor(s.heap[id := o], n, p)
  {
    hide Lmod;
    Hooked(next, prev, root, s.rootgc, j, id);
    HookLinksFor(s.heap, next, prev, root, s.rootgc, j, id, o);
    assert forall x :: x in s.openupval ==> x !in s.rootgc;
    HookOther(next, prev, root, s.rootgc, j, id, open, s.openupval);
    assert forall b, x :: 0 <= b < |s.strt| && x in s.strt[b] ==> x !in s.rootgc && x != id;
    hide Linked, Shaped, HookNext, HookPrev;
    forall b | 0 <= b < |s.strt|
      ensures var pred := Before(s.rootgc, j);
              var succ := if pred.Some? then next[pred.value] else root;
              Doubly(HookNext(next, root, pred, id), HookPrev(prev, succ, pred, id), hash[b], s.strt[b])
    {
      HookOther(next, prev, root, s.rootgc, j, id, hash[b], s.strt[b]);
    }
  }

  lemma CursorHooked(cur: Cursor, q: seq<Ref>, k: nat, j: nat, id: Ref)
    requires Denotes(cur, q, k) && k <= |q| && j <= |q|
    ensures var k' := if j < k then k + 1 else k;
            k' <= |Insert(q, j, id)| && Denotes(cur, Insert(q, j, id), k')
  {
  }

  lemma PlaceAt(s: State, kind: Kind)
    requires Linked(s) && Shaped(s)
    ensures s.mainthread in s.rootgc && Place(s, kind) <= |s.rootgc|
    ensures Before(s.rootgc, Place(s, kind)) == if kind == TUserdata then Some(s.mainthread) else None
  {
  }

  /** The gray links of the other objects when an object comes that has none. */
  lemma GrayHooked(h: map<Ref, GCObject>, next: Links, prev: Links, id: Ref, o: GCObject, head: Option<Ref>, q: seq<Ref>)
    requires Doubly(next, prev, head, q) && id !in next
    ensures Doubly(next[id := None], prev[id := None], head, q)
  {
    assert forall i :: 0 <= i < |q| ==> q[i] in next;
    KeepLinks(next, prev, next[id := None], prev[id := None], head, q);
  }

  lemma NewLinksFor(h: map<Ref, GCObject>, next: Links, prev: Links, id: Ref, o: GCObject)
    requires LinksFor(h, next, prev)
    ensures LinksFor(h[id := o], next[id := None], prev[id := None]) && (id in h <==> id in next)
  {
  }

  lemma RefsAdded(s: State, slots: seq<Option<Ref>>)
    requires Linked(s) && Shaped(s)
    ensures var t := s.(heap := AddRefs(s.heap, slots)); Linked(t) && Shaped(t) && t.heap.Keys == s.heap.Keys
  {
    AddRefsFrame(s.heap, slots);
    SameLists(s.heap, AddRefs(s.heap, slots), s.rootgc, s.openupval, s.strt, s.mainthread);
  }

  lemma LiveWithin(s: State, q: seq<Option<Ref>>)
    requires AllLive(s.heap, s.currentwhite, q)
    ensures Within(s.heap, q)
  {
  }
}
