/** The sweep phase: strings bucket by bucket, then `rootgc` in bounded steps
    from the cursor on (src/lgc.c:500-528, src/lgc.c:738-772). */
module GcSweep {
  import opened Bits
  import opened Seqs
  import opened GcState
  import opened GcRelease

  /** GCSWEEPMAX: how many objects one step visits. */
  const SWEEP_MAX := 40

  /** What sweeping erases: the white of the last cycle, unless fixed. */
  predicate Doomed(o: GCObject, w: bool) {
    IsDead(o, w) && !o.fixed
  }

  /** The objects of q: erased when doomed, otherwise white again. */
  function SweepHeap(h: map<Ref, GCObject>, q: seq<Ref>, w: bool): map<Ref, GCObject> {
    map x | x in h && !(x in q && Doomed(h[x], w)) ::
      if x in q then h[x].(color := White(w)) else h[x]
  }

  function Kept(h: map<Ref, GCObject>, q: seq<Ref>, w: bool): (r: seq<Ref>)
    requires forall x :: x in q ==> x in h
    ensures forall x :: x in r <==> x in q && !Doomed(h[x], w)
    ensures NoDup(q) ==> NoDup(r)
    ensures |r| <= |q|
  {
    if q == [] then []
    else
      assert NoDup(q) ==> NoDup(q[1..]) && q[0] !in q[1..];
      if Doomed(h[q[0]], w) then Kept(h, q[1..], w) else [q[0]] + Kept(h, q[1..], w)
  }

  /** sweepwholelist on the next bucket of the string table. */
  function SweepString(s: State): State
    requires Inv(s) && s.gcstate == Sweepstring
  {
    var b := s.sweepstrgc;
    s.(
      heap := SweepHeap(s.heap, s.strt[b], s.currentwhite),
      strt := s.strt[b := Kept(s.heap, s.strt[b], s.currentwhite)],
      sweepstrgc := b + 1,
      gcstate := if b + 1 >= |s.strt| then Sweep else Sweepstring)
  }

  /** The open upvalues, when the sweep comes to the thread that has them. */
  function SweepOpen(s: State): State
    requires forall x :: x in s.openupval ==> x in s.heap
  {
    s.(
      heap := SweepHeap(s.heap, s.openupval, s.currentwhite),
      openupval := Kept(s.heap, s.openupval, s.currentwhite))
  }

  /** The object at the cursor. */
  function SweepAt(s: State): State
    requires s.sweepgc < |s.rootgc| && s.rootgc[s.sweepgc] in s.heap
  {
    var k, x := s.sweepgc, s.rootgc[s.sweepgc];
    var kept := Kept(s.heap, [x], s.currentwhite);
    s.(
      heap := SweepHeap(s.heap, [x], s.currentwhite),
      rootgc := s.rootgc[..k] + kept + s.rootgc[k + 1..],
      sweepgc := k + |kept|)
  }

  function SweepOne(s: State): State
    requires Linked(s) && s.sweepgc < |s.rootgc|
  {
    if s.rootgc[s.sweepgc] == s.mainthread then
      var t := SweepOpen(s);
      assert s.rootgc[s.sweepgc] in s.rootgc;
      SweepAt(t)
    else
      assert s.rootgc[s.sweepgc] in s.rootgc;
      SweepAt(s)
  }

  /** What every visit keeps. */
  ghost predicate Sweeping(s: State) {
    && Sound(s, [])
    && Shades(s.heap)
    && StringsSwept(s.heap, s.strt, |s.strt|, s.currentwhite)
    && RootSwept(s.heap, s.rootgc, s.openupval, s.sweepgc, s.mainthread, s.currentwhite)
  }

  // -------------------------------------------------------- one list, one heap

  lemma SweepKeepsLive(h: map<Ref, GCObject>, q: seq<Ref>, w: bool, x: Ref)
    requires LiveIn(h, w, x)
    ensures LiveIn(SweepHeap(h, q, w), w, x)
  {
  }

  lemma SweepClosed(h: map<Ref, GCObject>, q: seq<Ref>, w: bool, m: Ref)
    requires ClosedIn(h, w) && ShapedIn(h, m) && LiveIn(h, w, m)
    ensures ClosedIn(SweepHeap(h, q, w), w) && ShapedIn(SweepHeap(h, q, w), m)
  {
    var g := SweepHeap(h, q, w);
    forall x, i | LiveIn(g, w, x) && 0 <= i < |g[x].slots| && g[x].slots[i].Some?
      ensures LiveIn(g, w, g[x].slots[i].value)
    {
      assert h[x].slots == g[x].slots;
      assert !h[x].fixed || x == m;
      assert LiveIn(h, w, x);
      SweepKeepsLive(h, q, w, h[x].slots[i].value);
    }
  }

  lemma SweepAllLive(h: map<Ref, GCObject>, q: seq<Ref>, w: bool, r: seq<Option<Ref>>)
    requires AllLive(h, w, r)
    ensures AllLive(SweepHeap(h, q, w), w, r)
  {
    forall i | 0 <= i < |r| && r[i].Some?
      ensures LiveIn(SweepHeap(h, q, w), w, r[i].value)
    {
      SweepKeepsLive(h, q, w, r[i].value);
    }
  }

  /** A visited object holds no more than before: erased objects were dead, and
      a fixed one that comes back to life has no slots. */
  lemma SweepHeld(h: map<Ref, GCObject>, q: seq<Ref>, w: bool, m: Ref, y: Ref, x: Ref)
    requires ShapedIn(h, m) && LiveIn(h, w, m) && y in SweepHeap(h, q, w)
    ensures Held(SweepHeap(h, q, w)[y], w, x) == Held(h[y], w, x)
  {
  }

  lemma SweepHeldIn(h: map<Ref, GCObject>, q: seq<Ref>, w: bool, m: Ref, root: seq<Ref>, x: Ref)
    requires ShapedIn(h, m) && LiveIn(h, w, m)
    requires forall y :: y in root ==> y in SweepHeap(h, q, w)
    ensures HeldIn(SweepHeap(h, q, w), w, root, x) == HeldIn(h, w, root, x)
  {
    var g := SweepHeap(h, q, w);
    forall y | y in root
      ensures Held(h[y], w, x) == Held(g[y], w, x)
    {
      SweepHeld(h, q, w, m, y, x);
    }
    HeldInSame(h, g, w, w, root, x);
  }

  lemma SweepShades(h: map<Ref, GCObject>, q: seq<Ref>, w: bool)
    requires Shades(h)
    ensures Shades(SweepHeap(h, q, w))
  {
  }

  lemma SweepStringsSwept(h: map<Ref, GCObject>, q: seq<Ref>, w: bool, strt: seq<seq<Ref>>, n: nat)
    requires StringsSwept(h, strt, n, w)
    ensures StringsSwept(SweepHeap(h, q, w), strt, n, w)
  {
  }

  // ------------------------------------------------------------------- strings

  lemma SweepStringLists(s: State)
    requires Linked(s) && Shaped(s) && s.sweepstrgc < |s.strt|
    ensures forall x :: x in s.strt[s.sweepstrgc] ==> x in s.heap
    ensures var q := s.strt[s.sweepstrgc];
            var g := SweepHeap(s.heap, q, s.currentwhite);
            RootListed(g, s.rootgc) && OpenListed(g, s.openupval) &&
            StringsListed(g, s.strt[s.sweepstrgc := Kept(s.heap, q, s.currentwhite)])
  {
    var q := s.strt[s.sweepstrgc];
    assert forall x :: x in q ==> x in s.heap && s.heap[x].kind == TString;
    assert forall x :: x in q ==> s.heap[x].level.None? by { assert forall x :: x in q ==> x in s.heap; }
    hide RootListed, OpenListed, StringsListed, Kept, SweepHeap, ShapedIn;
    SweepBucket(s.heap, s.strt, s.sweepstrgc, s.currentwhite);
    SweepOthers(s.heap, q, s.currentwhite, s.rootgc, s.openupval);
  }

  lemma SweepOthers(h: map<Ref, GCObject>, q: seq<Ref>, w: bool, root: seq<Ref>, open: seq<Ref>)
    requires RootListed(h, root) && OpenListed(h, open)
    requires forall x :: x in q ==> x in h
    ensures (forall x :: x in q ==> !h[x].InRoot()) ==> RootListed(SweepHeap(h, q, w), root)
    ensures (forall x :: x in q ==> h[x].level.None?) ==> OpenListed(SweepHeap(h, q, w), open)
  {
  }

  lemma SweepBucket(h: map<Ref, GCObject>, strt: seq<seq<Ref>>, b: nat, w: bool)
    requires b < |strt| && StringsListed(h, strt)
    ensures forall x :: x in strt[b] ==> x in h
    ensures StringsListed(SweepHeap(h, strt[b], w), strt[b := Kept(h, strt[b], w)])
  {
    var g, t := SweepHeap(h, strt[b], w), strt[b := Kept(h, strt[b], w)];
    forall a, x | 0 <= a < |t| && x in t[a]
      ensures x in g && g[x].kind == TString && Lmod(g[x].hash, |t|) == a
    {
      assert x in strt[a];
    }
  }

  lemma SweepStringCounts(s: State)
    requires Inv(s) && s.gcstate == Sweepstring
    requires forall y :: y in SweepString(s).rootgc ==> y in SweepString(s).heap
    ensures Counts(SweepString(s), [])
  {
    var t := SweepString(s);
    assert Roots(t) == Roots(s);
    forall x | x in t.heap
      ensures t.heap[x].ref >= Holders(t, x) + Count([], x)
    {
      SweepHeldIn(s.heap, s.strt[s.sweepstrgc], s.currentwhite, s.mainthread, s.rootgc, x);
      assert s.heap[x].ref >= Holders(s, x) + Count([], x);
    }
  }

  lemma SweepStringColored(s: State)
    requires Inv(s) && s.gcstate == Sweepstring
    ensures Colored(SweepString(s), {}, {})
  {
    var t := SweepString(s);
    var b := s.sweepstrgc;
    forall a, x | 0 <= a < |t.strt| && a < b + 1 && x in t.strt[a] && x in t.heap
      ensures t.heap[x].color == White(t.currentwhite)
    {
      assert x in s.strt[a];
    }
    assert t.rootgc[..0] == [];
  }

  /** Sweeping a bucket keeps the invariant. */
  lemma SweepStringInv(s: State)
    requires Inv(s) && s.gcstate == Sweepstring
    ensures Inv(SweepString(s))
  {
    var t := SweepString(s);
    var q, w := s.strt[s.sweepstrgc], s.currentwhite;
    SweepStringLists(s);
    SweepStringCounts(s);
    SweepStringColored(s);
    SweepClosed(s.heap, q, w, s.mainthread);
    SweepKeepsLive(s.heap, q, w, s.mainthread);
    SweepAllLive(s.heap, q, w, Roots(s));
    SweepShades(s.heap, q, w);
    hide Colored, StringsListed, RootListed, OpenListed, ClosedIn, ShapedIn, Counts, Shades;
    assert Roots(t) == Roots(s);
  }

  // ------------------------------------------------------------- open upvalues

  lemma SweepOpenSound(s: State)
    requires Sound(s, [])
    ensures forall x :: x in s.openupval ==> x in s.heap
    ensures Sound(SweepOpen(s), [])
  {
    var t := SweepOpen(s);
    var q, w := s.openupval, s.currentwhite;
    SweepOpenLists(s);
    SweepClosed(s.heap, q, w, s.mainthread);
    SweepKeepsLive(s.heap, q, w, s.mainthread);
    SweepAllLive(s.heap, q, w, Roots(s));
    SweepOpenCounts(s);
    hide StringsListed, RootListed, OpenListed, ClosedIn, ShapedIn, Counts;
    assert Roots(t) == Roots(s);
  }

  lemma SweepOpenLists(s: State)
    requires Linked(s) && Shaped(s)
    ensures Linked(SweepOpen(s))
  {
    var q, w := s.openupval, s.currentwhite;
    SweepOthers(s.heap, q, w, s.rootgc, s.openupval);
    SweepStringsOther(s.heap, q, w, s.strt);
    assert OpenListed(SweepOpen(s).heap, SweepOpen(s).openupval);
  }

  lemma SweepStringsOther(h: map<Ref, GCObject>, q: seq<Ref>, w: bool, strt: seq<seq<Ref>>)
    requires |strt| > 0 && StringsListed(h, strt)
    requires forall x :: x in q ==> x in h && h[x].kind != TString
    ensures StringsListed(SweepHeap(h, q, w), strt)
  {
  }

  lemma SweepOpenCounts(s: State)
    requires Linked(s) && Shaped(s) && Counts(s, []) && Live(s, s.mainthread)
    ensures Counts(SweepOpen(s), [])
  {
    var t := SweepOpen(s);
    SweepOpenLists(s);
    assert Roots(t) == Roots(s);
    forall x | x in t.heap
      ensures t.heap[x].ref >= Holders(t, x) + Count([], x)
    {
      SweepHeldIn(s.heap, s.openupval, s.currentwhite, s.mainthread, s.rootgc, x);
      assert s.heap[x].ref >= Holders(s, x) + Count([], x);
    }
  }

  // ---------------------------------------------------- the object at the cursor

  lemma SweepAtLists(s: State)
    requires Linked(s) && Shaped(s) && s.sweepgc < |s.rootgc|
    ensures s.rootgc[s.sweepgc] in s.heap && Linked(SweepAt(s))
  {
    var x, w := s.rootgc[s.sweepgc], s.currentwhite;
    assert x in s.rootgc;
    SweepOthers(s.heap, [x], w, s.rootgc, s.openupval);
    SweepStringsOther(s.heap, [x], w, s.strt);
    SweepRoot(s.heap, s.rootgc, s.sweepgc, w);
  }

  lemma KeptOne(h: map<Ref, GCObject>, x: Ref, w: bool)
    requires x in h
    ensures Kept(h, [x], w) == if Doomed(h[x], w) then [] else [x]
  {
  }

  lemma SweepRoot(h: map<Ref, GCObject>, q: seq<Ref>, k: nat, w: bool)
    requires RootListed(h, q) && k < |q|
    ensures q[k] in q && q[k] in h
    ensures RootListed(SweepHeap(h, [q[k]], w), q[..k] + Kept(h, [q[k]], w) + q[k + 1..])
    ensures q[..k] + Kept(h, [q[k]], w) + q[k + 1..] ==
            if Doomed(h[q[k]], w) then q[..k] + q[k + 1..] else q
  {
    var x := q[k];
    assert x in q;
    KeptOne(h, x, w);
    if Doomed(h[x], w) {
      WithoutAt(q, k);
      EraseRoot(h, q, x, w);
      assert q[..k] + [] + q[k + 1..] == q[..k] + q[k + 1..];
    } else {
      assert q == q[..k] + [x] + q[k + 1..];
      SweepSame(h, q, x, w);
    }
  }

  lemma EraseRoot(h: map<Ref, GCObject>, q: seq<Ref>, x: Ref, w: bool)
    requires RootListed(h, q) && x in q && Doomed(h[x], w)
    ensures RootListed(SweepHeap(h, [x], w), Without(q, x))
  {
    hide Kept;
    assert SweepHeap(h, [x], w) == h - {x};
  }

  lemma SweepSame(h: map<Ref, GCObject>, q: seq<Ref>, x: Ref, w: bool)
    requires RootListed(h, q) && x in q && !Doomed(h[x], w)
    ensures RootListed(SweepHeap(h, [x], w), q)
  {
    hide Kept;
    assert SweepHeap(h, [x], w).Keys == h.Keys;
  }

  lemma InListed(h: map<Ref, GCObject>, q: seq<Ref>)
    requires RootListed(h, q)
    ensures forall y :: y in q ==> y in h
  {
  }

  /** Visiting one object of the root list changes no count of holders. */
  lemma SweepAtHeld(h: map<Ref, GCObject>, q: seq<Ref>, m: Ref, k: nat, w: bool, x: Ref)
    requires RootListed(h, q) && ShapedIn(h, m) && LiveIn(h, w, m) && k < |q|
    ensures q[k] in h && forall y :: y in q ==> y in h
    ensures var r := q[..k] + Kept(h, [q[k]], w) + q[k + 1..];
      (forall y :: y in r ==> y in SweepHeap(h, [q[k]], w)) && HeldIn(SweepHeap(h, [q[k]], w), w, r, x) == HeldIn(h, w, q, x)
  {
    hide HeldIn, Count, SweepHeap, Kept, RootListed, ShapedIn;
    InListed(h, q);
    SweepRoot(h, q, k, w);
    var r := q[..k] + Kept(h, [q[k]], w) + q[k + 1..];
    InListed(SweepHeap(h, [q[k]], w), r);
    HeldInAt(h, w, q, k, x);
    SweepHeldIn(h, [q[k]], w, m, r, x);
  }

  lemma SweepAtHolders(s: State, x: Ref)
    requires Linked(s) && Shaped(s) && Live(s, s.mainthread) && s.sweepgc < |s.rootgc|
    ensures s.rootgc[s.sweepgc] in s.heap && Linked(SweepAt(s))
    ensures Holders(SweepAt(s), x) == Holders(s, x)
  {
    hide HeldIn, Count, SweepHeap, Kept, RootListed, StringsListed, OpenListed, ShapedIn;
    SweepAtLists(s);
    SweepAtHeld(s.heap, s.rootgc, s.mainthread, s.sweepgc, s.currentwhite, x);
    assert Roots(SweepAt(s)) == Roots(s);
  }

  lemma SweepAtCounts(s: State)
    requires Linked(s) && Shaped(s) && Counts(s, []) && Live(s, s.mainthread) && s.sweepgc < |s.rootgc|
    ensures s.rootgc[s.sweepgc] in s.heap && Counts(SweepAt(s), [])
  {
    SweepAtLists(s);
    var t := SweepAt(s);
    assert forall x :: x in t.rootgc ==> x in t.heap;
    hide Linked, Shaped, RootListed;
    forall x | x in t.heap
      ensures t.heap[x].ref >= Holders(t, x) + Count([], x)
    {
      SweepAtHolders(s, x);
      assert s.heap[x].ref >= Holders(s, x) + Count([], x);
    }
  }

  lemma SweepAtSound(s: State)
    requires Sound(s, []) && s.sweepgc < |s.rootgc|
    ensures s.rootgc[s.sweepgc] in s.heap && Sound(SweepAt(s), [])
  {
    SweepAtLists(s);
    SweepAtCounts(s);
    var t := SweepAt(s);
    var q, w := [s.rootgc[s.sweepgc]], s.currentwhite;
    SweepClosed(s.heap, q, w, s.mainthread);
    SweepKeepsLive(s.heap, q, w, s.mainthread);
    SweepAllLive(s.heap, q, w, Roots(s));
    hide Linked, ClosedIn, ShapedIn, Counts;
    assert Roots(t) == Roots(s);
  }

  /** The cursor moves on; everything before it is white. */
  lemma SweepAtSwept(s: State, h: map<Ref, GCObject>, open: seq<Ref>)
    requires RootListed(s.heap, s.rootgc) && s.sweepgc < |s.rootgc|
    requires RootSwept(h, s.rootgc, open, s.sweepgc, s.mainthread, s.currentwhite)
    requires forall x :: x in s.rootgc ==> x in h && s.heap[x] == h[x]
    requires s.rootgc[s.sweepgc] == s.mainthread || s.mainthread in s.rootgc[..s.sweepgc] ==>
               forall x :: x in s.openupval && x in s.heap ==> s.heap[x].color == White(s.currentwhite)
    ensures s.rootgc[s.sweepgc] in s.heap
    ensures var t := SweepAt(s);
            RootSwept(t.heap, t.rootgc, t.openupval, t.sweepgc, t.mainthread, t.currentwhite)
  {
    var k, x, w := s.sweepgc, s.rootgc[s.sweepgc], s.currentwhite;
    assert x in s.rootgc;
    var t := SweepAt(s);
    assert Kept(s.heap, [x], w) == if Doomed(s.heap[x], w) then [] else [x];
    forall i | 0 <= i < t.sweepgc && t.rootgc[i] in t.heap
      ensures t.heap[t.rootgc[i]].color == White(w)
    {
      if i < k {
        assert t.rootgc[i] == s.rootgc[i] && s.rootgc[i] in s.rootgc;
      }
    }
    assert s.mainthread in t.rootgc[..t.sweepgc] ==> s.mainthread == x || s.mainthread in s.rootgc[..k];
  }

  lemma SweepOneSwept(s: State)
    requires Sweeping(s) && s.sweepgc < |s.rootgc|
    ensures var t := SweepOne(s);
            RootSwept(t.heap, t.rootgc, t.openupval, t.sweepgc, t.mainthread, t.currentwhite)
  {
    if s.rootgc[s.sweepgc] == s.mainthread {
      SweepOpenLists(s);
      assert forall x :: x in s.rootgc ==> s.heap[x] == SweepOpen(s).heap[x];
      SweepAtSwept(SweepOpen(s), s.heap, s.openupval);
    } else {
      SweepAtSwept(s, s.heap, s.openupval);
    }
  }

  /** One visit of the sweep. */
  lemma SweepOneKeeps(s: State)
    requires Sweeping(s) && s.sweepgc < |s.rootgc|
    ensures Sweeping(SweepOne(s))
    ensures |SweepOne(s).rootgc| - SweepOne(s).sweepgc < |s.rootgc| - s.sweepgc
    ensures SweepOne(s).gcstate == s.gcstate
  {
    SweepOneSwept(s);
    var w := s.currentwhite;
    hide RootSwept, Counts, ClosedIn, ShapedIn, StringsSwept, Shades;
    var x := s.rootgc[s.sweepgc];
    assert x in s.rootgc;
    assert Kept(s.heap, [x], w) == if Doomed(s.heap[x], w) then [] else [x];
    if x == s.mainthread {
      SweepOpenSound(s);
      SweepAtSound(SweepOpen(s));
      SweepShades(s.heap, s.openupval, w);
      SweepShades(SweepOpen(s).heap, [x], w);
      SweepStringsSwept(s.heap, s.openupval, w, s.strt, |s.strt|);
      SweepStringsSwept(SweepOpen(s).heap, [x], w, s.strt, |s.strt|);
    } else {
      SweepAtSound(s);
      SweepShades(s.heap, [x], w);
      SweepStringsSwept(s.heap, [x], w, s.strt, |s.strt|);
    }
  }

  // ------------------------------------------------------------------ the step

  /** sweeplist with a bound on the number of visits. */
  function SweepList(s: State, n: nat): (t: State)
    requires Sweeping(s)
    ensures Sweeping(t) && t.gcstate == s.gcstate
    decreases n
  {
    hide Sweeping, Linked, RootSwept;
    SweepingLinked(s);
    if n == 0 || s.sweepgc >= |s.rootgc| then s
    else
      SweepOneKeeps(s);
      SweepList(SweepOne(s), n - 1)
  }

  lemma SweepingLinked(s: State)
    requires Sweeping(s)
    ensures Linked(s) && s.sweepgc <= |s.rootgc|
  {
  }

  function SweepStep(s: State): State
    requires Inv(s) && s.gcstate == Sweep
  {
    var t := SweepList(s, SWEEP_MAX);
    if t.sweepgc == |t.rootgc| then t.(gcstate := Finalize) else t
  }

  /** When the cursor has come to the end, every object is white. */
  lemma SweepEnd(s: State)
    requires Sweeping(s) && s.sweepgc == |s.rootgc|
    ensures AllWhite(s.heap, s.currentwhite)
  {
    assert s.rootgc[..s.sweepgc] == s.rootgc;
    assert s.mainthread in s.rootgc;
    forall x | x in s.heap
      ensures s.heap[x].color == White(s.currentwhite)
    {
      if s.heap[x].InRoot() {
        assert x in s.rootgc;
      } else if s.heap[x].level.Some? {
        assert x in s.openupval;
      } else {
        assert x in s.strt[Lmod(s.heap[x].hash, |s.strt|)];
      }
    }
  }

  lemma SoundPhase(s: State, p: Phase)
    requires Sound(s, [])
    ensures Sound(s.(gcstate := p), [])
  {
    var t := s.(gcstate := p);
    assert Roots(t) == Roots(s);
    assert forall x :: x in t.heap ==> s.heap[x].ref >= Holders(s, x) + Count([], x) ==> t.heap[x].ref >= Holders(t, x) + Count([], x);
  }

  /** A sweep step keeps the invariant. */
  lemma SweepStepInv(s: State)
    requires Inv(s) && s.gcstate == Sweep
    ensures Inv(SweepStep(s))
  {
    var t := SweepList(s, SWEEP_MAX);
    if t.sweepgc == |t.rootgc| {
      SweepEnd(t);
      SoundPhase(t, Finalize);
    }
  }
}
