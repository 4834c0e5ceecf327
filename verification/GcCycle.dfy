/** The two ends of the mark phase: markroot, and the flip of the white that
    closes the atomic step (src/lgc.c:641-656, src/lgc.c:669-703). */
module GcCycle {
  import opened Seqs
  import opened GcState
  import opened GcRelease
  import opened GcMark
  import opened GcAtomic

  // ------------------------------------------------------------------ markroot

  /** The main thread, its table of globals (slot 0), the registry and the
      metatables of the basic types, in this order. */
  function RootValues(s: State): seq<Option<Ref>>
    requires s.mainthread in s.heap
  {
    var slots := s.heap[s.mainthread].slots;
    [Some(s.mainthread)] + (if slots == [] then [] else [slots[0]]) + Roots(s)
  }

  function MarkRoot(s: State): State
    requires Inv(s) && s.gcstate == Pause
  {
    var s0 := s.(gray := [], grayagain := [], gcstate := Propagate);
    MarkRootReady(s);
    MarkAll(s0, RootValues(s0))
  }

  lemma MarkRootReady(s: State)
    requires Inv(s) && s.gcstate == Pause
    ensures var s0 := s.(gray := [], grayagain := [], gcstate := Propagate);
            Markable(s0) && Sound(s0, []) && Marking(s0, {}) && Within(s0.heap, RootValues(s0))
  {
    var s0 := s.(gray := [], grayagain := [], gcstate := Propagate);
    assert Sound(s0, []) by { SoundSame(s, s0); }
    assert NoDead(s0.heap, s0.currentwhite);
    MarkInvMarkable(s0);
    SlotsWithin(s0, s0.mainthread);
  }

  /** Soundness speaks of the heap, the lists and the roots only. */
  lemma SoundSame(s: State, t: State)
    requires Sound(s, [])
    requires t.heap == s.heap && t.rootgc == s.rootgc && t.strt == s.strt && t.openupval == s.openupval
    requires t.mainthread == s.mainthread && t.registry == s.registry && t.mt == s.mt
    requires t.currentwhite == s.currentwhite
    ensures Sound(t, [])
  {
    assert Roots(t) == Roots(s);
    forall x | x in t.heap
      ensures t.heap[x].ref >= Holders(t, x) + Count([], x)
    {
      assert s.heap[x].ref >= Holders(s, x) + Count([], x);
    }
  }

  lemma MarkRootInv(s: State)
    requires Inv(s) && s.gcstate == Pause
    ensures MarkInv(MarkRoot(s)) && Shaded(s.(gray := [], grayagain := [], gcstate := Propagate), MarkRoot(s))
  {
    var s0 := s.(gray := [], grayagain := [], gcstate := Propagate);
    MarkRootReady(s);
    var q := RootValues(s0);
    MarkingMore(s0, Refs(q));
    hide Inv, Sound, Markable, NoDead, Within, Marking, RootsMarked, Dark;
    assert {} + Refs(q) == Refs(q);
    MarkAllKeeps(s0, q, {});
    var t := MarkAll(s0, q);
    MarkedShaded(s0, t);
    NoDeadOf(s0);
    ShadedSound(s0, t);
    RootsDark(s0, t);
  }

  lemma NoDeadOf(s: State)
    requires Markable(s)
    ensures NoDead(s.heap, s.currentwhite)
  {
  }

  lemma RootsDark(s: State, t: State)
    requires s.mainthread in s.heap && Dark(t.heap, RootValues(s)) && t.mainthread == s.mainthread && t.registry == s.registry
    ensures RootsMarked(t.heap, t.mainthread, t.registry)
  {
    var q := RootValues(s);
    assert q[0] == Some(s.mainthread);
    var k := if s.heap[s.mainthread].slots == [] then 1 else 2;
    assert q[k] == s.registry;
  }

  // ---------------------------------------------------------------------- flip

  /** luaC_separateudata for userdata without a finalizer: an unmarked one is
      from now on left to the sweep. */
  function Separate(h: map<Ref, GCObject>): map<Ref, GCObject> {
    map x | x in h :: if h[x].kind == TUserdata && h[x].color.White? then h[x].(finalized := true) else h[x]
  }

  function Flip(s: State): State {
    s.(heap := Separate(s.heap), currentwhite := !s.currentwhite, sweepstrgc := 0, sweepgc := 0, gcstate := Sweepstring)
  }

  function Atomic(s: State, running: Ref): State
    requires MarkInv(s) && running in s.heap
  {
    Flip(MarkAtomic(s, running))
  }

  /** Marking is complete: nothing marked refers to anything unmarked. */
  ghost predicate MarkingDone(s: State) {
    && MarkInv(s) && s.gray == [] && ThreadsDone(s.heap, s.grayagain) && Dark(s.heap, s.mt)
  }

  lemma MarkedClosed(s: State, x: Ref)
    requires MarkingDone(s) && x in s.heap && !s.heap[x].color.White?
    ensures Dark(s.heap, s.heap[x].slots)
  {
    if s.heap[x].color == Gray {
      if s.heap[x].Traversable() {
        assert x in s.grayagain;
      } else {
        assert ShadeOk(s.heap[x]);
        assert s.heap[x].slots == [];
      }
    }
  }

  /** After the flip the live objects are exactly the marked ones. */
  lemma FlipLive(s: State, x: Ref)
    requires NoDead(s.heap, s.currentwhite)
    ensures Live(Flip(s), x) <==> x in s.heap && !s.heap[x].color.White?
  {
    if x in s.heap && s.heap[x].color.White? {
      assert !IsDead(s.heap[x], s.currentwhite);
    }
  }

  lemma FlipClosed(s: State)
    requires MarkingDone(s)
    ensures Closed(Flip(s))
  {
    var t := Flip(s);
    MarkInvMarkable(s);
    forall x
      ensures LiveIn(t.heap, t.currentwhite, x) <==> x in s.heap && !s.heap[x].color.White?
    {
      FlipLive(s, x);
    }
    hide Sound, Marking, ThreadsDone;
    forall x, i | LiveIn(t.heap, t.currentwhite, x) && 0 <= i < |t.heap[x].slots| && t.heap[x].slots[i].Some?
      ensures LiveIn(t.heap, t.currentwhite, t.heap[x].slots[i].value)
    {
      MarkedClosed(s, x);
      SlotsWithin(s, x);
      assert !IsWhite(s.heap, s.heap[x].slots[i]);
    }
    FlipRoots(s);
  }

  lemma FlipRoots(s: State)
    requires MarkingDone(s)
    ensures LiveIn(Flip(s).heap, Flip(s).currentwhite, s.mainthread)
    ensures AllLive(Flip(s).heap, Flip(s).currentwhite, Roots(Flip(s)))
  {
    var t := Flip(s);
    MarkInvMarkable(s);
    hide Marking, ThreadsDone, Linked, Counts;
    assert s.mainthread in s.heap;
    FlipLive(s, s.mainthread);
    forall i | 0 <= i < |Roots(t)| && Roots(t)[i].Some?
      ensures LiveIn(t.heap, t.currentwhite, Roots(t)[i].value)
    {
      FlipLive(s, Roots(t)[i].value);
      if i > 0 {
        assert !IsWhite(s.heap, s.mt[i - 1]);
      }
    }
  }

  lemma {:induction false} HeldInLess(h: map<Ref, GCObject>, g: map<Ref, GCObject>, w: bool, v: bool, q: seq<Ref>, x: Ref)
    requires forall y :: y in q ==> y in h && y in g && Held(h[y], w, x) <= Held(g[y], v, x)
    ensures HeldIn(h, w, q, x) <= HeldIn(g, v, q, x)
  {
    if q != [] {
      HeldInLess(h, g, w, v, q[1..], x);
    }
  }

  lemma FlipCounts(s: State)
    requires Counts(s, []) && NoDead(s.heap, s.currentwhite)
    ensures Counts(Flip(s), [])
  {
    var t := Flip(s);
    assert Roots(t) == Roots(s);
    forall x | x in t.heap
      ensures t.heap[x].ref >= Holders(t, x) + Count([], x)
    {
      HeldInLess(t.heap, s.heap, t.currentwhite, s.currentwhite, s.rootgc, x);
      assert s.heap[x].ref >= Holders(s, x) + Count([], x);
    }
  }

  lemma FlipLists(s: State)
    requires Linked(s) && Shaped(s) && Shades(s.heap)
    ensures Linked(Flip(s)) && Shaped(Flip(s)) && Shades(Flip(s).heap)
  {
    var t := Flip(s);
    SameLists(s.heap, t.heap, s.rootgc, s.openupval, s.strt, s.mainthread);
  }

  /** The atomic step keeps the invariant: what it leaves white is dead, and
      nothing live refers to it. */
  lemma AtomicInv(s: State, running: Ref)
    requires MarkInv(s) && running in s.heap
    ensures Inv(Atomic(s, running))
  {
    var t := MarkAtomic(s, running);
    FlipClosed(t);
    FlipLists(t);
    FlipCounts(t);
  }
}
