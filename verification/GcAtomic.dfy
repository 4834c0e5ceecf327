/** The mark phase as a whole: what one propagation step keeps, propagateall, and
    the marking part of the atomic step (src/lgc.c:384-397, src/lgc.c:619-700). */
module GcAtomic {
  import opened Seqs
  import opened GcState
  import opened GcRelease
  import opened GcMark

  // ------------------------------------------------------ what marking leaves alone

  /** Only colors change, and what was marked stays marked. */
  ghost predicate Recolored(h: map<Ref, GCObject>, g: map<Ref, GCObject>) {
    && g.Keys == h.Keys
    && (forall x :: x in h ==> g[x] == h[x].(color := g[x].color))
    && (forall x :: x in h && !h[x].color.White? ==> !g[x].color.White?)
    && (forall x :: x in h && g[x].color.White? ==> g[x].color == h[x].color)
  }

  ghost predicate Shaded(s: State, t: State) {
    && Recolored(s.heap, t.heap)
    && t == s.(heap := t.heap, gray := t.gray, grayagain := t.grayagain)
  }

  lemma ShadedTransitive(s: State, t: State, u: State)
    requires Shaded(s, t) && Shaded(t, u)
    ensures Shaded(s, u)
  {
    RecoloredTransitive(s.heap, t.heap, u.heap);
  }

  lemma RecoloredTransitive(h: map<Ref, GCObject>, g: map<Ref, GCObject>, f: map<Ref, GCObject>)
    requires Recolored(h, g) && Recolored(g, f)
    ensures Recolored(h, f)
  {
  }

  lemma MarkedShaded(s: State, t: State)
    requires Marked(s, t)
    ensures Shaded(s, t)
  {
  }

  lemma RecoloredClosed(h: map<Ref, GCObject>, g: map<Ref, GCObject>, w: bool, q: seq<Option<Ref>>)
    requires Recolored(h, g) && NoDead(h, w)
    ensures NoDead(g, w)
    ensures ClosedIn(h, w) ==> ClosedIn(g, w)
    ensures AllLive(h, w, q) ==> AllLive(g, w, q)
  {
    assert forall x :: LiveIn(g, w, x) <==> LiveIn(h, w, x);
  }

  lemma ShadedCounts(s: State, t: State)
    requires Shaded(s, t) && NoDead(s.heap, s.currentwhite) && Counts(s, [])
    ensures Counts(t, [])
  {
    RecoloredClosed(s.heap, t.heap, s.currentwhite, []);
    forall x | x in t.heap
      ensures t.heap[x].ref >= Holders(t, x) + Count([], x)
    {
      HeldInSame(s.heap, t.heap, s.currentwhite, t.currentwhite, s.rootgc, x);
      assert s.heap[x].ref >= Holders(s, x) + Count([], x);
    }
  }

  lemma ShadedSound(s: State, t: State)
    requires Shaded(s, t) && NoDead(s.heap, s.currentwhite) && Sound(s, [])
    ensures Sound(t, []) && NoDead(t.heap, t.currentwhite)
  {
    SameLists(s.heap, t.heap, s.rootgc, s.openupval, s.strt, s.mainthread);
    RecoloredClosed(s.heap, t.heap, s.currentwhite, Roots(s));
    ShadedCounts(s, t);
    assert Roots(t) == Roots(s);
    assert LiveIn(s.heap, s.currentwhite, s.mainthread);
  }

  /** The invariant with its propagate-phase part spelled out. */
  ghost predicate MarkInv(s: State) {
    && s.gcstate == Propagate
    && Sound(s, [])
    && NoDead(s.heap, s.currentwhite)
    && Marking(s, {})
    && RootsMarked(s.heap, s.mainthread, s.registry)
  }

  lemma MarkInvIsInv(s: State)
    requires s.gcstate == Propagate
    ensures Inv(s) <==> MarkInv(s)
  {
  }

  lemma MarkInvMarkable(s: State)
    requires Sound(s, []) && NoDead(s.heap, s.currentwhite)
    ensures Markable(s) && Within(s.heap, s.mt) && LiveOpt(s, s.registry)
  {
    forall i | 0 <= i < |s.mt| && s.mt[i].Some?
      ensures s.mt[i].value in s.heap
    {
      assert Roots(s)[i + 1] == s.mt[i] && LiveIn(s.heap, s.currentwhite, Roots(s)[i + 1].value);
    }
    assert Roots(s)[0] == s.registry;
    if s.registry.Some? {
      assert LiveIn(s.heap, s.currentwhite, Roots(s)[0].value);
    }
  }

  lemma ShadedInv(s: State, t: State)
    requires MarkInv(s) && Shaded(s, t) && Marking(t, {})
    ensures MarkInv(t)
  {
    ShadedSound(s, t);
  }

  // ------------------------------------------------------------ one gray object

  lemma PropagateMarkShaded(s: State)
    requires Markable(s) && s.gray != [] && s.gray[0] in s.heap && s.heap[s.gray[0]].color == Gray
    ensures Shaded(s, PropagateMark(s))
  {
    PickMarkable(s);
    PickShaded(s);
    var t := MarkAll(Pick(s), s.heap[s.gray[0]].slots);
    MarkedShaded(Pick(s), t);
    ShadedTransitive(s, Pick(s), t);
  }

  lemma PickShaded(s: State)
    requires s.gray != [] && s.gray[0] in s.heap && s.heap[s.gray[0]].color == Gray
    ensures Shaded(s, Pick(s))
  {
  }

  /** propagatemark keeps the invariant. */
  lemma PropagateMarkInv(s: State)
    requires MarkInv(s) && s.gray != []
    ensures Markable(s) && s.gray[0] in s.heap && !s.heap[s.gray[0]].color.White?
    ensures MarkInv(PropagateMark(s)) && Shaded(s, PropagateMark(s))
  {
    MarkInvMarkable(s);
    assert s.gray[0] in s.gray;
    hide Sound, Markable, RootsMarked, NoDead;
    PropagateMarkKeeps(s);
    PropagateMarkShaded(s);
    ShadedInv(s, PropagateMark(s));
  }

  /** propagateall: until the gray list is empty. */
  function PropagateAll(s: State): (t: State)
    requires MarkInv(s)
    ensures MarkInv(t) && t.gray == [] && Shaded(s, t)
    decreases |Whites(s.heap)| + |s.gray|
  {
    hide MarkInv, Recolored;
    if s.gray == [] then ShadedReflexive(s); s
    else
      PropagateMarkInv(s);
      var t := PropagateAll(PropagateMark(s));
      ShadedTransitive(s, PropagateMark(s), t);
      t
  }

  lemma ShadedReflexive(s: State)
    ensures Shaded(s, s)
  {
  }

  lemma MarkAllInv(s: State, q: seq<Option<Ref>>)
    requires MarkInv(s) && Within(s.heap, q)
    ensures Markable(s) && MarkInv(MarkAll(s, q)) && Shaded(s, MarkAll(s, q)) && Dark(MarkAll(s, q).heap, q)
  {
    MarkInvMarkable(s);
    MarkingMore(s, Refs(q));
    hide Sound, Markable, RootsMarked, NoDead, Within, Marking;
    assert {} + Refs(q) == Refs(q);
    MarkAllKeeps(s, q, {});
    MarkedShaded(s, MarkAll(s, q));
    ShadedInv(s, MarkAll(s, q));
  }

  lemma MarkingMore(s: State, targets: set<Ref>)
    requires Marking(s, {})
    ensures Marking(s, targets)
  {
  }

  // -------------------------------------------------------------------- atomic

  ghost predicate OpenIn(h: map<Ref, GCObject>, q: seq<Ref>) {
    forall x :: x in q ==> x in h && h[x].level.Some?
  }

  lemma OpenLevels(s: State)
    requires MarkInv(s)
    ensures OpenIn(s.heap, s.openupval)
  {
  }

  lemma OpenStays(h: map<Ref, GCObject>, g: map<Ref, GCObject>, q: seq<Ref>)
    requires q != [] && OpenIn(h, q) && Recolored(h, g)
    ensures OpenIn(h, q[1..]) && OpenIn(g, q[1..])
  {
  }

  /** Marking the value of a marked open upvalue. */
  lemma RemarkReady(s: State, q: seq<Ref>)
    requires MarkInv(s) && q != [] && OpenIn(s.heap, q)
    ensures Markable(s) && q[0] in s.heap && s.mainthread in s.heap && s.heap[q[0]].level.Some?
    ensures s.heap[q[0]].level.value < |s.heap[s.mainthread].slots|
    ensures Within(s.heap, Kids(s, q[0]))
    ensures var u := MarkAll(s, Kids(s, q[0])); MarkInv(u) && Shaded(s, u) && OpenIn(u.heap, q[1..])
    ensures OpenIn(s.heap, q[1..])
  {
    MarkInvMarkable(s);
    KidsWithin(s, q[0]);
    MarkAllInv(s, Kids(s, q[0]));
    OpenStays(s.heap, MarkAll(s, Kids(s, q[0])).heap, q);
  }

  /** remarkupvals: the values of the open upvalues that have been marked. */
  function RemarkUpvals(s: State, q: seq<Ref>): (t: State)
    requires MarkInv(s) && OpenIn(s.heap, q)
    ensures MarkInv(t) && Shaded(s, t)
    decreases |q|
  {
    hide MarkInv, Markable, Within, OpenIn, Shaded, Kids;
    if q == [] then ShadedReflexive(s); s
    else
      RemarkReady(s, q);
      if s.heap[q[0]].color == Gray then
        var u := MarkAll(s, Kids(s, q[0]));
        var t := RemarkUpvals(u, q[1..]);
        ShadedTransitive(s, u, t);
        t
      else RemarkUpvals(s, q[1..])
  }

  /** Every thread on `grayagain` has been traversed since anything was stored:
      its slots are marked. */
  ghost predicate ThreadsDone(h: map<Ref, GCObject>, grayagain: seq<Ref>) {
    forall x :: x in grayagain ==> x in h && h[x].kind == TThread && Dark(h, h[x].slots)
  }

  lemma ThreadsDoneStep(s: State)
    requires MarkInv(s) && s.gray != [] && ThreadsDone(s.heap, s.grayagain)
    ensures Markable(s) && s.gray[0] in s.heap && !s.heap[s.gray[0]].color.White?
    ensures ThreadsDone(PropagateMark(s).heap, PropagateMark(s).grayagain)
  {
    hide MarkInv, Markable, PropagateMark, Recolored, Dark;
    PropagateMarkInv(s);
    SlotsDark(s);
    DoneStays(s.heap, PropagateMark(s).heap, s.grayagain);
  }

  /** What is traversed has its slots marked; a thread enters `grayagain`. */
  lemma SlotsDark(s: State)
    requires MarkInv(s) && s.gray != []
    ensures Markable(s) && s.gray[0] in s.heap && !s.heap[s.gray[0]].color.White?
    ensures var x, t := s.gray[0], PropagateMark(s);
            && x in t.heap && t.heap[x].slots == s.heap[x].slots && t.heap[x].kind == s.heap[x].kind
            && Dark(t.heap, t.heap[x].slots)
            && t.grayagain == if s.heap[x].kind == TThread then [x] + s.grayagain else s.grayagain
  {
    hide Markable, Marking, MarkInv, Darker, Marked, Pick, Dark, Within;
    PickReady(s);
    PickedObject(s);
    var x := s.gray[0];
    var q := s.heap[x].slots;
    assert {} + Refs(q) == Refs(q);
    MarkAllKeeps(Pick(s), q, {});
    MarkedGrayagain(Pick(s), PropagateMark(s), x);
  }

  lemma PickReady(s: State)
    requires MarkInv(s) && s.gray != []
    ensures Markable(s) && s.gray[0] in s.heap && !s.heap[s.gray[0]].color.White?
    ensures Markable(Pick(s)) && Within(Pick(s).heap, s.heap[s.gray[0]].slots) && Marking(Pick(s), Refs(s.heap[s.gray[0]].slots))
  {
    PropagateMarkInv(s);
    PickMarkable(s);
    PickMarking(s);
  }

  lemma PickedObject(s: State)
    requires s.gray != [] && s.gray[0] in s.heap
    ensures var x, u := s.gray[0], Pick(s);
            && x in u.heap && u.heap[x].slots == s.heap[x].slots && u.heap[x].kind == s.heap[x].kind
            && u.grayagain == if s.heap[x].kind == TThread then [x] + s.grayagain else s.grayagain
  {
  }

  lemma MarkedGrayagain(s: State, t: State, x: Ref)
    requires Marked(s, t) && x in s.heap
    ensures t.grayagain == s.grayagain && x in t.heap && t.heap[x] == s.heap[x].(color := t.heap[x].color)
  {
  }

  lemma DoneStays(h: map<Ref, GCObject>, g: map<Ref, GCObject>, grayagain: seq<Ref>)
    requires Recolored(h, g) && ThreadsDone(h, grayagain)
    ensures ThreadsDone(g, grayagain)
  {
    forall x | x in grayagain
      ensures x in g && g[x].kind == TThread && Dark(g, g[x].slots)
    {
      forall i | 0 <= i < |g[x].slots|
        ensures !IsWhite(g, g[x].slots[i])
      {
        assert !IsWhite(h, h[x].slots[i]);
      }
    }
  }

  lemma {:induction false} PropagateAllDone(s: State)
    requires MarkInv(s) && ThreadsDone(s.heap, s.grayagain)
    ensures ThreadsDone(PropagateAll(s).heap, PropagateAll(s).grayagain)
    decreases |Whites(s.heap)| + |s.gray|
  {
    hide ThreadsDone, Recolored;
    if s.gray != [] {
      ThreadsDoneStep(s);
      PropagateMarkInv(s);
      hide MarkInv;
      PropagateAllDone(PropagateMark(s));
    }
  }

  /** Values of open upvalues that nothing else may reach any more. */
  function RemarkOpen(s: State): (t: State)
    requires MarkInv(s)
    ensures MarkInv(t) && t.gray == [] && Shaded(s, t)
  {
    var u := RemarkUpvals(s, s.openupval);
    hide MarkInv, Recolored;
    ShadedTransitive(s, u, PropagateAll(u));
    PropagateAll(u)
  }

  /** The running thread and, again, the metatables of the basic types. */
  function RemarkRoots(s: State, running: Ref): (t: State)
    requires MarkInv(s) && running in s.heap
    ensures MarkInv(t) && t.gray == [] && Shaded(s, t) && Dark(t.heap, s.mt)
  {
    MarkInvMarkable(s);
    var q := [Some(running)] + s.mt;
    RootsWithin(s, running);
    MarkAllInv(s, q);
    hide MarkInv, Recolored, Markable, Within, Dark;
    var u := MarkAll(s, q);
    ShadedTransitive(s, u, PropagateAll(u));
    DarkStays(u.heap, PropagateAll(u).heap, q);
    DarkTail(PropagateAll(u).heap, Some(running), s.mt);
    PropagateAll(u)
  }

  lemma RootsWithin(s: State, running: Ref)
    requires Within(s.heap, s.mt) && running in s.heap
    ensures Within(s.heap, [Some(running)] + s.mt)
  {
  }

  lemma DarkTail(h: map<Ref, GCObject>, v: Option<Ref>, q: seq<Option<Ref>>)
    requires Dark(h, [v] + q)
    ensures Dark(h, q)
  {
    assert forall i :: 0 <= i < |q| ==> ([v] + q)[i + 1] == q[i];
  }

  /** Everything that the back barriers and the stacks left on `grayagain`. */
  function RemarkGrayagain(s: State): (t: State)
    requires MarkInv(s) && s.gray == []
    ensures MarkInv(t) && t.gray == [] && Shaded(s, t) && ThreadsDone(t.heap, t.grayagain)
  {
    var u := s.(gray := s.grayagain, grayagain := []);
    Regray(s);
    PropagateAllDone(u);
    hide MarkInv, Recolored, ThreadsDone;
    ShadedTransitive(s, u, PropagateAll(u));
    PropagateAll(u)
  }

  /** The marking part of the atomic step. */
  function MarkAtomic(s: State, running: Ref): (t: State)
    requires MarkInv(s) && running in s.heap
    ensures MarkInv(t) && t.gray == [] && Shaded(s, t)
    ensures ThreadsDone(t.heap, t.grayagain) && Dark(t.heap, s.mt)
  {
    var s1 := RemarkOpen(s);
    assert running in s1.heap;
    var s2 := RemarkRoots(s1, running);
    var s3 := RemarkGrayagain(s2);
    hide MarkInv, Recolored, ThreadsDone, Dark;
    ShadedTransitive(s, s1, s2);
    ShadedTransitive(s, s2, s3);
    DarkStays(s2.heap, s3.heap, s.mt);
    s3
  }

  lemma DarkStays(h: map<Ref, GCObject>, g: map<Ref, GCObject>, q: seq<Option<Ref>>)
    requires Recolored(h, g) && Dark(h, q)
    ensures Dark(g, q)
  {
    forall i | 0 <= i < |q|
      ensures !IsWhite(g, q[i])
    {
      assert !IsWhite(h, q[i]);
    }
  }

  lemma Regray(s: State)
    requires MarkInv(s) && s.gray == []
    ensures MarkInv(s.(gray := s.grayagain, grayagain := []))
    ensures Shaded(s, s.(gray := s.grayagain, grayagain := []))
  {
    var t := s.(gray := s.grayagain, grayagain := []);
    ShadedSound(s, t);
  }
}
