/** A full collection (src/lgc.c:828-851): it ends, and what it leaves is exactly
    what can be reached, plus what is fixed. */
module GcFull {
  import opened Seqs
  import opened GcState
  import opened GcRelease
  import opened GcMark
  import opened GcAtomic
  import opened GcCycle
  import opened GcSweep
  import opened GcMachine
  import opened GcSafety

  // --------------------------------------------------------------- termination

  function Rank(p: Phase): nat {
    match p
    case Pause => 0
    case Finalize => 1
    case Sweep => 2
    case Sweepstring => 3
    case Propagate => 4
  }

  /** What is left to do in the present phase. */
  function Left(s: State): nat {
    match s.gcstate
    case Pause => 0
    case Finalize => 0
    case Sweep => if s.sweepgc <= |s.rootgc| then |s.rootgc| - s.sweepgc else 0
    case Sweepstring => if s.sweepstrgc <= |s.strt| then |s.strt| - s.sweepstrgc else 0
    case Propagate => |Whites(s.heap)| + |s.gray|
  }

  ghost predicate Progress(s: State, t: State) {
    Rank(t.gcstate) < Rank(s.gcstate) || (t.gcstate == s.gcstate && Left(t) < Left(s))
  }

  lemma {:induction false} SweepListShorter(s: State, n: nat)
    requires Sweeping(s)
    ensures |SweepList(s, n).rootgc| - SweepList(s, n).sweepgc <= |s.rootgc| - s.sweepgc
    ensures n > 0 && s.sweepgc < |s.rootgc| ==>
              |SweepList(s, n).rootgc| - SweepList(s, n).sweepgc < |s.rootgc| - s.sweepgc
    decreases n
  {
    hide Sweeping, Linked, SweepOne;
    SweepingLinked(s);
    if n > 0 && s.sweepgc < |s.rootgc| {
      SweepOneKeeps(s);
      SweepListShorter(SweepOne(s), n - 1);
    }
  }

  lemma SweepProgress(s: State)
    requires Inv(s) && s.gcstate == Sweep
    ensures Progress(s, SweepStep(s))
  {
    InvSweeping(s);
    SweepingLinked(s);
    SweepListShorter(s, SWEEP_MAX);
    SweepingLinked(SweepList(s, SWEEP_MAX));
    hide Inv, Sweeping, SweepList, Linked;
  }

  lemma PropagateProgress(s: State, running: Ref)
    requires Inv(s) && running in s.heap && s.gcstate == Propagate
    ensures Progress(s, SingleStep(s, running))
  {
    hide Inv, MarkInv, PropagateMark, Markable, MarkAtomic, Left;
    MarkInvIsInv(s);
    if s.gray != [] {
      GrayReady(s);
      MarkProgress(s);
    }
  }

  lemma GrayReady(s: State)
    requires MarkInv(s) && s.gray != []
    ensures Markable(s) && s.gray[0] in s.heap && s.heap[s.gray[0]].color == Gray
  {
    PropagateMarkInv(s);
    assert s.gray[0] in s.gray;
  }

  lemma MarkProgress(s: State)
    requires Markable(s) && s.gcstate == Propagate && s.gray != [] && s.gray[0] in s.heap && s.heap[s.gray[0]].color == Gray
    ensures Progress(s, PropagateMark(s))
  {
    PropagateMarkShaded(s);
  }

  lemma StringProgress(s: State)
    requires Inv(s) && s.gcstate == Sweepstring
    ensures Progress(s, SweepString(s))
  {
    hide Sound, Shades, StringsSwept;
  }

  /** Every step of the collector outside the pause gets closer to the pause. */
  lemma StepProgress(s: State, running: Ref)
    requires Inv(s) && running in s.heap && s.gcstate != Pause
    ensures Progress(s, SingleStep(s, running))
  {
    hide Inv, SweepString, SweepStep, Left;
    match s.gcstate
    case Propagate => PropagateProgress(s, running);
    case Sweepstring => StringProgress(s);
    case Sweep => SweepProgress(s);
    case Finalize =>
  }

  /** Steps of the collector until the pause. */
  function Finish(s: State, running: Ref): (t: State)
    requires Inv(s) && Reachable(s, running)
    ensures Inv(t) && t.gcstate == Pause && Reachable(t, running)
    decreases Rank(s.gcstate), Left(s)
  {
    hide Inv, Reachable, SingleStep, Left;
    if s.gcstate == Pause then s
    else
      StepReady(s, running);
      StepProgress(s, running);
      Finish(SingleStep(s, running), running)
  }

  lemma ReachableIn(s: State, x: Ref)
    requires Inv(s)
    ensures Reachable(s, x) ==> x in s.heap
  {
    if Reachable(s, x) {
      var p :| Path(s, p) && p[|p| - 1] == x;
      PathLive(s, p);
    }
  }

  lemma StepReady(s: State, running: Ref)
    requires Inv(s) && Reachable(s, running)
    ensures running in s.heap && Inv(SingleStep(s, running)) && Reachable(SingleStep(s, running), running)
  {
    hide Inv, Reachable, SingleStep;
    ReachableIn(s, running);
    CollectIsSafe(s, running, running);
    SingleStepInv(s, running);
  }

  // ------------------------------------------------ a collector creates nothing

  /** Objects only disappear; the others keep what they refer to. */
  ghost predicate Erased(s: State, t: State) {
    && t.heap.Keys <= s.heap.Keys
    && (forall x :: x in t.heap ==> t.heap[x].slots == s.heap[x].slots && t.heap[x].fixed == s.heap[x].fixed)
    && (forall x :: x in s.heap && s.heap[x].fixed ==> x in t.heap)
    && t.mainthread == s.mainthread && Roots(t) == Roots(s)
  }

  lemma ErasedTransitive(s: State, t: State, u: State)
    requires Erased(s, t) && Erased(t, u)
    ensures Erased(s, u)
  {
  }

  lemma ErasedReflexive(s: State)
    ensures Erased(s, s)
  {
  }

  lemma ErasedPath(s: State, t: State, p: seq<Ref>)
    requires Erased(s, t) && Path(t, p)
    ensures Path(s, p)
  {
  }

  lemma ErasedReach(s: State, t: State, x: Ref)
    requires Erased(s, t) && Reachable(t, x)
    ensures Reachable(s, x)
  {
    var p :| Path(t, p) && p[|p| - 1] == x;
    ErasedPath(s, t, p);
  }

  lemma RecoloredErased(s: State, t: State)
    requires Recolored(s.heap, t.heap) && t.mainthread == s.mainthread && t.registry == s.registry && t.mt == s.mt
    ensures Erased(s, t)
  {
  }

  lemma MarkErased(s: State, running: Ref)
    requires Inv(s) && running in s.heap && (s.gcstate == Pause || s.gcstate == Propagate)
    ensures Erased(s, SingleStep(s, running))
  {
    if s.gcstate == Pause {
      MarkRootInv(s);
      hide Inv, MarkInv, MarkRoot;
      RecoloredErased(s, MarkRoot(s));
    } else {
      MarkInvIsInv(s);
      if s.gray != [] {
        PropagateMarkInv(s);
        hide Inv, MarkInv, PropagateMark;
        RecoloredErased(s, PropagateMark(s));
      } else {
        hide Inv, MarkInv, MarkAtomic, ThreadsDone, Dark;
        FlipErased(s, MarkAtomic(s, running));
      }
    }
  }

  lemma FlipErased(s: State, t: State)
    requires Shaded(s, t)
    ensures Erased(s, Flip(t))
  {
  }

  lemma SweepHeapErased(h: map<Ref, GCObject>, q: seq<Ref>, w: bool)
    ensures var g := SweepHeap(h, q, w);
            && g.Keys <= h.Keys
            && (forall x :: x in g ==> g[x].slots == h[x].slots && g[x].fixed == h[x].fixed)
            && (forall x :: x in h && h[x].fixed ==> x in g)
  {
  }

  lemma SweepOpenErased(s: State)
    requires forall x :: x in s.openupval ==> x in s.heap
    ensures Erased(s, SweepOpen(s))
  {
    SweepHeapErased(s.heap, s.openupval, s.currentwhite);
  }

  lemma SweepAtErased(s: State)
    requires s.sweepgc < |s.rootgc| && s.rootgc[s.sweepgc] in s.heap
    ensures Erased(s, SweepAt(s))
  {
    SweepHeapErased(s.heap, [s.rootgc[s.sweepgc]], s.currentwhite);
  }

  lemma SweepOneErased(s: State)
    requires Linked(s) && s.sweepgc < |s.rootgc|
    ensures Erased(s, SweepOne(s))
  {
    assert s.rootgc[s.sweepgc] in s.rootgc;
    if s.rootgc[s.sweepgc] == s.mainthread {
      SweepOpenErased(s);
      SweepAtErased(SweepOpen(s));
      ErasedTransitive(s, SweepOpen(s), SweepAt(SweepOpen(s)));
    } else {
      SweepAtErased(s);
    }
  }

  lemma {:induction false} SweepListErased(s: State, n: nat)
    requires Sweeping(s)
    ensures Erased(s, SweepList(s, n))
    decreases n
  {
    hide Sweeping, Linked, SweepOne, Erased;
    SweepingLinked(s);
    if n == 0 || s.sweepgc >= |s.rootgc| {
      ErasedReflexive(s);
    } else {
      SweepOneKeeps(s);
      SweepOneErased(s);
      SweepListErased(SweepOne(s), n - 1);
      ErasedTransitive(s, SweepOne(s), SweepList(SweepOne(s), n - 1));
    }
  }

  lemma SweepStringErased(s: State)
    requires Inv(s) && s.gcstate == Sweepstring
    ensures Erased(s, SweepString(s))
  {
    hide Sound, Shades, StringsSwept, Kept;
  }

  lemma SweepStepErased(s: State)
    requires Inv(s) && s.gcstate == Sweep
    ensures Erased(s, SweepStep(s))
  {
    InvSweeping(s);
    hide Inv, Sweeping, SweepList, Erased;
    SweepListErased(s, SWEEP_MAX);
    ErasedPhase(s, SweepList(s, SWEEP_MAX), Finalize);
  }

  lemma ErasedPhase(s: State, t: State, p: Phase)
    requires Erased(s, t)
    ensures Erased(s, t.(gcstate := p))
  {
  }

  lemma StepErased(s: State, running: Ref)
    requires Inv(s) && running in s.heap
    ensures Erased(s, SingleStep(s, running))
  {
    hide Inv, SweepString, SweepStep;
    match s.gcstate
    case Pause => MarkErased(s, running);
    case Propagate => MarkErased(s, running);
    case Sweepstring => SweepStringErased(s);
    case Sweep => SweepStepErased(s);
    case Finalize => ErasedReflexive(s); ErasedPhase(s, s, Pause);
  }

  lemma {:induction false} FinishErased(s: State, running: Ref)
    requires Inv(s) && Reachable(s, running)
    ensures Erased(s, Finish(s, running))
    decreases Rank(s.gcstate), Left(s)
  {
    hide Inv, Reachable, SingleStep, Left, Erased;
    if s.gcstate == Pause {
      ErasedReflexive(s);
    } else {
      StepReady(s, running);
      StepProgress(s, running);
      StepErased(s, running);
      FinishErased(SingleStep(s, running), running);
      ErasedTransitive(s, SingleStep(s, running), Finish(SingleStep(s, running), running));
    }
  }

  // ----------------------------------------------------- marking no more than that

  /** r is closed under the slots of the heap and holds the roots. */
  ghost predicate Whole(s: State, r: iset<Ref>) {
    && (forall x, i :: x in s.heap && x in r && 0 <= i < |s.heap[x].slots| && s.heap[x].slots[i].Some? ==>
          s.heap[x].slots[i].value in r)
    && s.mainthread in r
    && (forall i :: 0 <= i < |Roots(s)| && Roots(s)[i].Some? ==> Roots(s)[i].value in r)
  }

  ghost predicate Inside(h: map<Ref, GCObject>, r: iset<Ref>) {
    forall x :: x in h && !h[x].color.White? ==> x in r
  }

  ghost predicate AllIn(q: seq<Option<Ref>>, r: iset<Ref>) {
    forall i :: 0 <= i < |q| && q[i].Some? ==> q[i].value in r
  }

  lemma WholeSame(s: State, t: State, r: iset<Ref>)
    requires Whole(s, r) && t.heap.Keys <= s.heap.Keys && t.mainthread == s.mainthread && Roots(t) == Roots(s)
    requires forall x :: x in t.heap ==> t.heap[x].slots == s.heap[x].slots
    ensures Whole(t, r)
  {
  }

  lemma MarkedWhole(s: State, t: State, r: iset<Ref>)
    requires Whole(s, r) && Recolored(s.heap, t.heap) && t.mainthread == s.mainthread && t.registry == s.registry && t.mt == s.mt
    ensures Whole(t, r)
  {
    WholeSame(s, t, r);
  }

  lemma KidsIn(s: State, x: Ref, r: iset<Ref>)
    requires Markable(s) && x in s.heap && x in r && Whole(s, r)
    ensures AllIn(Kids(s, x), r)
  {
  }

  lemma {:induction false} MarkInside(s: State, x: Ref, r: iset<Ref>)
    requires Markable(s) && x in s.heap && x in r && Whole(s, r) && Inside(s.heap, r)
    ensures Inside(Mark(s, x).heap, r)
    decreases |Whites(s.heap)|, 0
  {
    if s.heap[x].color.White? {
      PaintDarker(s, x);
      KidsWithin(s, x);
      KidsIn(s, x, r);
      MarkedWhole(s, Paint(s, x), r);
      assert Inside(Paint(s, x).heap, r);
      hide NoDead, ClosedIn, ShapedIn, Whole, Inside, Paint, Kids, AllIn;
      MarkAllInside(Paint(s, x), Kids(s, x), r);
    }
  }

  lemma {:induction false} MarkAllInside(s: State, q: seq<Option<Ref>>, r: iset<Ref>)
    requires Markable(s) && Within(s.heap, q) && AllIn(q, r) && Whole(s, r) && Inside(s.heap, r)
    ensures Inside(MarkAll(s, q).heap, r)
    decreases |Whites(s.heap)|, |q|
  {
    hide Markable, Whole, Inside;
    if q != [] {
      AllInTail(q, r);
      if q[0].None? {
        MarkAllInside(s, q[1..], r);
      } else {
        MarkInside(s, q[0].value, r);
        var t := Mark(s, q[0].value);
        MarkedShaded(s, t);
        MarkedWhole(s, t, r);
        MarkAllInside(t, q[1..], r);
      }
    }
  }

  lemma AllInTail(q: seq<Option<Ref>>, r: iset<Ref>)
    requires q != [] && AllIn(q, r)
    ensures AllIn(q[1..], r) && (q[0].Some? ==> q[0].value in r)
  {
  }

  lemma PropagateMarkInside(s: State, r: iset<Ref>)
    requires MarkInv(s) && s.gray != [] && Whole(s, r) && Inside(s.heap, r)
    ensures Markable(s) && s.gray[0] in s.heap && !s.heap[s.gray[0]].color.White?
    ensures Inside(PropagateMark(s).heap, r) && Whole(PropagateMark(s), r)
  {
    PropagateMarkInv(s);
    PickMarkable(s);
    PickInside(s, r);
    hide MarkInv, Markable, Whole, Inside, Pick, AllIn, Within;
    MarkAllInside(Pick(s), s.heap[s.gray[0]].slots, r);
    MarkedWhole(s, PropagateMark(s), r);
  }

  lemma PickInside(s: State, r: iset<Ref>)
    requires s.gray != [] && s.gray[0] in s.heap && !s.heap[s.gray[0]].color.White? && Whole(s, r) && Inside(s.heap, r)
    ensures Whole(Pick(s), r) && Inside(Pick(s).heap, r) && AllIn(s.heap[s.gray[0]].slots, r)
  {
    WholeSame(s, Pick(s), r);
  }

  lemma {:induction false} PropagateAllInside(s: State, r: iset<Ref>)
    requires MarkInv(s) && Whole(s, r) && Inside(s.heap, r)
    ensures Inside(PropagateAll(s).heap, r)
    decreases |Whites(s.heap)| + |s.gray|
  {
    if s.gray != [] {
      PropagateMarkInv(s);
      PropagateMarkInside(s, r);
      hide MarkInv, Whole, Inside;
      PropagateAllInside(PropagateMark(s), r);
    }
  }

  lemma {:induction false} RemarkInside(s: State, q: seq<Ref>, r: iset<Ref>)
    requires MarkInv(s) && Whole(s, r) && Inside(s.heap, r)
    requires forall x :: x in q ==> x in s.heap && s.heap[x].level.Some?
    ensures Inside(RemarkUpvals(s, q).heap, r)
    decreases |q|
  {
    if q != [] {
      if s.heap[q[0]].color == Gray {
        MarkInvMarkable(s);
        KidsWithin(s, q[0]);
        KidsIn(s, q[0], r);
        MarkAllInside(s, Kids(s, q[0]), r);
        MarkAllInv(s, Kids(s, q[0]));
        var t := MarkAll(s, Kids(s, q[0]));
        MarkedWhole(s, t, r);
        hide MarkInv, Whole, Inside, Markable, AllIn, Within, Dark;
        RemarkInside(t, q[1..], r);
      } else {
        RemarkInside(s, q[1..], r);
      }
    }
  }

  lemma RemarkOpenInside(s: State, r: iset<Ref>)
    requires MarkInv(s) && Whole(s, r) && Inside(s.heap, r)
    ensures Inside(RemarkOpen(s).heap, r) && Whole(RemarkOpen(s), r)
  {
    OpenInHeap(s);
    hide MarkInv, Whole, Inside;
    RemarkInside(s, s.openupval, r);
    var u := RemarkUpvals(s, s.openupval);
    MarkedWhole(s, u, r);
    PropagateAllInside(u, r);
    MarkedWhole(s, RemarkOpen(s), r);
  }

  lemma OpenInHeap(s: State)
    requires MarkInv(s)
    ensures forall x :: x in s.openupval ==> x in s.heap && s.heap[x].level.Some?
  {
  }

  lemma RemarkRootsInside(s: State, running: Ref, r: iset<Ref>)
    requires MarkInv(s) && running in s.heap && running in r && Whole(s, r) && Inside(s.heap, r)
    ensures Inside(RemarkRoots(s, running).heap, r) && Whole(RemarkRoots(s, running), r)
  {
    MarkInvMarkable(s);
    var q := [Some(running)] + s.mt;
    RootsWithin(s, running);
    RunningIn(s, running, r);
    MarkAllInv(s, q);
    hide MarkInv, Whole, Inside, AllIn, Within, Markable, Dark;
    MarkAllInside(s, q, r);
    var u := MarkAll(s, q);
    MarkedWhole(s, u, r);
    PropagateAllInside(u, r);
    MarkedWhole(s, RemarkRoots(s, running), r);
  }

  lemma RunningIn(s: State, running: Ref, r: iset<Ref>)
    requires Whole(s, r) && running in r
    ensures AllIn([Some(running)] + s.mt, r)
  {
    var q := [Some(running)] + s.mt;
    forall i | 0 <= i < |q| && q[i].Some?
      ensures q[i].value in r
    {
      assert i > 0 ==> q[i] == Roots(s)[i];
    }
  }

  lemma RemarkGrayagainInside(s: State, r: iset<Ref>)
    requires MarkInv(s) && s.gray == [] && Whole(s, r) && Inside(s.heap, r)
    ensures Inside(RemarkGrayagain(s).heap, r)
  {
    var u := s.(gray := s.grayagain, grayagain := []);
    Regray(s);
    WholeSame(s, u, r);
    hide MarkInv, Whole, Inside;
    PropagateAllInside(u, r);
  }

  /** The atomic step marks nothing outside r. */
  lemma MarkAtomicInside(s: State, running: Ref, r: iset<Ref>)
    requires MarkInv(s) && running in s.heap && running in r && Whole(s, r) && Inside(s.heap, r)
    ensures Inside(MarkAtomic(s, running).heap, r)
  {
    hide MarkInv, Whole, Inside, ThreadsDone, Dark;
    RemarkOpenInside(s, r);
    var s1 := RemarkOpen(s);
    assert running in s1.heap;
    RemarkRootsInside(s1, running, r);
    RemarkGrayagainInside(RemarkRoots(s1, running), r);
  }

  // ------------------------------------------------------------ a whole cycle

  /** Where the cycle stands: what is marked lies in r, and after the flip what
      is live lies in r or is fixed. */
  ghost predicate Exact(s: State, r: iset<Ref>) {
    if s.gcstate == Propagate then Whole(s, r) && Inside(s.heap, r)
    else forall x :: Live(s, x) ==> x in r || s.heap[x].fixed
  }

  lemma MarkRootExact(s: State, r: iset<Ref>)
    requires Inv(s) && s.gcstate == Pause && Whole(s, r)
    ensures Exact(MarkRoot(s), r)
  {
    var s0 := s.(gray := [], grayagain := [], gcstate := Propagate);
    MarkRootReady(s);
    MarkRootInv(s);
    WholeSame(s, s0, r);
    RootValuesIn(s0, r);
    assert Inside(s0.heap, r);
    hide Inv, MarkInv, Sound, Markable, Whole, Inside, Within, AllIn, Marking;
    MarkAllInside(s0, RootValues(s0), r);
    MarkedWhole(s0, MarkRoot(s), r);
  }

  lemma RootValuesIn(s: State, r: iset<Ref>)
    requires s.mainthread in s.heap && Whole(s, r)
    ensures AllIn(RootValues(s), r)
  {
    var q := RootValues(s);
    var k := if s.heap[s.mainthread].slots == [] then 1 else 2;
    forall i | 0 <= i < |q| && q[i].Some?
      ensures q[i].value in r
    {
      assert i >= k ==> q[i] == Roots(s)[i - k];
    }
  }

  lemma SweepHeapExact(h: map<Ref, GCObject>, q: seq<Ref>, w: bool, r: iset<Ref>)
    requires forall x :: LiveIn(h, w, x) ==> x in r || h[x].fixed
    ensures forall x :: LiveIn(SweepHeap(h, q, w), w, x) ==> x in r || SweepHeap(h, q, w)[x].fixed
  {
    forall x | LiveIn(SweepHeap(h, q, w), w, x)
      ensures x in r || SweepHeap(h, q, w)[x].fixed
    {
      assert LiveIn(h, w, x) || h[x].fixed;
    }
  }

  lemma SweepOneExact(s: State, r: iset<Ref>)
    requires Linked(s) && s.sweepgc < |s.rootgc| && s.gcstate == Sweep && Exact(s, r)
    ensures Exact(SweepOne(s), r)
  {
    var x, w := s.rootgc[s.sweepgc], s.currentwhite;
    assert x in s.rootgc;
    assert forall y :: LiveIn(s.heap, w, y) ==> Live(s, y);
    if x == s.mainthread {
      SweepHeapExact(s.heap, s.openupval, w, r);
      SweepHeapExact(SweepOpen(s).heap, [x], w, r);
    } else {
      SweepHeapExact(s.heap, [x], w, r);
    }
  }

  lemma {:induction false} SweepListExact(s: State, n: nat, r: iset<Ref>)
    requires Sweeping(s) && s.gcstate == Sweep && Exact(s, r)
    ensures Exact(SweepList(s, n), r)
    decreases n
  {
    hide Sweeping, Linked, SweepOne, Exact;
    SweepingLinked(s);
    if n > 0 && s.sweepgc < |s.rootgc| {
      SweepOneKeeps(s);
      SweepOneExact(s, r);
      SweepListExact(SweepOne(s), n - 1, r);
    }
  }

  lemma SweepStepExact(s: State, r: iset<Ref>)
    requires Inv(s) && s.gcstate == Sweep && Exact(s, r)
    ensures Exact(SweepStep(s), r)
  {
    InvSweeping(s);
    SweepListExact(s, SWEEP_MAX, r);
    hide Inv, Sweeping, SweepList;
  }

  lemma SweepStringExact(s: State, r: iset<Ref>)
    requires Inv(s) && s.gcstate == Sweepstring && Exact(s, r)
    ensures Exact(SweepString(s), r)
  {
    assert forall y :: LiveIn(s.heap, s.currentwhite, y) ==> Live(s, y);
    SweepHeapExact(s.heap, s.strt[s.sweepstrgc], s.currentwhite, r);
    hide Inv;
  }

  lemma AtomicExact(s: State, running: Ref, r: iset<Ref>)
    requires MarkInv(s) && running in s.heap && running in r && Whole(s, r) && Inside(s.heap, r)
    ensures Exact(Atomic(s, running), r)
  {
    MarkAtomicInside(s, running, r);
    var t := MarkAtomic(s, running);
    forall x | Live(Flip(t), x)
      ensures x in r
    {
      FlipLive(t, x);
    }
  }

  lemma StepExact(s: State, running: Ref, r: iset<Ref>)
    requires Inv(s) && running in s.heap && running in r && s.gcstate != Pause && Exact(s, r)
    ensures Exact(SingleStep(s, running), r)
  {
    match s.gcstate
    case Propagate =>
      MarkInvIsInv(s);
      if s.gray != [] {
        PropagateMarkInside(s, r);
      } else {
        hide Inv;
        AtomicExact(s, running, r);
      }
    case Sweepstring => SweepStringExact(s, r);
    case Sweep => SweepStepExact(s, r);
    case Finalize =>
  }

  lemma {:induction false} FinishExact(s: State, running: Ref, r: iset<Ref>)
    requires Inv(s) && Reachable(s, running) && running in r && Exact(s, r)
    ensures Exact(Finish(s, running), r)
    decreases Rank(s.gcstate), Left(s)
  {
    hide Inv, Reachable, SingleStep, Left, Exact;
    if s.gcstate != Pause {
      StepReady(s, running);
      StepProgress(s, running);
      StepExact(s, running, r);
      FinishExact(SingleStep(s, running), running, r);
    }
  }

  lemma {:induction false} FinishSafe(s: State, running: Ref, x: Ref)
    requires Inv(s) && Reachable(s, running) && Reachable(s, x)
    ensures Reachable(Finish(s, running), x)
    decreases Rank(s.gcstate), Left(s)
  {
    hide Inv, Reachable, SingleStep, Left;
    if s.gcstate != Pause {
      StepReady(s, running);
      StepProgress(s, running);
      CollectIsSafe(s, running, x);
      FinishSafe(SingleStep(s, running), running, x);
    }
  }

  // ---------------------------------------------------------- a full collection

  /** luaC_fullgc first abandons a mark phase under way. */
  function Abandon(s: State, running: Ref): (t: State)
    requires Inv(s) && Reachable(s, running)
    ensures Inv(t) && Reachable(t, running)
  {
    if s.gcstate == Pause || s.gcstate == Propagate then
      ResetInv(s);
      ResetReach(s, running);
      Reset(s)
    else s
  }

  lemma ResetReach(s: State, x: Ref)
    ensures Reachable(s, x) ==> Reachable(Reset(s), x)
  {
    if Reachable(s, x) {
      var p :| Path(s, p) && p[|p| - 1] == x;
      assert Path(Reset(s), p);
    }
  }

  /** One whole cycle, from pause to pause. */
  function Cycle(s: State, running: Ref): (t: State)
    requires Inv(s) && Reachable(s, running) && s.gcstate == Pause
    ensures Inv(t) && t.gcstate == Pause && Reachable(t, running)
  {
    hide Inv, Reachable, SingleStep;
    StepReady(s, running);
    Finish(SingleStep(s, running), running)
  }

  /** luaC_fullgc: end the cycle under way, then run a whole one. */
  function FullGc(s: State, running: Ref): (t: State)
    requires Inv(s) && Reachable(s, running)
    ensures Inv(t) && t.gcstate == Pause && Reachable(t, running)
  {
    hide Inv, Reachable, Finish, Abandon;
    Cycle(Finish(Abandon(s, running), running), running)
  }

  /** The objects that can be reached form a whole. */
  lemma ReachableWhole(s: State)
    requires Inv(s)
    ensures Whole(s, iset x | Reachable(s, x))
  {
    var r := iset x | Reachable(s, x);
    hide Inv;
    assert Path(s, [s.mainthread]);
    assert [s.mainthread][|[s.mainthread]| - 1] == s.mainthread;
    forall i | 0 <= i < |Roots(s)| && Roots(s)[i].Some?
      ensures Roots(s)[i].value in r
    {
      var p := [Roots(s)[i].value];
      assert Path(s, p) && p[|p| - 1] == Roots(s)[i].value;
    }
    forall x, i | x in s.heap && x in r && 0 <= i < |s.heap[x].slots| && s.heap[x].slots[i].Some?
      ensures s.heap[x].slots[i].value in r
    {
      var p :| Path(s, p) && p[|p| - 1] == x;
      ExtendPath(s, p, i);
    }
  }

  lemma ExtendPath(s: State, p: seq<Ref>, i: nat)
    requires Path(s, p) && p[|p| - 1] in s.heap && i < |s.heap[p[|p| - 1]].slots| && s.heap[p[|p| - 1]].slots[i].Some?
    ensures Reachable(s, s.heap[p[|p| - 1]].slots[i].value)
  {
    var q := p + [s.heap[p[|p| - 1]].slots[i].value];
    assert Path(s, q);
  }

  /** After a whole cycle there are only objects that could be reached when it
      began, and fixed ones. */
  lemma CyclePrecise(s: State, running: Ref, x: Ref)
    requires Inv(s) && s.gcstate == Pause && Reachable(s, running) && x in Cycle(s, running).heap
    ensures Reachable(s, x) || Cycle(s, running).heap[x].fixed
  {
    var r := iset y | Reachable(s, y);
    StepReady(s, running);
    ReachableWhole(s);
    CycleStart(s, running, r);
    hide Inv, Whole, Reachable, SingleStep, Finish, Exact;
    FinishExact(SingleStep(s, running), running, r);
    PausedExact(Finish(SingleStep(s, running), running), r, x);
  }

  lemma CycleStart(s: State, running: Ref, r: iset<Ref>)
    requires Inv(s) && s.gcstate == Pause && running in s.heap && Whole(s, r)
    ensures Exact(SingleStep(s, running), r)
  {
    MarkRootExact(s, r);
    hide Inv, Exact, MarkRoot;
  }

  lemma PausedExact(s: State, r: iset<Ref>, x: Ref)
    requires Inv(s) && s.gcstate == Pause && Exact(s, r) && x in s.heap
    ensures x in r || s.heap[x].fixed
  {
    assert Live(s, x);
  }

  lemma CycleKeeps(s: State, running: Ref)
    requires Inv(s) && s.gcstate == Pause && Reachable(s, running)
    ensures Erased(s, Cycle(s, running))
    ensures forall x :: Reachable(s, x) ==> Reachable(Cycle(s, running), x)
  {
    StepReady(s, running);
    var u := SingleStep(s, running);
    hide Inv, Reachable, SingleStep, Erased, Finish;
    StepErased(s, running);
    FinishErased(u, running);
    ErasedTransitive(s, u, Finish(u, running));
    forall x | Reachable(s, x)
      ensures Reachable(Cycle(s, running), x)
    {
      CollectIsSafe(s, running, x);
      FinishSafe(u, running, x);
    }
  }

  lemma AbandonKeeps(s: State, running: Ref)
    requires Inv(s) && Reachable(s, running)
    ensures Erased(s, Abandon(s, running))
    ensures forall x :: Reachable(s, x) ==> Reachable(Abandon(s, running), x)
  {
    forall x | Reachable(s, x)
      ensures Reachable(Abandon(s, running), x)
    {
      ResetReach(s, x);
    }
  }

  lemma FinishedKeeps(s: State, running: Ref)
    requires Inv(s) && Reachable(s, running)
    ensures Erased(s, Finish(Abandon(s, running), running))
    ensures forall x :: Reachable(s, x) ==> Reachable(Finish(Abandon(s, running), running), x)
  {
    var u := Abandon(s, running);
    hide Inv, Reachable, Abandon, Erased, Finish;
    AbandonKeeps(s, running);
    FinishErased(u, running);
    ErasedTransitive(s, u, Finish(u, running));
    forall x | Reachable(s, x)
      ensures Reachable(Finish(u, running), x)
    {
      FinishSafe(u, running, x);
    }
  }

  /** A full collection is safe and complete: the objects that it leaves are
      those that can be reached and the fixed ones, each with the slots it had. */
  lemma FullGcExact(s: State, running: Ref, x: Ref)
    requires Inv(s) && Reachable(s, running)
    ensures x in FullGc(s, running).heap <==> Reachable(s, x) || (x in s.heap && s.heap[x].fixed)
    ensures x in FullGc(s, running).heap ==> x in s.heap && FullGc(s, running).heap[x].slots == s.heap[x].slots
  {
    var u := Finish(Abandon(s, running), running);
    var t := Cycle(u, running);
    FinishedKeeps(s, running);
    CycleKeeps(u, running);
    ErasedTransitive(s, u, t);
    hide Inv, Finish, Abandon, Cycle, Reachable;
    if x in t.heap {
      CyclePrecise(u, running, x);
      if Reachable(u, x) {
        ErasedReach(s, u, x);
      }
    }
    if Reachable(s, x) {
      ReachableIn(t, x);
    }
  }

  lemma FinishStep(s: State, running: Ref)
    requires Inv(s) && Reachable(s, running) && s.gcstate != Pause
    ensures running in s.heap && Inv(SingleStep(s, running)) && Reachable(SingleStep(s, running), running)
    ensures Finish(s, running) == Finish(SingleStep(s, running), running)
  {
    hide Inv, Reachable, SingleStep;
    StepReady(s, running);
  }

  lemma FinishEnd(s: State, running: Ref)
    requires Inv(s) && Reachable(s, running) && s.gcstate == Pause
    ensures Finish(s, running) == s
  {
  }

  /** luaC_fullgc, part by part. */
  lemma AbandonView(s: State, running: Ref)
    requires Inv(s) && Reachable(s, running)
    ensures var a := if s.gcstate == Pause || s.gcstate == Propagate then Reset(s) else s;
            && Inv(a) && Reachable(a, running)
            && var u := Finish(a, running);
            && running in u.heap && Inv(SingleStep(u, running)) && Reachable(SingleStep(u, running), running)
            && FullGc(s, running) == Finish(SingleStep(u, running), running)
  {
    hide Inv, Reachable, SingleStep, Finish;
    var u := Finish(Abandon(s, running), running);
    StepReady(u, running);
  }
}
