/** What the invariant means for every run of the machine. */
module GcSafety {
  import opened Seqs
  import opened GcState
  import opened GcRelease
  import opened GcMark
  import opened GcAtomic
  import opened GcCycle
  import opened GcSweep
  import opened GcMachine

  // -------------------------------------------------------------------- runs

  /** The states that the steps of `run` lead to, each enabled where it stands.  (A
      step is defined where the invariant holds; RunKeepsInv shows that it always
      does.) */
  ghost predicate Run(start: State, run: seq<Step>, states: seq<State>) {
    && |states| == |run| + 1
    && states[0] == start
    && (forall k :: 0 <= k < |run| && Inv(states[k]) ==> Enabled(states[k], run[k]) && states[k + 1] == Next(states[k], run[k]))
  }

  /** A state has just been opened: the main thread is its only object. */
  ghost predicate Initial(s: State) {
    && s.gcstate == Pause && s.registry == None
    && s.heap.Keys == {s.mainthread}
    && s.heap[s.mainthread].kind == TThread && s.heap[s.mainthread].fixed
    && s.heap[s.mainthread].level == None && s.heap[s.mainthread].ref >= 0
    && s.heap[s.mainthread].color == White(s.currentwhite)
    && (forall i :: 0 <= i < |s.heap[s.mainthread].slots| ==> s.heap[s.mainthread].slots[i] == None)
    && (forall i :: 0 <= i < |s.mt| ==> s.mt[i] == None)
    && s.rootgc == [s.mainthread] && s.openupval == []
    && |s.strt| > 0 && (forall b :: 0 <= b < |s.strt| ==> s.strt[b] == [])
  }

  lemma {:induction false} CountNone(q: seq<Option<Ref>>, x: Ref)
    requires forall i :: 0 <= i < |q| ==> q[i] == None
    ensures Count(q, x) == 0
  {
    if q != [] {
      CountNone(q[1..], x);
    }
  }

  lemma InitialInv(s: State)
    requires Initial(s)
    ensures Inv(s)
  {
    InitialClosed(s);
    var m := s.mainthread;
    CountNone(Roots(s), m);
    CountNone(s.heap[m].slots, m);
    assert s.rootgc[1..] == [];
    assert HeldIn(s.heap, s.currentwhite, s.rootgc, m) == 0;
    assert forall x :: x in s.heap <==> x == m;
  }

  lemma InitialClosed(s: State)
    requires Initial(s)
    ensures Closed(s) && Linked(s) && Shaped(s)
  {
    assert forall x :: x in s.heap <==> x == s.mainthread;
  }

  /** Every state of every run satisfies the invariant. */
  lemma {:induction false} RunKeepsInv(start: State, run: seq<Step>, states: seq<State>, k: nat)
    requires Initial(start) && Run(start, run, states) && k < |states|
    ensures Inv(states[k])
  {
    hide Inv;
    if k == 0 {
      InitialInv(start);
    } else {
      RunKeepsInv(start, run, states, k - 1);
      assert states[k] == Next(states[k - 1], run[k - 1]);
    }
  }

  // ----------------------------------------- what the collector leaves in place

  /** Live objects are not erased and keep their slots; the roots stay. */
  ghost predicate KeepsLive(s: State, t: State) {
    && (forall y :: Live(s, y) ==> y in t.heap && t.heap[y].slots == s.heap[y].slots && t.heap[y].kind == s.heap[y].kind)
    && t.mainthread == s.mainthread && Roots(t) == Roots(s)
  }

  /** They even stay live. */
  ghost predicate Spares(s: State, t: State) {
    KeepsLive(s, t) && forall y :: Live(s, y) ==> Live(t, y)
  }

  lemma SparesTransitive(s: State, t: State, u: State)
    requires Spares(s, t) && Spares(t, u)
    ensures Spares(s, u)
  {
  }

  lemma SparesReflexive(s: State)
    ensures Spares(s, s)
  {
  }

  lemma ShadedKeepsLive(s: State, t: State)
    requires Recolored(s.heap, t.heap) && t.mainthread == s.mainthread && t.registry == s.registry && t.mt == s.mt
    ensures KeepsLive(s, t)
  {
  }

  lemma SweepHeapKeeps(h: map<Ref, GCObject>, q: seq<Ref>, w: bool, y: Ref)
    requires LiveIn(h, w, y)
    ensures LiveIn(SweepHeap(h, q, w), w, y)
    ensures SweepHeap(h, q, w)[y].slots == h[y].slots && SweepHeap(h, q, w)[y].kind == h[y].kind
  {
  }

  lemma SweepOneSpares(s: State)
    requires Linked(s) && s.sweepgc < |s.rootgc|
    ensures Spares(s, SweepOne(s))
  {
    var x := s.rootgc[s.sweepgc];
    assert x in s.rootgc;
    if x == s.mainthread {
      SweepOpenSpares(s);
      SweepAtSpares(SweepOpen(s));
      SparesTransitive(s, SweepOpen(s), SweepAt(SweepOpen(s)));
    } else {
      SweepAtSpares(s);
    }
  }

  lemma SweepOpenSpares(s: State)
    requires forall x :: x in s.openupval ==> x in s.heap
    ensures Spares(s, SweepOpen(s))
  {
    var t := SweepOpen(s);
    forall y | Live(s, y)
      ensures Live(t, y) && t.heap[y].slots == s.heap[y].slots && t.heap[y].kind == s.heap[y].kind
    {
      SweepHeapKeeps(s.heap, s.openupval, s.currentwhite, y);
    }
  }

  lemma SweepAtSpares(s: State)
    requires s.sweepgc < |s.rootgc| && s.rootgc[s.sweepgc] in s.heap
    ensures Spares(s, SweepAt(s))
  {
    var t := SweepAt(s);
    forall y | Live(s, y)
      ensures Live(t, y) && t.heap[y].slots == s.heap[y].slots && t.heap[y].kind == s.heap[y].kind
    {
      SweepHeapKeeps(s.heap, [s.rootgc[s.sweepgc]], s.currentwhite, y);
    }
  }

  lemma {:induction false} SweepListSpares(s: State, n: nat)
    requires Sweeping(s)
    ensures Spares(s, SweepList(s, n))
    decreases n
  {
    hide Sweeping, Linked, Spares, SweepOne;
    SweepingLinked(s);
    if n == 0 || s.sweepgc >= |s.rootgc| {
      SparesReflexive(s);
    } else {
      SweepOneSpares(s);
      SweepOneKeeps(s);
      SweepListSpares(SweepOne(s), n - 1);
      SparesTransitive(s, SweepOne(s), SweepList(SweepOne(s), n - 1));
    }
  }

  lemma InvPhaseParts(s: State)
    requires Inv(s) && s.gcstate == Sweepstring
    ensures |s.strt| > 0 && s.sweepstrgc < |s.strt| && (forall b, x :: 0 <= b < |s.strt| && x in s.strt[b] ==> x in s.heap)
  {
  }

  lemma SweepStringSpares(s: State)
    requires Inv(s) && s.gcstate == Sweepstring
    ensures Spares(s, SweepString(s))
  {
    hide Sound, Colored, Shades, SweepHeap;
    InvPhaseParts(s);
    var t := SweepString(s);
    forall y | Live(s, y)
      ensures Live(t, y) && t.heap[y].slots == s.heap[y].slots && t.heap[y].kind == s.heap[y].kind
    {
      SweepHeapKeeps(s.heap, s.strt[s.sweepstrgc], s.currentwhite, y);
    }
  }

  lemma SweepStepSpares(s: State)
    requires Inv(s) && s.gcstate == Sweep
    ensures Spares(s, SweepStep(s))
  {
    InvSweeping(s);
    hide Inv, Sweeping, SweepList, Spares;
    SweepListSpares(s, SWEEP_MAX);
    SparesPhase(s, SweepList(s, SWEEP_MAX), Finalize);
  }

  lemma InvSweeping(s: State)
    requires Inv(s) && s.gcstate == Sweep
    ensures Sweeping(s)
  {
  }

  lemma SparesPhase(s: State, t: State, p: Phase)
    requires Spares(s, t)
    ensures Spares(s, t.(gcstate := p))
  {
  }

  lemma MarkKeepsLive(s: State, running: Ref)
    requires Inv(s) && running in s.heap && (s.gcstate == Pause || s.gcstate == Propagate)
    ensures KeepsLive(s, SingleStep(s, running))
  {
    if s.gcstate == Pause {
      MarkRootInv(s);
      hide Inv, MarkInv, MarkRoot;
      ShadedKeepsLive(s, MarkRoot(s));
    } else {
      MarkInvIsInv(s);
      if s.gray != [] {
        PropagateMarkInv(s);
        hide Inv, MarkInv, PropagateMark;
        ShadedKeepsLive(s, PropagateMark(s));
      } else {
        hide Inv, MarkInv, MarkAtomic, ThreadsDone, Dark;
        AtomicKeepsLive(s, MarkAtomic(s, running));
      }
    }
  }

  lemma AtomicKeepsLive(s: State, t: State)
    requires Shaded(s, t)
    ensures KeepsLive(s, Flip(t))
  {
  }

  /** A step of the collector erases no live object and changes no slot. */
  lemma CollectKeepsLive(s: State, running: Ref)
    requires Inv(s) && running in s.heap
    ensures KeepsLive(s, SingleStep(s, running))
  {
    match s.gcstate
    case Pause => MarkKeepsLive(s, running);
    case Propagate => MarkKeepsLive(s, running);
    case Sweepstring => SweepStringSpares(s);
    case Sweep => SweepStepSpares(s);
    case Finalize =>
  }

  lemma {:induction false} PathsLive(s: State, p: seq<Ref>, k: nat)
    requires Closed(s) && Path(s, p) && k < |p|
    ensures Live(s, p[k])
  {
    var q := p[..k + 1];
    assert Path(s, q);
    PathLive(s, q);
  }

  lemma KeptPath(s: State, t: State, p: seq<Ref>)
    requires Closed(s) && KeepsLive(s, t) && Path(s, p)
    ensures Path(t, p)
  {
    forall k | 0 <= k < |p| - 1
      ensures p[k] in t.heap && Some(p[k + 1]) in t.heap[p[k]].slots
    {
      PathsLive(s, p, k);
    }
  }

  /** The safety of the collector: no step of it, at any point of any run, frees
      an object that can be reached from the roots, or changes what it refers to. */
  lemma CollectIsSafe(s: State, running: Ref, x: Ref)
    requires Inv(s) && running in s.heap && Reachable(s, x)
    ensures x in s.heap && Live(SingleStep(s, running), x) && Reachable(SingleStep(s, running), x)
    ensures SingleStep(s, running).heap[x].slots == s.heap[x].slots
  {
    var t := SingleStep(s, running);
    var p :| Path(s, p) && p[|p| - 1] == x;
    PathLive(s, p);
    CollectKeepsLive(s, running);
    KeptPath(s, t, p);
    SingleStepInv(s, running);
    PathLive(t, p);
  }

  /** Neither a root nor an object that can still be followed refers to x. */
  ghost predicate Unreferenced(s: State, x: Ref) {
    && !Reachable(s, x) && Some(x) !in Roots(s)
    && (forall y :: Live(s, y) ==> Some(x) !in s.heap[y].slots)
  }

  /** The safety of reference counting, and of every other step: an object that
      is freed is referred to by no global slot and by no object that can still
      be followed; whatever can be reached after a step is there. */
  lemma FreedIsUnreferenced(s: State, a: Step, x: Ref)
    requires Inv(s) && Enabled(s, a) && x !in Next(s, a).heap
    ensures Unreferenced(Next(s, a), x)
  {
    var t := Next(s, a);
    UnusedUnreferenced(t, x);
  }

  lemma UnusedUnreferenced(t: State, x: Ref)
    requires Closed(t) && x !in t.heap
    ensures Unreferenced(t, x)
  {
    forall p | Path(t, p)
      ensures p[|p| - 1] != x
    {
      PathLive(t, p);
    }
    forall i | 0 <= i < |Roots(t)|
      ensures Roots(t)[i] != Some(x)
    {
      assert Roots(t)[i].Some? ==> LiveIn(t.heap, t.currentwhite, Roots(t)[i].value);
    }
    forall y, i | Live(t, y) && 0 <= i < |t.heap[y].slots|
      ensures t.heap[y].slots[i] != Some(x)
    {
      assert t.heap[y].slots[i].Some? ==> LiveIn(t.heap, t.currentwhite, t.heap[y].slots[i].value);
    }
  }

  /** In the mark phase, after every step: no black object refers to a white one,
      and each gray table, function, prototype and thread is on one gray list,
      once; the lists hold nothing else. */
  lemma MarkPhase(s: State)
    requires Inv(s) && s.gcstate == Propagate
    ensures forall x, c :: x in s.heap && s.heap[x].color == Black && c in s.heap && Some(c) in s.heap[x].slots ==>
              !s.heap[c].color.White?
    ensures NoDup(s.gray) && NoDup(s.grayagain)
    ensures forall x :: x in s.heap && s.heap[x].Traversable() ==>
              (s.heap[x].color == Gray <==> x in s.gray || x in s.grayagain) && !(x in s.gray && x in s.grayagain)
    ensures forall x :: x in s.gray || x in s.grayagain ==> x in s.heap && s.heap[x].Traversable()
  {
    forall x, c | x in s.heap && s.heap[x].color == Black && c in s.heap && Some(c) in s.heap[x].slots
      ensures !s.heap[c].color.White?
    {
      var i := IndexOf(s.heap[x].slots, Some(c));
      assert !IsWhite(s.heap, s.heap[x].slots[i]);
    }
  }

  /** At all times the count of an object is at least the number of counted slots
      that refer to it, so a count that falls to zero means nobody is left. */
  lemma CountsCover(s: State, x: Ref)
    requires Inv(s) && x in s.heap
    ensures s.heap[x].ref >= Holders(s, x)
    ensures s.heap[x].ref <= 0 ==>
              Some(x) !in Roots(s) && forall y :: Live(s, y) ==> Some(x) !in s.heap[y].slots
  {
    assert s.heap[x].ref >= Holders(s, x) + Count([], x);
    if s.heap[x].ref <= 0 {
      NobodyHolds(s, x, []);
    }
  }

  /** While objects are swept, everything before the cursor is white again. */
  lemma SweepPhase(s: State, i: nat)
    requires Inv(s) && s.gcstate == Sweep && i < s.sweepgc
    ensures i < |s.rootgc| && s.rootgc[i] in s.heap && s.heap[s.rootgc[i]].color == White(s.currentwhite)
  {
    assert s.rootgc[i] in s.rootgc;
  }

  lemma UnreferencedView(t: State, x: Ref)
    requires Unreferenced(t, x) && x !in t.heap
    ensures x != t.mainthread && t.registry != Some(x) && Some(x) !in t.mt
    ensures forall y :: y in t.heap && t.heap[y].color != White(!t.currentwhite) ==> Some(x) !in t.heap[y].slots
  {
    assert Path(t, [t.mainthread]);
    assert Roots(t)[0] == t.registry;
    assert forall i :: 0 <= i < |t.mt| ==> Roots(t)[i + 1] == t.mt[i];
    forall y | y in t.heap && t.heap[y].color != White(!t.currentwhite)
      ensures Some(x) !in t.heap[y].slots
    {
      assert Live(t, y);
    }
  }

  /** The safety of every run: what can be reached is there; a step of the collector
      leaves it there, with the slots it had; and what any step frees is referred to
      by no root and by no object that can still be followed. */
  lemma RunIsSafe(start: State, run: seq<Step>, states: seq<State>, k: nat, x: Ref)
    requires Initial(start) && Run(start, run, states) && k < |run|
    ensures Reachable(states[k], x) ==> x in states[k].heap
    ensures Reachable(states[k], x) && run[k].Collect? ==>
              x in states[k + 1].heap && Reachable(states[k + 1], x) && states[k + 1].heap[x].slots == states[k].heap[x].slots
    ensures x !in states[k + 1].heap ==> Unreferenced(states[k + 1], x)
    ensures x !in states[k + 1].heap ==>
              var t := states[k + 1];
              && x != t.mainthread && t.registry != Some(x) && Some(x) !in t.mt
              && (forall y :: y in t.heap && t.heap[y].color != White(!t.currentwhite) ==> Some(x) !in t.heap[y].slots)
  {
    hide Inv, Reachable, Roots, Live;
    RunKeepsInv(start, run, states, k);
    assert Enabled(states[k], run[k]);
    if x !in states[k + 1].heap {
      FreedIsUnreferenced(states[k], run[k], x);
      UnreferencedView(states[k + 1], x);
    }
    if Reachable(states[k], x) {
      ReachableThere(states[k], x);
      if run[k].Collect? {
        CollectIsSafe(states[k], run[k].running, x);
      }
    }
  }

  lemma ReachableThere(s: State, x: Ref)
    requires Inv(s) && Reachable(s, x)
    ensures x in s.heap
  {
    var p :| Path(s, p) && p[|p| - 1] == x;
    PathLive(s, p);
  }
}
