/** When the head of `grayagain` is not there: over whole runs, exactly if a step in a
    sweep phase has freed it since it came onto the list (src/lgc.c:867-884,
    src/lgc.c:1120-1178). */
module GcHead {
  import opened Seqs
  import opened GcState
  import opened GcRelease
  import opened GcMark
  import opened GcAtomic
  import opened GcCycle
  import opened GcSweep
  import opened GcStore
  import opened GcObjects
  import opened GcFound
  import opened GcMachine
  import opened GcSafety

  predicate Sweeps(s: State) {
    s.gcstate == Sweepstring || s.gcstate == Sweep
  }

  // ------------------------------------------------------------- parts of a step

  /** Objects disappear or keep their kind; outside the mark phase the list stays. */
  ghost predicate Lessens(s: State, t: State) {
    && t.heap.Keys <= s.heap.Keys
    && (forall x :: x in t.heap ==> t.heap[x].kind == s.heap[x].kind)
    && t.gcstate == s.gcstate && (s.gcstate != Propagate ==> t.grayagain == s.grayagain)
  }

  lemma DropLessens(s: State, work: seq<Option<Ref>>)
    requires work != [] && LiveOpt(s, work[0]) && |s.strt| > 0
    ensures Lessens(s, Drop(s, work).0)
  {
  }

  lemma {:induction false} ReleaseLessens(s: State, work: seq<Option<Ref>>)
    requires Sound(s, work)
    ensures Lessens(s, Release(s, work))
    decreases |s.heap|, |work|
  {
    hide Linked, Shaped, Closed, Counts, Drop;
    if work != [] {
      assert LiveOpt(s, work[0]);
      DropSound(s, work);
      DropShrinks(s, work);
      DropLessens(s, work);
      ReleaseLessens(Drop(s, work).0, Drop(s, work).1);
    }
  }

  lemma OverwriteLessens(s: State, o: Ref, i: nat, v: Option<Ref>)
    requires Sound(s, []) && Live(s, o) && i < |s.heap[o].slots| && LiveOpt(s, v)
    ensures Lessens(s, Overwrite(s, o, i, v))
  {
    WriteSound(s, o, i, v);
    WriteFrame(s, o, i, v);
    hide Sound;
    ReleaseLessens(Write(s, o, i, v), [s.heap[o].slots[i]]);
  }

  /** The phase stays; outside the mark phase the list stays, or its head is there.  An
      object that is still there has the kind it had. */
  ghost predicate Minds(s: State, t: State) {
    && t.gcstate == s.gcstate && (s.gcstate != Propagate ==> t.grayagain == s.grayagain || HeadThere(t))
    && (forall x :: x in s.heap && x in t.heap ==> t.heap[x].kind == s.heap[x].kind)
  }

  lemma BarrierMinds(s: State, t: State, o: Ref, v: Option<Ref>)
    requires Lessens(s, t) && o in t.heap && (v.Some? ==> v.value in t.heap) && (t.gcstate == Propagate ==> Markable(t))
    ensures Minds(s, Barrier(t, o, v))
  {
    hide Markable;
  }

  lemma SetSlotMinds(s: State, o: Ref, i: nat, v: Option<Ref>)
    requires Inv(s) && Reachable(s, o) && Live(s, o) && i < |s.heap[o].slots| && LiveOpt(s, v)
    ensures Minds(s, SetSlot(s, o, i, v))
  {
    OverwriteKeeps(s, o, i, v);
    OverwriteLessens(s, o, i, v);
    hide Inv, Sound, Overwrite;
    StoredThere(Overwrite(s, o, i, v), o, v);
    BarrierMinds(s, Overwrite(s, o, i, v), o, v);
  }

  lemma StoredThere(t: State, o: Ref, v: Option<Ref>)
    requires Stored(t, o, v)
    ensures o in t.heap && (v.Some? ==> v.value in t.heap) && (t.gcstate == Propagate ==> Markable(t))
  {
    hide Linked, Shaped, Counts, Shades;
    SoundMarkable(t);
  }

  lemma StoreMinds(s: State, o: Ref, i: nat, v: Option<Ref>)
    requires Inv(s) && Open(s, o, i) && LiveOpt(s, v)
    ensures Minds(s, StoreAt(s, o, i, v))
  {
    OpenLive(s, o, i);
    hide Inv;
    SetSlotMinds(s, o, i, v);
  }

  /** An object has come in, nothing else has changed. */
  ghost predicate Gains(s: State, u: State) {
    && u.gcstate == s.gcstate && u.grayagain == s.grayagain && s.heap.Keys <= u.heap.Keys
    && forall x :: x in s.heap ==> u.heap[x].kind == s.heap[x].kind
  }

  lemma GainMinds(s: State, u: State, o: Ref, i: nat, v: Option<Ref>)
    requires Gains(s, u) && Inv(u) && Open(u, o, i) && LiveOpt(u, v)
    ensures Minds(s, StoreAt(u, o, i, v))
  {
    StoreMinds(u, o, i, v);
  }

  lemma CreateMinds(s: State, a: Step)
    requires Inv(s) && Enabled(s, a) && (a.Create? || a.CreateString? || a.FindString? || a.Capture?)
    ensures Minds(s, Next(s, a))
  {
    hide Inv, Open, StoreAt;
    match a
    case Create(id, kind, slots, o, i) =>
      LinkReady(s, id, kind, slots, o, i);
      GainMinds(s, Link(s, id, kind, slots), o, i, Some(id));
    case CreateString(id, hash, o, i) =>
      NewStringReady(s, id, hash, o, i);
      GainMinds(s, NewString(s, id, hash), o, i, Some(id));
    case FindString(x, o, i) =>
      FoundReady(s, x, o, i);
      GainMinds(s, ChangeWhite(s, x), o, i, Some(x));
    case Capture(id, level, o, i) =>
      CaptureReady(s, id, level, o, i);
      FindGains(s, id, level);
      GainMinds(s, FindUpval(s, id, level).0, o, i, Some(FindUpval(s, id, level).1));
    case _ =>
  }

  lemma FindGains(s: State, id: Ref, level: nat)
    requires Linked(s) && id !in s.heap
    ensures Gains(s, FindUpval(s, id, level).0)
  {
  }

  lemma CloseMinds(s: State)
    requires Inv(s) && s.openupval != []
    ensures Minds(s, CloseUpval(s))
  {
    var u := s.openupval[0];
    assert u in s.openupval;
    if !IsDead(s.heap[u], s.currentwhite) {
      ClosedStored(s);
      TakeOverLessens(s);
      hide Inv, TakeOver;
      StoredThere(TakeOver(s), u, OpenValue(s));
      BarrierMinds(s, TakeOver(s), u, OpenValue(s));
    }
  }

  lemma TakeOverLessens(s: State)
    requires Linked(s) && Shaped(s) && s.openupval != []
    ensures Lessens(s, TakeOver(s))
  {
    assert s.openupval[0] in s.openupval;
  }

  lemma SetMtMinds(s: State, i: nat, v: Option<Ref>)
    requires Inv(s) && i < |s.mt| && LiveOpt(s, v)
    ensures Minds(s, SetTypeMetatable(s, i, v))
  {
    WriteMtSound(s, i, v);
    AddRefsFrame(s.heap, [v]);
    hide Inv, Sound;
    ReleaseLessens(WriteMt(s, i, v), [s.mt[i]]);
  }

  lemma MutatorMinds(s: State, a: Step)
    requires Inv(s) && Enabled(s, a) && !a.Collect? && !a.Restart?
    ensures Minds(s, Next(s, a))
  {
    hide Inv, StoreAt, CloseUpval, SetTypeMetatable;
    match a
    case Store(o, i, v) => StoreMinds(s, o, i, v);
    case Close => CloseMinds(s);
    case SetMt(i, v) => SetMtMinds(s, i, v);
    case _ => CreateMinds(s, a);
  }

  // ------------------------------------------------------------- collector steps

  lemma {:induction false} SweepListLessens(s: State, n: nat)
    requires Sweeping(s) && s.gcstate == Sweep
    ensures Lessens(s, SweepList(s, n))
    decreases n
  {
    hide Sweeping, Linked, RootSwept, SweepOne;
    SweepingLinked(s);
    if n > 0 && s.sweepgc < |s.rootgc| {
      SweepOneKeeps(s);
      SweepOneLessens(s);
      SweepListLessens(SweepOne(s), n - 1);
    }
  }

  lemma SweepOneLessens(s: State)
    requires Linked(s) && s.sweepgc < |s.rootgc|
    ensures Lessens(s, SweepOne(s))
  {
    assert s.rootgc[s.sweepgc] in s.rootgc;
  }

  /** The atomic step leaves objects that are there on the list. */
  lemma AtomicHead(s: State, running: Ref)
    requires MarkInv(s) && running in s.heap
    ensures HeadThere(Atomic(s, running))
  {
    var t := MarkAtomic(s, running);
    MarkHead(t);
    FlipHead(t);
  }

  lemma MarkHead(s: State)
    requires MarkInv(s)
    ensures HeadThere(s)
  {
    hide Sound, RootsMarked;
    if s.grayagain != [] { assert s.grayagain[0] in s.grayagain; }
  }

  lemma FlipHead(s: State)
    requires HeadThere(s)
    ensures HeadThere(Flip(s))
  {
  }

  /** What a collector step does to the head. */
  ghost predicate Collects(s: State, t: State) {
    && (Sweeps(s) ==> t.grayagain == s.grayagain && forall x :: x in s.heap && x in t.heap ==> t.heap[x].kind == s.heap[x].kind)
    && (!Sweeps(s) && Sweeps(t) ==> HeadThere(t))
  }

  lemma CollectHead(s: State, running: Ref)
    requires Inv(s) && running in s.heap
    ensures Collects(s, SingleStep(s, running))
  {
    hide Inv, MarkInv, PropagateMark, Atomic, MarkRoot, SweepString, SweepStep, HeadThere;
    match s.gcstate
    case Pause =>
      MarkRootInv(s);
      MarkInvPhase(MarkRoot(s));
    case Propagate =>
      MarkInvIsInv(s);
      if s.gray != [] {
        PropagateMarkInv(s);
        MarkInvPhase(PropagateMark(s));
      } else {
        AtomicHead(s, running);
      }
    case Sweepstring => SweepStringHead(s);
    case Sweep => SweepHead(s);
    case Finalize =>
  }

  lemma MarkInvPhase(s: State)
    requires MarkInv(s)
    ensures s.gcstate == Propagate
  {
  }

  lemma SweepStringHead(s: State)
    requires Inv(s) && s.gcstate == Sweepstring
    ensures Collects(s, SweepString(s))
  {
  }

  lemma SweepHead(s: State)
    requires Inv(s) && s.gcstate == Sweep
    ensures Collects(s, SweepStep(s))
  {
    assert Sweeping(s);
    hide Inv, Sweeping;
    SweepListLessens(s, SWEEP_MAX);
  }

  // ------------------------------------------------------------------ whole runs

  /** A step into a sweep phase: its head is there, or the step stayed in the sweep and
      left the list alone. */
  lemma StepHead(s: State, a: Step)
    requires Inv(s) && Enabled(s, a) && Sweeps(Next(s, a))
    ensures var t := Next(s, a);
            HeadThere(t) || (Sweeps(s) && t.grayagain == s.grayagain && forall x :: x in s.heap && x in t.heap ==> t.heap[x].kind == s.heap[x].kind)
  {
    hide Inv, SingleStep, StoreAt, CloseUpval, SetTypeMetatable;
    if a.Collect? {
      CollectHead(s, a.running);
    } else if !a.Restart? {
      MutatorMinds(s, a);
    }
  }

  /** The step from j has freed the head of the list, in a sweep phase; up to k the list
      has stayed and nothing with gray links has come to the address. */
  ghost predicate Freed(states: seq<State>, j: nat, k: nat) {
    && j < k < |states| && Sweeps(states[j]) && states[j].grayagain != []
    && HasGrayLinks(states[j].heap, states[j].grayagain[0]) && states[j].grayagain[0] !in states[j + 1].heap
    && forall l :: j < l <= k ==> states[l].grayagain == states[j].grayagain && !HasGrayLinks(states[l].heap, states[j].grayagain[0])
  }

  /** In a sweep the head is not there if and only if a step of that sweep has freed
      it. */
  lemma {:induction false} StaleInRuns(start: State, run: seq<Step>, states: seq<State>, k: nat)
    requires Initial(start) && Run(start, run, states) && k < |states| && Sweeps(states[k])
    ensures !HeadThere(states[k]) <==> exists j :: Freed(states, j, k)
  {
    hide Inv, Next, HasGrayLinks, Enabled, Run;
    if !HeadThere(states[k]) {
      assert k > 0 && Initial(start) by { FirstPauses(start, run, states); }
      StaleBefore(start, run, states, k);
      if HeadThere(states[k - 1]) {
        assert Freed(states, k - 1, k);
      } else {
        StaleInRuns(start, run, states, k - 1);
        var j :| Freed(states, j, k - 1);
        assert Freed(states, j, k);
      }
    }
  }

  lemma FirstPauses(start: State, run: seq<Step>, states: seq<State>)
    requires Initial(start) && Run(start, run, states)
    ensures |states| == |run| + 1 && !Sweeps(states[0])
  {
  }

  /** One step back. */
  lemma StaleBefore(start: State, run: seq<Step>, states: seq<State>, k: nat)
    requires Initial(start) && Run(start, run, states) && 0 < k < |states| && Sweeps(states[k]) && !HeadThere(states[k])
    ensures var s, t := states[k - 1], states[k];
            && Sweeps(s) && t.grayagain == s.grayagain != []
            && (HasGrayLinks(s.heap, s.grayagain[0]) ==> s.grayagain[0] !in t.heap)
  {
    hide Inv, Next, Enabled, Run, Initial;
    RunStep(start, run, states, k - 1);
    StepHead(states[k - 1], run[k - 1]);
  }

  lemma RunStep(start: State, run: seq<Step>, states: seq<State>, k: nat)
    requires Initial(start) && Run(start, run, states) && k + 1 < |states|
    ensures k < |run| && Inv(states[k]) && Enabled(states[k], run[k]) && states[k + 1] == Next(states[k], run[k])
  {
    hide Inv, Next, Enabled, Initial;
    RunKeepsInv(start, run, states, k);
  }
}
