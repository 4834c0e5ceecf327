/** Reference counting is prompt: in every run, whatever the collector is doing, an
    object is freed by the step that takes its last reference away
    (src/lobject.h:147-165, src/lobject.c:238-241, src/lgc.c:931-1256). */
module GcPrompt {
  import opened Seqs
  import opened GcState
  import opened GcRelease
  import opened GcMark
  import opened GcAtomic
  import opened GcCycle
  import opened GcSweep
  import opened GcObjects
  import opened GcFound
  import opened GcMachine
  import opened GcSafety
  import GcStore

  /** What may be left without a reference: nothing but fixed objects, userdata that
      are finalized, and upvalues, which stay on the list of the open ones and close
      without having been counted. */
  predicate Exempt(o: GCObject) {
    o.fixed || (o.kind == TUserdata && o.finalized) || o.kind == TUpval
  }

  ghost predicate Prompt(h: map<Ref, GCObject>) {
    forall x :: x in h && h[x].ref <= 0 ==> Exempt(h[x])
  }

  /** Prompt, but for the object that is about to be stored. */
  ghost predicate PromptBut(h: map<Ref, GCObject>, id: Ref) {
    forall x :: x in h && x != id && h[x].ref <= 0 ==> Exempt(h[x])
  }

  // ---------------------------------------------------------------- the collector

  /** Objects may go; those that are left may have another color, and userdata may
      have been separated. */
  ghost predicate Tinted(h: map<Ref, GCObject>, g: map<Ref, GCObject>) {
    forall x :: x in g ==>
      && x in h && g[x] == h[x].(color := g[x].color, finalized := g[x].finalized)
      && (h[x].finalized ==> g[x].finalized)
  }

  lemma TintedPrompt(h: map<Ref, GCObject>, g: map<Ref, GCObject>)
    requires Tinted(h, g) && Prompt(h)
    ensures Prompt(g)
  {
  }

  lemma SweepHeapTints(h: map<Ref, GCObject>, q: seq<Ref>, w: bool)
    ensures Tinted(h, SweepHeap(h, q, w))
  {
  }

  lemma SweepOneTints(s: State)
    requires Linked(s) && s.sweepgc < |s.rootgc|
    ensures Tinted(s.heap, SweepOne(s).heap)
  {
    hide SweepHeap, Kept, OpenListed, StringsListed;
    var x := s.rootgc[s.sweepgc];
    assert x in s.rootgc;
    if x == s.mainthread {
      assert forall y :: y in s.openupval ==> y in s.heap by { OpenThere(s); }
      SweepHeapTints(s.heap, s.openupval, s.currentwhite);
      SweepHeapTints(SweepOpen(s).heap, [x], s.currentwhite);
    } else {
      SweepHeapTints(s.heap, [x], s.currentwhite);
    }
  }

  lemma OpenThere(s: State)
    requires OpenListed(s.heap, s.openupval)
    ensures forall y :: y in s.openupval ==> y in s.heap
  {
  }

  lemma {:induction false} SweepListTints(s: State, n: nat)
    requires Sweeping(s)
    ensures Tinted(s.heap, SweepList(s, n).heap)
    decreases n
  {
    hide Sweeping, Linked, SweepOne;
    SweepingLinked(s);
    if n > 0 && s.sweepgc < |s.rootgc| {
      SweepOneTints(s);
      SweepOneKeeps(s);
      SweepListTints(SweepOne(s), n - 1);
    }
  }

  lemma ShadedTints(s: State, t: State)
    requires Shaded(s, t)
    ensures Tinted(s.heap, t.heap)
  {
  }

  lemma FlipTints(s: State, t: State)
    requires Shaded(s, t)
    ensures Tinted(s.heap, Flip(t).heap)
  {
  }

  lemma MarkTints(s: State, running: Ref)
    requires Inv(s) && running in s.heap && (s.gcstate == Pause || s.gcstate == Propagate)
    ensures Tinted(s.heap, SingleStep(s, running).heap)
  {
    if s.gcstate == Pause {
      MarkRootInv(s);
      hide Inv, MarkInv, MarkRoot, Tinted, Shaded;
      ShadedTints(s.(gray := [], grayagain := [], gcstate := Propagate), MarkRoot(s));
    } else {
      MarkInvIsInv(s);
      if s.gray != [] {
        PropagateMarkInv(s);
        hide Inv, MarkInv, PropagateMark, Tinted, Shaded;
        ShadedTints(s, PropagateMark(s));
      } else {
        hide Inv, MarkInv, MarkAtomic, ThreadsDone, Tinted, Shaded;
        FlipTints(s, MarkAtomic(s, running));
      }
    }
  }

  lemma CollectTints(s: State, running: Ref)
    requires Inv(s) && running in s.heap
    ensures Tinted(s.heap, SingleStep(s, running).heap)
  {
    match s.gcstate
    case Pause => MarkTints(s, running);
    case Propagate => MarkTints(s, running);
    case Sweepstring =>
      hide Sound, Colored, Shades, SweepHeap;
      InvPhaseParts(s);
      SweepHeapTints(s.heap, s.strt[s.sweepstrgc], s.currentwhite);
    case Sweep =>
      InvSweeping(s);
      hide Inv, Sweeping, SweepList;
      SweepListTints(s, SWEEP_MAX);
    case Finalize =>
  }

  // ------------------------------------------------------------------ the mutator

  /** The object stored into stays, holds the value, and so the value is counted. */
  lemma StoredCounts(s: State, o: Ref, i: nat, v: Option<Ref>)
    requires Inv(s) && Reachable(s, o) && Live(s, o) && i < |s.heap[o].slots| && LiveOpt(s, v)
    ensures var t := GcStore.SetSlot(s, o, i, v);
      v.Some? && v.value in t.heap ==> t.heap[v.value].ref >= 1
  {
    GcStore.OverwriteKeeps(s, o, i, v);
    GcStore.BarrierRepaints(GcStore.Overwrite(s, o, i, v), o, v);
    GcStore.SetSlotExact(s, o, i, v, o);
    var t := GcStore.SetSlot(s, o, i, v);
    hide GcStore.Overwrite, GcStore.Barrier, GcStore.Write, Reachable, Holders;
    assert Live(t, o) && t.heap[o].slots[i] == v;
    if v.Some? && v.value in t.heap {
      HeldPositive(t, o, i, v.value);
      assert t.heap[v.value].ref >= Holders(t, v.value) + Count([], v.value);
    }
  }

  lemma ExchangedPrompt(s: State, t: State, o: Ref, i: nat, v: Option<Ref>, x: Ref)
    requires o in s.heap && i < |s.heap[o].slots| && x in s.heap && x in t.heap
    requires (forall y :: y in s.rootgc ==> y in s.heap) && (forall y :: y in t.rootgc ==> y in t.heap)
    requires GcStore.Exchanged(s, t, o, i, v, x)
    ensures t.heap[x].ref <= 0 ==> Exempt(t.heap[x]) || (s.heap[x].ref <= 0 && !Exempt(s.heap[x]) && t.heap[x].ref >= s.heap[x].ref) || t.heap[x].level.Some?
  {
    hide Holders;
  }

  lemma StoredPrompt(s: State, o: Ref, i: nat, v: Option<Ref>, x: Ref)
    requires Inv(s) && Reachable(s, o) && Live(s, o) && i < |s.heap[o].slots| && LiveOpt(s, v)
    requires if v.Some? then PromptBut(s.heap, v.value) else Prompt(s.heap)
    requires x in s.heap
    ensures var t := GcStore.SetSlot(s, o, i, v);
      t.heap.Keys <= s.heap.Keys && (x in t.heap && t.heap[x].ref <= 0 ==> Exempt(t.heap[x]))
  {
    var t := GcStore.SetSlot(s, o, i, v);
    StoredCounts(s, o, i, v);
    OpenUpvals(t);
    hide Inv, GcStore.SetSlot, GcStore.Exchanged, GcStore.LeftAs, Holders, Reachable, LiveOpt;
    GcStore.SetSlotExact(s, o, i, v, x);
    if x in t.heap {
      ExchangedPrompt(s, t, o, i, v, x);
    }
  }

  /** What a store leaves is prompt, even where the value stored was not counted yet. */
  lemma StorePrompt(s: State, o: Ref, i: nat, v: Option<Ref>)
    requires Inv(s) && Open(s, o, i) && LiveOpt(s, v)
    requires if v.Some? then PromptBut(s.heap, v.value) else Prompt(s.heap)
    ensures Prompt(StoreAt(s, o, i, v).heap)
  {
    OpenLive(s, o, i);
    var t := GcStore.SetSlot(s, o, i, v);
    hide Inv, GcStore.SetSlot, PromptBut, Exempt, Holders, Reachable, LiveOpt;
    forall x | x in s.heap
      ensures t.heap.Keys <= s.heap.Keys && (x in t.heap && t.heap[x].ref <= 0 ==> Exempt(t.heap[x]))
    {
      StoredPrompt(s, o, i, v, x);
    }
  }

  lemma OpenUpvals(s: State)
    requires Inv(s)
    ensures forall x :: x in s.heap && s.heap[x].level.Some? ==> s.heap[x].kind == TUpval
  {
  }

  lemma SetMtPrompt(s: State, i: nat, v: Option<Ref>)
    requires Inv(s) && i < |s.mt| && LiveOpt(s, v) && Prompt(s.heap)
    ensures Prompt(SetTypeMetatable(s, i, v).heap)
  {
    var u := WriteMt(s, i, v);
    WriteMtSound(s, i, v);
    ReleaseExact(u, [s.mt[i]]);
    OpenUpvals(SetTypeMetatable(s, i, v));
    hide Inv, Sound, Holders, Release, GcState.Count;
    RefsGrow(s, i, v);
  }

  lemma RefsGrow(s: State, i: nat, v: Option<Ref>)
    requires i < |s.mt| && Prompt(s.heap)
    ensures Prompt(WriteMt(s, i, v).heap)
  {
    GcStore.AddRefsFrame(s.heap, [v]);
  }

  lemma ClosePrompt(s: State)
    requires Inv(s) && s.openupval != [] && Prompt(s.heap)
    ensures Prompt(CloseUpval(s).heap)
  {
    var u := s.openupval[0];
    assert u in s.openupval;
    if !IsDead(s.heap[u], s.currentwhite) {
      ClosedStored(s);
      TakeOverPrompt(s);
      hide Inv, GcStore.Stored, TakeOver;
      RepaintedPrompt(TakeOver(s), u, OpenValue(s));
    } else {
      hide Inv;
    }
  }

  lemma RepaintedPrompt(s: State, o: Ref, v: Option<Ref>)
    requires GcStore.Stored(s, o, v) && Prompt(s.heap)
    ensures s.gcstate == Propagate ==> Markable(s)
    ensures Prompt(GcStore.Barrier(s, o, v).heap)
  {
    hide GcStore.Stored;
    GcStore.BarrierRepaints(s, o, v);
  }

  lemma TakeOverPrompt(s: State)
    requires Linked(s) && Shaped(s) && s.openupval != [] && Prompt(s.heap)
    ensures Prompt(TakeOver(s).heap)
  {
    TakeOverShape(s);
    var u, v := s.openupval[0], OpenValue(s);
    assert u in s.openupval;
    var c := TakeOver(s).heap[u].color;
    GcStore.AddRefsFrame(s.heap[u := s.heap[u].(color := c, slots := [v], level := None)], [v]);
  }

  lemma LinkPrompt(s: State, id: Ref, kind: Kind, slots: seq<Option<Ref>>)
    requires s.mainthread in s.rootgc && id !in s.heap && Prompt(s.heap)
    ensures PromptBut(Link(s, id, kind, slots).heap, id)
  {
    LinkFrame(s.heap, id, Fresh(s.currentwhite, kind, slots, None, 0), slots);
  }

  lemma NewStringPrompt(s: State, id: Ref, hash: nat)
    requires |s.strt| > 0 && id !in s.heap && Prompt(s.heap)
    ensures PromptBut(NewString(s, id, hash).heap, id)
  {
  }

  lemma FoundPrompt(s: State, x: Ref)
    requires x in s.heap && Prompt(s.heap)
    ensures PromptBut(ChangeWhite(s, x).heap, x)
  {
  }

  lemma CapturePrompt(s: State, id: Ref, level: nat)
    requires Linked(s) && id !in s.heap && Prompt(s.heap)
    ensures var r := FindUpval(s, id, level); PromptBut(r.0.heap, r.1)
  {
    hide RootListed, StringsListed;
    var k := ScanOpen(s.heap, s.openupval, level);
    if FoundOpen(s, level) {
      assert s.openupval[k] in s.openupval;
      FoundPrompt(s, s.openupval[k]);
    }
  }

  // --------------------------------------------------------------------- every run

  /** No step leaves an object without a reference, exempt ones apart. */
  lemma StepPrompt(s: State, a: Step)
    requires Inv(s) && Enabled(s, a) && Prompt(s.heap)
    ensures Prompt(Next(s, a).heap)
  {
    hide Inv, Prompt, PromptBut, Open, LiveOpt, Link, NewString, ChangeWhite, FindUpval, StoreAt, CloseUpval, SetTypeMetatable, SingleStep, Tinted;
    match a
    case Collect(running) =>
      CollectTints(s, running);
      TintedPrompt(s.heap, SingleStep(s, running).heap);
    case Restart =>
    case Store(o, i, v) =>
      PromptAnyway(s.heap, v);
      StorePrompt(s, o, i, v);
    case Create(id, kind, slots, o, i) =>
      LinkReady(s, id, kind, slots, o, i);
      LinkPrompt(s, id, kind, slots);
      StoreNew(Link(s, id, kind, slots), o, i, id);
    case CreateString(id, hash, o, i) =>
      NewStringReady(s, id, hash, o, i);
      NewStringPrompt(s, id, hash);
      StoreNew(NewString(s, id, hash), o, i, id);
    case FindString(x, o, i) =>
      FoundReady(s, x, o, i);
      FoundPrompt(s, x);
      StoreNew(ChangeWhite(s, x), o, i, x);
    case Capture(id, level, o, i) =>
      CaptureReady(s, id, level, o, i);
      CapturePrompt(s, id, level);
      var r := FindUpval(s, id, level);
      StoreNew(r.0, o, i, r.1);
    case Close => ClosePrompt(s);
    case SetMt(i, v) => SetMtPrompt(s, i, v);
  }

  lemma PromptAnyway(h: map<Ref, GCObject>, v: Option<Ref>)
    requires Prompt(h)
    ensures if v.Some? then PromptBut(h, v.value) else Prompt(h)
  {
  }

  lemma StoreNew(s: State, o: Ref, i: nat, id: Ref)
    requires Inv(s) && Open(s, o, i) && Live(s, id) && PromptBut(s.heap, id)
    ensures LiveOpt(s, Some(id)) && Prompt(StoreAt(s, o, i, Some(id)).heap)
  {
    StorePrompt(s, o, i, Some(id));
  }

  /** In every state of every run, whatever the phase of the collector, an object
      whose count is zero is fixed, a userdata that is finalized, or an upvalue. */
  lemma RunIsPrompt(start: State, run: seq<Step>, states: seq<State>, k: nat, x: Ref)
    requires Initial(start) && Run(start, run, states) && k < |states|
    requires x in states[k].heap && states[k].heap[x].ref <= 0
    ensures var o := states[k].heap[x]; o.fixed || (o.kind == TUserdata && o.finalized) || o.kind == TUpval
  {
    RunPrompt(start, run, states, k);
    hide Run, Initial;
  }

  lemma {:induction false} RunPrompt(start: State, run: seq<Step>, states: seq<State>, k: nat)
    requires Initial(start) && Run(start, run, states) && k < |states|
    ensures Prompt(states[k].heap)
  {
    hide *;
    if k == 0 {
      RunStarts(start, run, states);
      StartPrompt(start);
    } else {
      RunLength(start, run, states);
      RunPrompt(start, run, states, k - 1);
      RunKeepsInv(start, run, states, k - 1);
      RunSteps(start, run, states, k - 1);
      StepPrompt(states[k - 1], run[k - 1]);
    }
  }

  lemma RunLength(start: State, run: seq<Step>, states: seq<State>)
    requires Run(start, run, states)
    ensures |states| == |run| + 1
  {
    hide Inv, Enabled;
  }

  lemma RunStarts(start: State, run: seq<Step>, states: seq<State>)
    requires Run(start, run, states)
    ensures |states| > 0 && states[0] == start
  {
    hide Inv, Enabled;
  }

  lemma RunSteps(start: State, run: seq<Step>, states: seq<State>, k: nat)
    requires Run(start, run, states) && k < |run| && k < |states| && Inv(states[k])
    ensures k + 1 < |states| && Enabled(states[k], run[k]) && states[k + 1] == Next(states[k], run[k])
  {
    hide Inv, Enabled;
  }

  lemma StartPrompt(start: State)
    requires Initial(start)
    ensures Prompt(start.heap)
  {
    assert forall x :: x in start.heap <==> x == start.mainthread;
  }
}
