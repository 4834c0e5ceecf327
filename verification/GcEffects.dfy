/** What the steps do besides keeping the invariant: which objects are fixed, how the
    list `rootgc` is ordered, which userdata an atomic step leaves to the sweep, and what
    new objects look like (src/lgc.c:147-186, src/lgc.c:887-928, src/lstring.c:50-135,
    src/lfunc.c:76-151, src/lapi.c:1133-1180). */
module GcEffects {
  import opened Seqs
  import opened GcState
  import opened GcRelease
  import opened GcMark
  import opened GcAtomic
  import opened GcCycle
  import opened GcSweep
  import opened GcObjects
  import opened GcFound
  import opened GcMachine
  import opened GcSafety
  import opened GcPrompt
  import GcFull
  import GcStore

  // -------------------------------------------------------------- the order of rootgc

  predicate IsUdata(h: map<Ref, GCObject>, x: Ref) {
    x in h && h[x].kind == TUserdata
  }

  /** The userdata of a list are those behind the main thread. */
  ghost predicate Split(h: map<Ref, GCObject>, q: seq<Ref>, m: Ref) {
    forall i, j :: 0 <= i < |q| && 0 <= j < |q| && q[j] == m ==> (IsUdata(h, q[i]) <==> i > j)
  }

  ghost predicate Ordered(s: State) {
    Split(s.heap, s.rootgc, s.mainthread)
  }

  /** What is in both heaps has the same kind. */
  ghost predicate SameKinds(h: map<Ref, GCObject>, g: map<Ref, GCObject>, q: seq<Ref>) {
    forall x :: x in q ==> (IsUdata(g, x) <==> IsUdata(h, x))
  }

  lemma SplitSame(h: map<Ref, GCObject>, g: map<Ref, GCObject>, q: seq<Ref>, m: Ref)
    requires Split(h, q, m) && SameKinds(h, g, q)
    ensures Split(g, q, m)
  {
    forall i, j | 0 <= i < |q| && 0 <= j < |q| && q[j] == m
      ensures IsUdata(g, q[i]) <==> i > j
    {
      assert q[i] in q;
    }
  }

  lemma SplitWithout(h: map<Ref, GCObject>, q: seq<Ref>, m: Ref, k: nat)
    requires Split(h, q, m) && k < |q|
    ensures Split(h, q[..k] + q[k + 1..], m)
  {
    var r := q[..k] + q[k + 1..];
    forall i, j | 0 <= i < |r| && 0 <= j < |r| && r[j] == m
      ensures IsUdata(h, r[i]) <==> i > j
    {
      var i', j' := if i < k then i else i + 1, if j < k then j else j + 1;
      assert r[i] == q[i'] && r[j] == q[j'];
    }
  }

  lemma SplitInsert(h: map<Ref, GCObject>, q: seq<Ref>, m: Ref, k: nat, x: Ref)
    requires Split(h, q, m) && k <= |q| && x != m && m in q
    requires if IsUdata(h, x) then k > 0 && q[k - 1] == m else k == 0
    ensures Split(h, Insert(q, k, x), m)
  {
    var r := Insert(q, k, x);
    forall i, j | 0 <= i < |r| && 0 <= j < |r| && r[j] == m
      ensures IsUdata(h, r[i]) <==> i > j
    {
      var j' := if j < k then j else j - 1;
      assert q[j'] == m;
      if i != k {
        var i' := if i < k then i else i - 1;
        assert r[i] == q[i'];
      } else if k > 0 {
        assert q[k - 1] == m;
        assert IsUdata(h, q[k - 1]) <==> k - 1 > k - 1;
        assert IsUdata(h, q[j']) <==> j' > k - 1;
      }
    }
  }

  // ------------------------------------------------------------------- every step

  lemma DropOrdered(s: State, work: seq<Option<Ref>>)
    requires Sound(s, work) && work != [] && LiveOpt(s, work[0]) && Ordered(s)
    ensures Ordered(Drop(s, work).0)
  {
    hide Split, Shaped, Closed, Counts, AllLive, OpenListed, StringsListed, Remove;
    if work[0].Some? {
      var c := work[0].value;
      var s1 := Decrement(s, c);
      NatureKinds(s.heap, s1.heap, s.rootgc);
      SplitSame(s.heap, s1.heap, s.rootgc, s.mainthread);
      if s1.heap[c].ref <= 0 && s1.heap[c].Releasable() {
        DecrementSound(s, work);
        RemoveOrdered(s1, c);
      }
    }
  }

  lemma RemoveOrdered(s: State, c: Ref)
    requires |s.strt| > 0 && RootListed(s.heap, s.rootgc) && c in s.heap && Ordered(s)
    ensures Ordered(Remove(s, c))
  {
    hide Split;
    var t := Remove(s, c);
    if c in s.rootgc {
      var k := IndexOf(s.rootgc, c);
      WithoutAt(s.rootgc, k);
      SplitWithout(s.heap, s.rootgc, s.mainthread, k);
    }
    assert c !in t.rootgc;
    NatureKinds(s.heap, t.heap, t.rootgc);
    SplitSame(s.heap, t.heap, t.rootgc, s.mainthread);
  }

  lemma {:induction false} ReleaseOrdered(s: State, work: seq<Option<Ref>>)
    requires Sound(s, work) && Ordered(s)
    ensures Ordered(Release(s, work)) && Release(s, work).mainthread == s.mainthread
    decreases |s.heap|, |work|
  {
    hide Linked, Shaped, Closed, Counts, AllLive, Drop, Ordered;
    if work != [] {
      FirstRefLive(s, work);
      DropSound(s, work);
      DropShrinks(s, work);
      DropOrdered(s, work);
      ReleaseOrdered(Drop(s, work).0, Drop(s, work).1);
    }
  }

  lemma TintedKinds(h: map<Ref, GCObject>, g: map<Ref, GCObject>, q: seq<Ref>)
    requires Tinted(h, g) && forall x :: x in q ==> x in g
    ensures SameKinds(h, g, q)
  {
  }

  lemma SweepAtOrdered(s: State)
    requires s.sweepgc < |s.rootgc| && s.rootgc[s.sweepgc] in s.heap && Ordered(s)
    requires forall x :: x in SweepAt(s).rootgc ==> x in SweepAt(s).heap
    ensures Ordered(SweepAt(s))
  {
    var k, x := s.sweepgc, s.rootgc[s.sweepgc];
    var t := SweepAt(s);
    hide Split;
    SweepHeapTints(s.heap, [x], s.currentwhite);
    if x in t.heap {
      assert t.rootgc == s.rootgc by { assert Kept(s.heap, [x], s.currentwhite) == [x]; }
    } else {
      assert t.rootgc == s.rootgc[..k] + s.rootgc[k + 1..] by { assert Kept(s.heap, [x], s.currentwhite) == []; }
      SplitWithout(s.heap, s.rootgc, s.mainthread, k);
    }
    hide SweepHeap, Kept;
    TintedKinds(s.heap, t.heap, t.rootgc);
    SplitSame(s.heap, t.heap, t.rootgc, s.mainthread);
  }

  lemma SweepOneOrdered(s: State)
    requires Sweeping(s) && s.sweepgc < |s.rootgc| && Ordered(s)
    ensures Ordered(SweepOne(s)) && SweepOne(s).mainthread == s.mainthread
  {
    SweepOneKeeps(s);
    SweepingListed(s);
    SweepingListed(SweepOne(s));
    hide Sweeping, Split, Linked, SweepAt, SweepHeap, Kept;
    var x := s.rootgc[s.sweepgc];
    assert x in s.rootgc;
    if x == s.mainthread {
      var u := SweepOpen(s);
      SweepHeapTints(s.heap, s.openupval, s.currentwhite);
      OpenOthers(s);
      TintedKinds(s.heap, u.heap, s.rootgc);
      SplitSame(s.heap, u.heap, s.rootgc, s.mainthread);
      SweepAtOrdered(u);
      SweepAtMain(u);
    } else {
      SweepAtOrdered(s);
      SweepAtMain(s);
    }
  }

  lemma SweepAtMain(s: State)
    requires s.sweepgc < |s.rootgc| && s.rootgc[s.sweepgc] in s.heap
    ensures SweepAt(s).mainthread == s.mainthread
  {
  }

  lemma SweepingListed(s: State)
    requires Sweeping(s)
    ensures Linked(s) && (forall x :: x in s.rootgc ==> x in s.heap) && (forall x :: x in s.openupval ==> x in s.heap)
  {
  }

  /** The sweep of the open upvalues leaves the objects of `rootgc` alone. */
  lemma OpenOthers(s: State)
    requires Linked(s) && forall x :: x in s.openupval ==> x in s.heap
    ensures forall x :: x in s.rootgc ==> x in SweepOpen(s).heap
  {
    forall x | x in s.rootgc
      ensures x in SweepHeap(s.heap, s.openupval, s.currentwhite)
    {
      assert x !in s.openupval;
    }
  }

  lemma {:induction false} SweepListOrdered(s: State, n: nat)
    requires Sweeping(s) && Ordered(s)
    ensures Ordered(SweepList(s, n)) && SweepList(s, n).mainthread == s.mainthread
    decreases n
  {
    hide Sweeping, Linked, SweepOne, Ordered;
    SweepingLinked(s);
    if n > 0 && s.sweepgc < |s.rootgc| {
      SweepOneOrdered(s);
      SweepOneKeeps(s);
      SweepListOrdered(SweepOne(s), n - 1);
    }
  }

  lemma TintedOrdered(s: State, t: State)
    requires Ordered(s) && Tinted(s.heap, t.heap) && t.rootgc == s.rootgc && t.mainthread == s.mainthread
    requires forall x :: x in t.rootgc ==> x in t.heap
    ensures Ordered(t)
  {
    hide Split;
    TintedKinds(s.heap, t.heap, t.rootgc);
    SplitSame(s.heap, t.heap, t.rootgc, s.mainthread);
  }

  lemma Listed(s: State)
    requires Inv(s)
    ensures forall x :: x in s.rootgc ==> x in s.heap
    ensures s.mainthread in s.rootgc
  {
    MainListed(s);
  }

  /** Only the sweep of `rootgc` takes objects from that list. */
  lemma OtherSteps(s: State, running: Ref)
    requires Inv(s) && running in s.heap && s.gcstate != Sweep
    ensures var t := SingleStep(s, running); t.rootgc == s.rootgc && t.mainthread == s.mainthread
  {
    if s.gcstate == Pause {
      MarkRootInv(s);
    } else if s.gcstate == Propagate {
      MarkInvIsInv(s);
      if s.gray != [] {
        PropagateMarkInv(s);
      } else {
        hide Inv, MarkInv, MarkAtomic, ThreadsDone;
      }
    } else {
      hide Inv;
    }
  }

  lemma CollectOrdered(s: State, running: Ref)
    requires Inv(s) && running in s.heap && Ordered(s)
    ensures Ordered(SingleStep(s, running))
  {
    if s.gcstate == Sweep {
      InvSweeping(s);
      hide Inv, Sweeping, SweepList;
      SweepListOrdered(s, SWEEP_MAX);
    } else {
      OtherSteps(s, running);
      CollectTints(s, running);
      SingleStepInv(s, running);
      hide Ordered, Tinted, Inv, SingleStep;
      Listed(SingleStep(s, running));
      TintedOrdered(s, SingleStep(s, running));
    }
  }

  /** The parts of an object that no step changes. */
  ghost predicate SameNature(h: map<Ref, GCObject>, g: map<Ref, GCObject>) {
    forall x :: x in g && x in h ==> g[x].kind == h[x].kind && g[x].fixed == h[x].fixed
  }

  lemma NatureKinds(h: map<Ref, GCObject>, g: map<Ref, GCObject>, q: seq<Ref>)
    requires SameNature(h, g) && forall x :: x in q ==> x in g && x in h
    ensures SameKinds(h, g, q)
  {
  }

  lemma BarrierOrdered(s: State, o: Ref, v: Option<Ref>)
    requires GcStore.Stored(s, o, v) && Ordered(s)
    ensures s.gcstate == Propagate ==> Markable(s)
    ensures Ordered(GcStore.Barrier(s, o, v))
  {
    GcStore.BarrierRepaints(s, o, v);
    assert forall x :: x in s.rootgc ==> x in s.heap by { GcStore.SoundLinked(s); }
    hide Split, GcStore.Stored;
    var t := GcStore.Barrier(s, o, v);
    NatureKinds(s.heap, t.heap, s.rootgc);
    SplitSame(s.heap, t.heap, s.rootgc, s.mainthread);
  }

  lemma OverwriteOrdered(s: State, o: Ref, i: nat, v: Option<Ref>)
    requires Sound(s, []) && Live(s, o) && i < |s.heap[o].slots| && LiveOpt(s, v) && Ordered(s)
    ensures Ordered(GcStore.Overwrite(s, o, i, v))
  {
    GcStore.WriteSound(s, o, i, v);
    GcStore.WriteFrame(s, o, i, v);
    GcStore.SoundLinked(s);
    var u := GcStore.Write(s, o, i, v);
    hide Split, Sound, OpenListed, StringsListed;
    assert u.rootgc == s.rootgc && u.mainthread == s.mainthread;
    NatureKinds(s.heap, u.heap, s.rootgc);
    SplitSame(s.heap, u.heap, s.rootgc, s.mainthread);
    ReleaseOrdered(u, [s.heap[o].slots[i]]);
  }

  lemma StoreOrdered(s: State, o: Ref, i: nat, v: Option<Ref>)
    requires Inv(s) && Open(s, o, i) && LiveOpt(s, v) && Ordered(s)
    ensures Ordered(StoreAt(s, o, i, v))
  {
    OpenLive(s, o, i);
    GcStore.OverwriteKeeps(s, o, i, v);
    hide Ordered, GcStore.Stored, Open, Reachable, GcStore.Overwrite, GcStore.Barrier;
    OverwriteOrdered(s, o, i, v);
    BarrierOrdered(GcStore.Overwrite(s, o, i, v), o, v);
  }

  lemma SetMtOrdered(s: State, i: nat, v: Option<Ref>)
    requires Inv(s) && i < |s.mt| && LiveOpt(s, v) && Ordered(s)
    ensures Ordered(SetTypeMetatable(s, i, v))
  {
    WriteMtSound(s, i, v);
    Listed(s);
    var u := WriteMt(s, i, v);
    GcStore.AddRefsFrame(s.heap, [v]);
    hide Split, Inv, Sound;
    NatureKinds(s.heap, u.heap, s.rootgc);
    SplitSame(s.heap, u.heap, s.rootgc, s.mainthread);
    ReleaseOrdered(u, [s.mt[i]]);
  }

  lemma LinkOrdered(s: State, id: Ref, kind: Kind, slots: seq<Option<Ref>>)
    requires Inv(s) && id !in s.heap && s.mainthread in s.rootgc && Ordered(s)
    ensures Ordered(Link(s, id, kind, slots))
  {
    Listed(s);
    LinkFrame(s.heap, id, Fresh(s.currentwhite, kind, slots, None, 0), slots);
    hide Split, Inv;
    var t := Link(s, id, kind, slots);
    NatureKinds(s.heap, t.heap, s.rootgc);
    SplitSame(s.heap, t.heap, s.rootgc, s.mainthread);
    var k := if kind == TUserdata then IndexOf(s.rootgc, s.mainthread) + 1 else 0;
    SplitInsert(t.heap, s.rootgc, s.mainthread, k, id);
  }

  lemma NewStringOrdered(s: State, id: Ref, hash: nat)
    requires Inv(s) && id !in s.heap && |s.strt| > 0 && Ordered(s)
    ensures Ordered(NewString(s, id, hash))
  {
    Listed(s);
    hide Split, Inv;
    var t := NewString(s, id, hash);
    NatureKinds(s.heap, t.heap, s.rootgc);
    SplitSame(s.heap, t.heap, s.rootgc, s.mainthread);
  }

  lemma FoundOrdered(s: State, x: Ref)
    requires Inv(s) && x in s.heap && Ordered(s)
    ensures Ordered(ChangeWhite(s, x))
  {
    Listed(s);
    hide Split, Inv;
    var t := ChangeWhite(s, x);
    NatureKinds(s.heap, t.heap, s.rootgc);
    SplitSame(s.heap, t.heap, s.rootgc, s.mainthread);
  }

  lemma CaptureOrdered(s: State, id: Ref, level: nat)
    requires Inv(s) && Linked(s) && id !in s.heap && Ordered(s)
    ensures Ordered(FindUpval(s, id, level).0)
  {
    Listed(s);
    hide RootListed, StringsListed;
    var k := ScanOpen(s.heap, s.openupval, level);
    if FoundOpen(s, level) {
      assert s.openupval[k] in s.openupval;
      FoundOrdered(s, s.openupval[k]);
    } else {
      hide Split, Inv;
      var t := FindUpval(s, id, level).0;
      NatureKinds(s.heap, t.heap, s.rootgc);
      SplitSame(s.heap, t.heap, s.rootgc, s.mainthread);
    }
  }

  lemma CloseOrdered(s: State)
    requires Inv(s) && s.openupval != [] && Ordered(s)
    ensures Ordered(CloseUpval(s))
  {
    var u := s.openupval[0];
    assert u in s.openupval;
    Listed(s);
    if IsDead(s.heap[u], s.currentwhite) {
      EraseOrdered(s);
    } else {
      ClosedStored(s);
      TakeOverOrdered(s);
      hide Inv, Ordered, TakeOver, GcStore.Stored;
      BarrierOrdered(TakeOver(s), u, OpenValue(s));
    }
  }

  lemma EraseOrdered(s: State)
    requires Inv(s) && s.openupval != [] && Ordered(s)
    ensures Ordered(EraseOpen(s))
  {
    var u := s.openupval[0];
    assert u in s.openupval;
    Listed(s);
    assert u !in s.rootgc;
    hide Split, Inv;
    NatureKinds(s.heap, EraseOpen(s).heap, s.rootgc);
    SplitSame(s.heap, EraseOpen(s).heap, s.rootgc, s.mainthread);
  }

  lemma TakeOverOrdered(s: State)
    requires Inv(s) && s.openupval != [] && Ordered(s)
    ensures Ordered(TakeOver(s))
  {
    var u := s.openupval[0];
    assert u in s.openupval;
    Listed(s);
    TakeOverShape(s);
    assert u != s.mainthread;
    hide Split, Inv, TakeOver;
    var t := TakeOver(s);
    NatureKinds(s.heap, t.heap, s.rootgc);
    SplitSame(s.heap, t.heap, s.rootgc, s.mainthread);
    SplitInsert(t.heap, s.rootgc, s.mainthread, 0, u);
  }

  lemma StepOrdered(s: State, a: Step)
    requires Inv(s) && Enabled(s, a) && Ordered(s)
    ensures Ordered(Next(s, a))
  {
    hide Inv, Ordered, Open, LiveOpt, Link, NewString, ChangeWhite, FindUpval, StoreAt, CloseUpval, SetTypeMetatable, SingleStep;
    match a
    case Collect(running) => CollectOrdered(s, running);
    case Restart => RestartOrdered(s);
    case Store(o, i, v) => StoreOrdered(s, o, i, v);
    case Create(id, kind, slots, o, i) =>
      LinkReady(s, id, kind, slots, o, i);
      LinkOrdered(s, id, kind, slots);
      StoreNewOrdered(Link(s, id, kind, slots), o, i, id);
    case CreateString(id, hash, o, i) =>
      NewStringReady(s, id, hash, o, i);
      NewStringOrdered(s, id, hash);
      StoreNewOrdered(NewString(s, id, hash), o, i, id);
    case FindString(x, o, i) =>
      FoundReady(s, x, o, i);
      FoundOrdered(s, x);
      StoreNewOrdered(ChangeWhite(s, x), o, i, x);
    case Capture(id, level, o, i) =>
      CaptureReady(s, id, level, o, i);
      CaptureOrdered(s, id, level);
      var r := FindUpval(s, id, level);
      StoreNewOrdered(r.0, o, i, r.1);
    case Close => CloseOrdered(s);
    case SetMt(i, v) => SetMtOrdered(s, i, v);
  }

  lemma RestartOrdered(s: State)
    requires Ordered(s)
    ensures Ordered(Reset(s))
  {
  }

  lemma StoreNewOrdered(s: State, o: Ref, i: nat, id: Ref)
    requires Inv(s) && Open(s, o, i) && Live(s, id) && Ordered(s)
    ensures LiveOpt(s, Some(id)) && Ordered(StoreAt(s, o, i, Some(id)))
  {
    StoreOrdered(s, o, i, Some(id));
  }

  lemma {:induction false} RunOrdered(start: State, run: seq<Step>, states: seq<State>, k: nat)
    requires Initial(start) && Run(start, run, states) && k < |states|
    ensures Ordered(states[k])
  {
    hide *;
    if k == 0 {
      RunStarts(start, run, states);
      StartOrdered(start);
    } else {
      RunLength(start, run, states);
      RunOrdered(start, run, states, k - 1);
      RunKeepsInv(start, run, states, k - 1);
      RunSteps(start, run, states, k - 1);
      StepOrdered(states[k - 1], run[k - 1]);
    }
  }

  lemma StartOrdered(start: State)
    requires Initial(start)
    ensures Ordered(start)
  {
  }

  /** In every state of every run the userdata are the objects behind the main thread
      in `rootgc`: luaC_separateudata, which begins there, meets all of them and nothing
      else. */
  lemma UdataBehindMain(start: State, run: seq<Step>, states: seq<State>, k: nat, i: nat)
    requires Initial(start) && Run(start, run, states) && k < |states|
    requires i < |states[k].rootgc|
    ensures var s := states[k];
      && s.mainthread in s.rootgc && s.rootgc[i] in s.heap
      && (s.heap[s.rootgc[i]].kind == TUserdata <==> i > IndexOf(s.rootgc, s.mainthread))
  {
    RunOrdered(start, run, states, k);
    RunKeepsInv(start, run, states, k);
    hide Run, Initial, Inv;
    Listed(states[k]);
  }

  // --------------------------------------------------------------- separated userdata

  /** The atomic step leaves to the sweep, whatever their counts do, exactly the userdata
      that are dead by then. */
  lemma AtomicSeparates(s: State, running: Ref, x: Ref)
    requires Inv(s) && running in s.heap && s.gcstate == Propagate && s.gray == []
    requires x in s.heap && s.heap[x].kind == TUserdata
    ensures var t := SingleStep(s, running);
      x in t.heap && (t.heap[x].finalized <==> s.heap[x].finalized || t.heap[x].color == White(!t.currentwhite))
  {
    MarkInvIsInv(s);
    hide Inv, MarkInv, MarkAtomic, Shaded, Flip, ThreadsDone, Linked;
    FlipSeparates(s, MarkAtomic(s, running), x);
  }

  lemma FlipSeparates(s: State, u: State, x: Ref)
    requires MarkInv(s) && Shaded(s, u) && x in s.heap && s.heap[x].kind == TUserdata
    ensures var t := Flip(u);
      x in t.heap && (t.heap[x].finalized <==> s.heap[x].finalized || t.heap[x].color == White(!t.currentwhite))
  {
    hide Sound, Linked;
  }

  // ------------------------------------------------------------------ what is fixed

  /** Objects keep their kind; new ones are neither fixed nor finalized. */
  ghost predicate Grows(h: map<Ref, GCObject>, g: map<Ref, GCObject>) {
    SameNature(h, g) && forall x :: x in g && x !in h ==> !g[x].fixed && !g[x].finalized
  }

  lemma OpenParts(s: State, o: Ref, i: nat)
    requires Inv(s) && Open(s, o, i)
    ensures Reachable(s, o) && Live(s, o) && i < |s.heap[o].slots|
  {
    OpenLive(s, o, i);
    hide Inv, Reachable;
  }

  lemma StoreNature(s: State, o: Ref, i: nat, v: Option<Ref>)
    requires Inv(s) && Open(s, o, i) && LiveOpt(s, v)
    ensures StoreAt(s, o, i, v).heap.Keys <= s.heap.Keys && SameNature(s.heap, StoreAt(s, o, i, v).heap)
  {
    hide Inv, Open, GcStore.SetSlot, Reachable, LiveOpt;
    OpenParts(s, o, i);
    var t := GcStore.SetSlot(s, o, i, v);
    forall x | x in s.heap
      ensures t.heap.Keys <= s.heap.Keys
      ensures x in t.heap ==> t.heap[x].kind == s.heap[x].kind && t.heap[x].fixed == s.heap[x].fixed
    {
      StoredNature(s, o, i, v, x);
    }
    assert StoreAt(s, o, i, v) == t;
  }

  lemma StoredNature(s: State, o: Ref, i: nat, v: Option<Ref>, x: Ref)
    requires Inv(s) && Reachable(s, o) && Live(s, o) && i < |s.heap[o].slots| && LiveOpt(s, v) && x in s.heap
    ensures var t := GcStore.SetSlot(s, o, i, v);
      t.heap.Keys <= s.heap.Keys && (x in t.heap ==> t.heap[x].kind == s.heap[x].kind && t.heap[x].fixed == s.heap[x].fixed)
  {
    hide Inv, GcStore.SetSlot, Holders, Reachable, LiveOpt;
    GcStore.SetSlotExact(s, o, i, v, x);
  }

  lemma StoreNewNature(h: map<Ref, GCObject>, s: State, o: Ref, i: nat, id: Ref)
    requires Inv(s) && Open(s, o, i) && Live(s, id) && Grows(h, s.heap) && h.Keys <= s.heap.Keys
    ensures LiveOpt(s, Some(id)) && SameNature(h, StoreAt(s, o, i, Some(id)).heap)
    ensures forall x :: x in StoreAt(s, o, i, Some(id)).heap && x !in h ==> !StoreAt(s, o, i, Some(id)).heap[x].fixed
  {
    hide Inv, StoreAt, Open;
    StoreNature(s, o, i, Some(id));
    forall x | x in StoreAt(s, o, i, Some(id)).heap
      ensures x in s.heap
    {
    }
  }

  lemma FirstOpenThere(s: State)
    requires Inv(s) && s.openupval != []
    ensures s.openupval[0] in s.heap && Linked(s) && Shaped(s)
  {
    hide Closed, Counts, Colored, Shades;
    assert s.openupval[0] in s.openupval;
  }

  lemma EraseNature(s: State)
    requires Inv(s) && s.openupval != [] && s.openupval[0] in s.heap && IsDead(s.heap[s.openupval[0]], s.currentwhite)
    ensures SameNature(s.heap, CloseUpval(s).heap) && CloseUpval(s).heap.Keys <= s.heap.Keys
  {
    hide Inv;
  }

  lemma CloseNature(s: State)
    requires Inv(s) && s.openupval != []
    ensures SameNature(s.heap, CloseUpval(s).heap) && CloseUpval(s).heap.Keys <= s.heap.Keys
  {
    hide *;
    FirstOpenThere(s);
    var u := s.openupval[0];
    if IsDead(s.heap[u], s.currentwhite) {
      EraseNature(s);
    } else {
      CloseStored(s);
      TakeOverNature(s);
      CloseLive(s);
      BarrierNature(TakeOver(s), u, OpenValue(s));
      NatureTransitive(s.heap, TakeOver(s).heap, GcStore.Barrier(TakeOver(s), u, OpenValue(s)).heap);
    }
  }

  lemma CloseStored(s: State)
    requires Inv(s) && s.openupval != [] && s.openupval[0] in s.heap && !IsDead(s.heap[s.openupval[0]], s.currentwhite)
    ensures Linked(s) && Shaped(s) && GcStore.Stored(TakeOver(s), s.openupval[0], OpenValue(s))
  {
    ClosedStored(s);
  }

  lemma CloseLive(s: State)
    requires Inv(s) && s.openupval != [] && s.openupval[0] in s.heap && !IsDead(s.heap[s.openupval[0]], s.currentwhite)
    ensures var u := s.openupval[0];
      && Linked(s) && Shaped(s) && (TakeOver(s).gcstate == Propagate ==> Markable(TakeOver(s)))
      && u in TakeOver(s).heap && (OpenValue(s).Some? ==> OpenValue(s).value in TakeOver(s).heap)
      && CloseUpval(s) == GcStore.Barrier(TakeOver(s), u, OpenValue(s))
  {
    ClosedStored(s);
    hide Inv, TakeOver;
    GcStore.BarrierInv(TakeOver(s), s.openupval[0], OpenValue(s));
    hide GcStore.Stored;
  }

  lemma TakeOverNature(s: State)
    requires Linked(s) && Shaped(s) && s.openupval != []
    ensures SameNature(s.heap, TakeOver(s).heap) && TakeOver(s).heap.Keys == s.heap.Keys
  {
    TakeOverShape(s);
    hide Linked, Shaped, TakeOver;
  }

  lemma BarrierNature(s: State, o: Ref, v: Option<Ref>)
    requires GcStore.Stored(s, o, v)
    ensures s.gcstate == Propagate ==> Markable(s)
    ensures SameNature(s.heap, GcStore.Barrier(s, o, v).heap) && GcStore.Barrier(s, o, v).heap.Keys == s.heap.Keys
  {
    hide GcStore.Stored, GcStore.Barrier;
    GcStore.BarrierRepaints(s, o, v);
  }

  lemma NatureTransitive(h: map<Ref, GCObject>, g: map<Ref, GCObject>, k: map<Ref, GCObject>)
    requires SameNature(h, g) && SameNature(g, k) && k.Keys <= g.Keys
    ensures SameNature(h, k)
  {
    assert forall x :: x in k ==> x in g;
  }

  lemma SetMtNature(s: State, i: nat, v: Option<Ref>)
    requires Inv(s) && i < |s.mt| && LiveOpt(s, v)
    ensures SameNature(s.heap, SetTypeMetatable(s, i, v).heap) && SetTypeMetatable(s, i, v).heap.Keys <= s.heap.Keys
  {
    var u := WriteMt(s, i, v);
    WriteMtSound(s, i, v);
    hide Inv, Sound, Holders, Release, GcState.Count, SameNature, Drained, WriteMt;
    ReleaseExact(u, [s.mt[i]]);
    WriteMtNature(s, i, v);
    DrainedNature(u.heap, Release(u, [s.mt[i]]).heap);
    NatureTransitive(s.heap, u.heap, Release(u, [s.mt[i]]).heap);
  }

  lemma WriteMtNature(s: State, i: nat, v: Option<Ref>)
    requires i < |s.mt|
    ensures SameNature(s.heap, WriteMt(s, i, v).heap) && WriteMt(s, i, v).heap.Keys == s.heap.Keys
  {
    GcStore.AddRefsFrame(s.heap, [v]);
  }

  lemma DrainedNature(h: map<Ref, GCObject>, g: map<Ref, GCObject>)
    requires Drained(h, g)
    ensures SameNature(h, g) && g.Keys <= h.Keys
  {
    assert forall x :: x in g ==> x in h;
  }

  lemma GrownNature(s: State, id: Ref, kind: Kind, slots: seq<Option<Ref>>)
    requires s.mainthread in s.rootgc && id !in s.heap
    ensures Grows(s.heap, Link(s, id, kind, slots).heap) && s.heap.Keys <= Link(s, id, kind, slots).heap.Keys
  {
    LinkFrame(s.heap, id, Fresh(s.currentwhite, kind, slots, None, 0), slots);
  }

  lemma CaptureNature(s: State, id: Ref, level: nat)
    requires Linked(s) && id !in s.heap
    ensures var t := FindUpval(s, id, level).0; Grows(s.heap, t.heap) && s.heap.Keys <= t.heap.Keys
  {
    hide RootListed, StringsListed;
  }

  lemma TintedNature(h: map<Ref, GCObject>, g: map<Ref, GCObject>)
    requires Tinted(h, g)
    ensures SameNature(h, g) && g.Keys <= h.Keys
  {
    assert forall x :: x in g ==> x in h;
  }

  /** Whatever a step does, objects keep their kind, and it fixes nothing. */
  lemma StepNature(s: State, a: Step, x: Ref)
    requires Inv(s) && Enabled(s, a) && x in Next(s, a).heap
    ensures if x in s.heap then Next(s, a).heap[x].kind == s.heap[x].kind && Next(s, a).heap[x].fixed == s.heap[x].fixed
            else !Next(s, a).heap[x].fixed
  {
    hide Inv, Open, LiveOpt, Link, NewString, ChangeWhite, FindUpval, StoreAt, CloseUpval, SetTypeMetatable, SingleStep, Tinted;
    match a
    case Collect(running) =>
      CollectTints(s, running);
      TintedNature(s.heap, SingleStep(s, running).heap);
    case Restart =>
    case Store(o, i, v) => StoreNature(s, o, i, v);
    case Create(id, kind, slots, o, i) =>
      LinkReady(s, id, kind, slots, o, i);
      GrownNature(s, id, kind, slots);
      StoreNewNature(s.heap, Link(s, id, kind, slots), o, i, id);
    case CreateString(id, hash, o, i) =>
      NewStringReady(s, id, hash, o, i);
      NewStringNature(s, id, hash);
      StoreNewNature(s.heap, NewString(s, id, hash), o, i, id);
    case FindString(y, o, i) =>
      FoundReady(s, y, o, i);
      FoundNature(s, y);
      StoreNewNature(s.heap, ChangeWhite(s, y), o, i, y);
    case Capture(id, level, o, i) =>
      CaptureReady(s, id, level, o, i);
      CaptureNature(s, id, level);
      var r := FindUpval(s, id, level);
      StoreNewNature(s.heap, r.0, o, i, r.1);
    case Close => CloseNature(s);
    case SetMt(i, v) => SetMtNature(s, i, v);
  }

  lemma NewStringNature(s: State, id: Ref, hash: nat)
    requires |s.strt| > 0 && id !in s.heap
    ensures Grows(s.heap, NewString(s, id, hash).heap) && s.heap.Keys <= NewString(s, id, hash).heap.Keys
  {
  }

  lemma FoundNature(s: State, x: Ref)
    requires x in s.heap
    ensures Grows(s.heap, ChangeWhite(s, x).heap) && s.heap.Keys <= ChangeWhite(s, x).heap.Keys
  {
  }

  lemma {:induction false} RunFixed(start: State, run: seq<Step>, states: seq<State>, k: nat, x: Ref)
    requires Initial(start) && Run(start, run, states) && k < |states| && x in states[k].heap && states[k].heap[x].fixed
    ensures x == start.mainthread && states[k].heap[x].kind == TThread
  {
    hide *;
    if k == 0 {
      RunStarts(start, run, states);
      StartFixed(start, x);
    } else {
      RunLength(start, run, states);
      RunKeepsInv(start, run, states, k - 1);
      RunSteps(start, run, states, k - 1);
      StepNature(states[k - 1], run[k - 1], x);
      RunFixed(start, run, states, k - 1, x);
    }
  }

  lemma StartFixed(start: State, x: Ref)
    requires Initial(start) && x in start.heap
    ensures x == start.mainthread && start.heap[x].kind == TThread
  {
  }

  lemma FixedIsMain(s: State, x: Ref)
    requires Inv(s) && x in s.heap && s.heap[x].fixed && s.heap[x].kind == TThread
    ensures Reachable(s, x)
  {
    assert x == s.mainthread;
    var p := [x];
    assert Path(s, p) && p[|p| - 1] == x;
  }

  /** At any point of any run a full collection leaves exactly the objects that can be
      reached. */
  lemma RunFullGc(start: State, run: seq<Step>, states: seq<State>, k: nat, running: Ref, x: Ref)
    requires Initial(start) && Run(start, run, states) && k < |states| && Reachable(states[k], running)
    ensures Inv(states[k])
    ensures x in GcFull.FullGc(states[k], running).heap <==> Reachable(states[k], x)
  {
    hide *;
    RunKeepsInv(start, run, states, k);
    GcFull.FullGcExact(states[k], running, x);
    if x in states[k].heap && states[k].heap[x].fixed {
      RunFixed(start, run, states, k, x);
      FixedIsMain(states[k], x);
    }
  }

  // -------------------------------------------------------------------- new objects

  /** What is stored survives its own store, and is what it was. */
  lemma StoredIs(s: State, o: Ref, i: nat, id: Ref)
    requires Inv(s) && Open(s, o, i) && Live(s, id) && o != id
    ensures var t := StoreAt(s, o, i, Some(id));
      && Live(t, o) && i < |t.heap[o].slots| && t.heap[o].slots[i] == Some(id)
      && Live(t, id) && t.heap[id] == s.heap[id].(ref := t.heap[id].ref, color := t.heap[id].color)
  {
    OpenLive(s, o, i);
    var t := GcStore.SetSlot(s, o, i, Some(id));
    GcStore.OverwriteKeeps(s, o, i, Some(id));
    GcStore.BarrierRepaints(GcStore.Overwrite(s, o, i, Some(id)), o, Some(id));
    hide GcStore.Overwrite, GcStore.Barrier, Reachable, Holders, Sound;
    GcStore.SetSlotExact(s, o, i, Some(id), o);
    GcStore.SetSlotExact(s, o, i, Some(id), id);
  }

  /** A new object has the kind and the slots that were asked for, is neither fixed nor
      finalized, and is in the slot it was made for. */
  lemma CreatedIs(s: State, id: Ref, kind: Kind, slots: seq<Option<Ref>>, o: Ref, i: nat)
    requires Inv(s) && Enabled(s, Create(id, kind, slots, o, i))
    ensures var t := Next(s, Create(id, kind, slots, o, i));
      && Live(t, o) && i < |t.heap[o].slots| && t.heap[o].slots[i] == Some(id) && Live(t, id)
      && t.heap[id].kind == kind && t.heap[id].slots == slots && !t.heap[id].fixed && !t.heap[id].finalized && t.heap[id].level.None?
  {
    hide Inv, Open, Live, StoreAt, Link, Extends;
    LinkReady(s, id, kind, slots, o, i);
    OpenThereAt(s, o, i);
    LinkIs(s, id, kind, slots);
    StoredIs(Link(s, id, kind, slots), o, i, id);
  }

  lemma LinkIs(s: State, id: Ref, kind: Kind, slots: seq<Option<Ref>>)
    requires s.mainthread in s.rootgc
    ensures var t := Link(s, id, kind, slots);
      id in t.heap && t.heap[id] == Fresh(s.currentwhite, kind, slots, None, 0)
  {
  }

  lemma OpenThereAt(s: State, o: Ref, i: nat)
    requires Open(s, o, i)
    ensures o in s.heap
  {
  }

  /** A new string has the hash value that it was made with. */
  lemma CreatedStringIs(s: State, id: Ref, hash: nat, o: Ref, i: nat)
    requires Inv(s) && Enabled(s, CreateString(id, hash, o, i))
    ensures var t := Next(s, CreateString(id, hash, o, i));
      && Live(t, o) && i < |t.heap[o].slots| && t.heap[o].slots[i] == Some(id) && Live(t, id)
      && t.heap[id].kind == TString && t.heap[id].hash == hash && !t.heap[id].fixed
  {
    hide Inv, Open, Live, StoreAt, NewString, Extends;
    NewStringReady(s, id, hash, o, i);
    OpenThereAt(s, o, i);
    NewStringIs(s, id, hash);
    StoredIs(NewString(s, id, hash), o, i, id);
  }

  lemma NewStringIs(s: State, id: Ref, hash: nat)
    requires |s.strt| > 0
    ensures var t := NewString(s, id, hash);
      id in t.heap && t.heap[id].kind == TString && t.heap[id].hash == hash && !t.heap[id].fixed
  {
  }

  /** An upvalue that is captured is open at the level asked for. */
  lemma CapturedIs(s: State, id: Ref, level: nat, o: Ref, i: nat)
    requires Inv(s) && Enabled(s, Capture(id, level, o, i))
    ensures Linked(s)
    ensures var u := FindUpval(s, id, level).1;
      var t := Next(s, Capture(id, level, o, i));
      && Live(t, o) && i < |t.heap[o].slots| && t.heap[o].slots[i] == Some(u) && Live(t, u)
      && t.heap[u].kind == TUpval && t.heap[u].level == Some(level)
  {
    hide Inv, Open, Live, StoreAt, FindUpval, Linked, Extends;
    CaptureReady(s, id, level, o, i);
    CapturedLevel(s, id, level);
    OpenHasSlots(s, o, i);
    var r := FindUpval(s, id, level);
    StoredIs(r.0, o, i, r.1);
  }

  lemma OpenHasSlots(s: State, o: Ref, i: nat)
    requires Inv(s) && Open(s, o, i)
    ensures o in s.heap && s.heap[o].level.None?
  {
    assert s.heap[o].slots != [];
  }

  lemma CapturedLevel(s: State, id: Ref, level: nat)
    requires Inv(s) && Linked(s) && id !in s.heap
    ensures var r := FindUpval(s, id, level);
      r.1 in r.0.heap && r.0.heap[r.1].kind == TUpval && r.0.heap[r.1].level == Some(level) && (r.1 in s.heap ==> s.heap[r.1].level.Some?)
  {
    hide RootListed, StringsListed;
    var k := ScanOpen(s.heap, s.openupval, level);
    if FoundOpen(s, level) {
      assert s.openupval[k] in s.openupval;
    }
  }

  /** A live upvalue that is closed has the value that its slot of the stack had. */
  lemma ClosedIs(s: State)
    requires Inv(s) && s.openupval != []
    ensures s.openupval[0] in s.heap && s.heap[s.openupval[0]].level.Some?
    ensures s.mainthread in s.heap && s.heap[s.openupval[0]].level.value < |s.heap[s.mainthread].slots|
    ensures var u := s.openupval[0];
      var t := CloseUpval(s);
      && t.openupval == s.openupval[1..]
      && if IsDead(s.heap[u], s.currentwhite) then u !in t.heap
         else u in t.heap && t.heap[u].level.None? && t.heap[u].slots == [s.heap[s.mainthread].slots[s.heap[u].level.value]]
  {
    var u := s.openupval[0];
    assert u in s.openupval;
    if !IsDead(s.heap[u], s.currentwhite) {
      ClosedStored(s);
      TakeOverShape(s);
      hide Inv, GcStore.Stored, TakeOver;
      GcStore.BarrierRepaints(TakeOver(s), u, OpenValue(s));
      BarrierOpen(TakeOver(s), u, OpenValue(s));
    } else {
      hide Inv;
    }
  }

  lemma BarrierOpen(s: State, o: Ref, v: Option<Ref>)
    requires GcStore.Stored(s, o, v)
    ensures s.gcstate == Propagate ==> Markable(s)
    ensures GcStore.Barrier(s, o, v).openupval == s.openupval
  {
    GcStore.SoundMarkable(s);
    hide GcStore.Stored, Mark;
  }
}
