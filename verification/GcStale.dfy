/** A run of the machine after which luaC_barrierback writes to a freed object
    (src/lgc.c:867-884, src/lgc.c:1120-1178): the head of `grayagain` was released
    during a sweep, which leaves it on that list. */
module GcStale {
  import opened Seqs
  import opened GcState
  import opened GcRelease
  import opened GcMark
  import opened GcAtomic
  import opened GcCycle
  import opened GcStore
  import opened GcObjects
  import opened GcMachine
  import opened GcSafety
  import opened GcLinks

  // ------------------------------------------------------- marking, value by value

  lemma MarkNone(s: State, q: seq<Option<Ref>>)
    requires Markable(s) && Within(s.heap, q) && q != [] && q[0] == None
    ensures Within(s.heap, q[1..]) && MarkAll(s, q) == MarkAll(s, q[1..])
  {
    hide Markable;
  }

  lemma MarkDark(s: State, q: seq<Option<Ref>>, x: Ref)
    requires Markable(s) && Within(s.heap, q) && q != [] && q[0] == Some(x) && x in s.heap && !s.heap[x].color.White?
    ensures Within(s.heap, q[1..]) && MarkAll(s, q) == MarkAll(s, q[1..])
  {
    hide Markable;
    assert Mark(s, x) == s;
  }

  lemma MarkGray(s: State, q: seq<Option<Ref>>, x: Ref)
    requires Markable(s) && Within(s.heap, q) && q != [] && q[0] == Some(x) && x in s.heap && s.heap[x].color.White?
    requires s.heap[x].Traversable() && s.heap[x].level.None?
    ensures var t := s.(heap := Tint(s.heap, x, Gray), gray := [x] + s.gray);
            Markable(t) && Within(t.heap, q[1..]) && MarkAll(s, q) == MarkAll(t, q[1..])
  {
    PaintDarker(s, x);
    var t := s.(heap := Tint(s.heap, x, Gray), gray := [x] + s.gray);
    hide Markable, Darker;
    assert Paint(s, x) == t;
    KidsNone(s, x);
    MarkEnd(t);
    assert Mark(s, x) == t by {
      assert Kids(s, x) == [];
    }
  }

  lemma KidsNone(s: State, x: Ref)
    requires Markable(s) && x in s.heap && s.heap[x].Traversable() && s.heap[x].level.None?
    ensures s.mainthread in s.heap && Kids(s, x) == []
  {
  }

  lemma MarkEnd(s: State)
    requires Markable(s)
    ensures MarkAll(s, []) == s
  {
    hide Markable;
  }

  // -------------------------------------------------------- creations and stores

  /** A store into a slot without a value releases nothing. */
  lemma StoreNone(s: State, o: Ref, i: nat, v: Option<Ref>)
    requires Sound(s, []) && Live(s, o) && i < |s.heap[o].slots| && LiveOpt(s, v) && s.heap[o].slots[i] == None
    ensures Overwrite(s, o, i, v) == Write(s, o, i, v)
  {
    WriteSound(s, o, i, v);
    var u := Write(s, o, i, v);
    hide Sound, Write;
    assert [s.heap[o].slots[i]] == [None] + [];
    SkipNone(u, []);
    assert Release(u, []) == u;
  }

  /** The state after a table with empty slots has been created and stored into a
      slot that had no value: without the barrier. */
  function Linked1(s: State, id: Ref, slots: seq<Option<Ref>>, o: Ref, i: nat): State
    requires o in s.heap && i < |s.heap[o].slots|
  {
    s.(heap := s.heap[o := s.heap[o].(slots := s.heap[o].slots[i := Some(id)])]
                     [id := Fresh(s.currentwhite, TTable, slots, None, 0).(ref := 1)],
       rootgc := [id] + s.rootgc)
  }

  lemma AddNone(h: map<Ref, GCObject>, slots: seq<Option<Ref>>)
    requires forall k :: 0 <= k < |slots| ==> slots[k] == None
    ensures AddRefs(h, slots) == h
  {
    forall x | x in h
      ensures Count(slots, x) == 0
    {
      CountNone(slots, x);
    }
  }

  lemma LinkTable(s: State, id: Ref, slots: seq<Option<Ref>>)
    requires s.sweepgc == 0 && forall k :: 0 <= k < |slots| ==> slots[k] == None
    ensures Link(s, id, TTable, slots) == s.(heap := s.heap[id := Fresh(s.currentwhite, TTable, slots, None, 0)], rootgc := [id] + s.rootgc)
  {
    AddNone(s.heap, slots);
    assert Insert(s.rootgc, 0, id) == [id] + s.rootgc;
  }

  lemma WriteNew(s: State, id: Ref, slots: seq<Option<Ref>>, o: Ref, i: nat)
    requires o in s.heap && id !in s.heap && i < |s.heap[o].slots|
    ensures var u := s.(heap := s.heap[id := Fresh(s.currentwhite, TTable, slots, None, 0)], rootgc := [id] + s.rootgc);
            Write(u, o, i, Some(id)) == Linked1(s, id, slots, o, i)
  {
    var u := s.(heap := s.heap[id := Fresh(s.currentwhite, TTable, slots, None, 0)], rootgc := [id] + s.rootgc);
    var t := Write(u, o, i, Some(id));
    WriteFrame(u, o, i, Some(id));
    forall x | x in u.heap
      ensures t.heap[x] == Linked1(s, id, slots, o, i).heap[x]
    {
      assert Count([Some(id)], x) == if x == id then 1 else 0;
    }
    assert t.heap == Linked1(s, id, slots, o, i).heap;
  }

  /** What the creation comes to before its barrier. */
  lemma Created(s: State, id: Ref, slots: seq<Option<Ref>>, o: Ref, i: nat)
    requires Inv(s) && Enabled(s, Create(id, TTable, slots, o, i)) && s.sweepgc == 0
    requires (forall k :: 0 <= k < |slots| ==> slots[k] == None) && s.heap[o].slots[i] == None
    ensures s.mainthread in s.rootgc
    ensures var u := Link(s, id, TTable, slots);
            && Inv(u) && Reachable(u, o) && Live(u, o) && Live(u, id) && i < |u.heap[o].slots|
            && Overwrite(u, o, i, Some(id)) == Linked1(s, id, slots, o, i)
            && Next(s, Create(id, TTable, slots, o, i)) == SetSlot(u, o, i, Some(id))
  {
    LinkReady(s, id, TTable, slots, o, i);
    var u := Link(s, id, TTable, slots);
    OpenLive(u, o, i);
    LinkTable(s, id, slots);
    WriteNew(s, id, slots, o, i);
    InvSound(u);
    hide Inv, Sound, Write, Link, Reachable, Live;
    StoreNone(u, o, i, Some(id));
  }

  lemma InvSound(s: State)
    requires Inv(s)
    ensures Sound(s, [])
  {
    hide Sound;
  }

  lemma CreateStep(s: State, id: Ref, slots: seq<Option<Ref>>, o: Ref, i: nat)
    requires Inv(s) && Enabled(s, Create(id, TTable, slots, o, i)) && s.sweepgc == 0
    requires (forall k :: 0 <= k < |slots| ==> slots[k] == None) && s.heap[o].slots[i] == None
    requires s.heap[o].color == Black ==> s.heap[o].kind == TTable
    ensures var t := Linked1(s, id, slots, o, i);
            Next(s, Create(id, TTable, slots, o, i)) ==
            if s.heap[o].color == Black then t.(heap := Tint(t.heap, o, Gray), grayagain := [o] + t.grayagain) else t
  {
    Created(s, id, slots, o, i);
    var u := Link(s, id, TTable, slots);
    OverwriteKeeps(u, o, i, Some(id));
    SoundMarkable(Overwrite(u, o, i, Some(id)));
  }

  /** Dropping the only reference to a table. */
  lemma ReleaseLast(s: State, work: seq<Option<Ref>>, c: Ref)
    requires Sound(s, work) && work != [] && work[0] == Some(c) && c in s.heap && s.heap[c].ref == 1 && s.heap[c].kind == TTable
    requires !s.heap[c].fixed && s.heap[c].level.None?
    ensures var t := Remove(Decrement(s, c), c);
            Sound(t, s.heap[c].slots + work[1..]) && Release(s, work) == Release(t, s.heap[c].slots + work[1..])
  {
    DropSound(s, work);
    hide Sound, Remove;
    assert Drop(s, work) == (Remove(Decrement(s, c), c), s.heap[c].slots + work[1..]);
  }

  lemma ReleaseEnd(s: State)
    requires Sound(s, [])
    ensures Release(s, []) == s
  {
    hide Sound;
  }

  // ---------------------------------------------------------------------- the run

  function Tab(c: Color, ref: int, slots: seq<Option<Ref>>): GCObject {
    GCObject(TTable, c, false, false, ref, slots, None, 0)
  }

  /** The main thread, with two stack slots behind the table of globals. */
  function Stack(c: Color, v: Option<Ref>, w: Option<Ref>): GCObject {
    GCObject(TThread, c, true, false, 0, [None, v, w], None, 0)
  }

  function At(heap: map<Ref, GCObject>, rootgc: seq<Ref>, gray: seq<Ref>, grayagain: seq<Ref>, white: bool, phase: Phase): State {
    State(heap, rootgc, [[]], [], gray, grayagain, white, phase, 0, 0, 0, None, [])
  }

  function Two(t: Color, a: Color, b: Color): map<Ref, GCObject> {
    map[0 := Stack(t, Some(1), Some(2)), 1 := Tab(a, 1, [None]), 2 := Tab(b, 1, [None])]
  }

  const FIRST := White(false)
  const EMPTY := [None]

  /** Two tables on the stack, a mark phase, its atomic step; then, while strings
      are swept, a new table is stored into the black table 1, and table 1 goes. */
  function StaleSteps(): seq<Step> {
    [Create(1, TTable, EMPTY, 0, 1), Create(2, TTable, EMPTY, 0, 2),
     Collect(0), Collect(0), Collect(0), Collect(0), Collect(0),
     Create(3, TTable, [], 1, 0), Store(0, 1, None)]
  }

  function S0(): State { At(map[0 := Stack(FIRST, None, None)], [0], [], [], false, Pause) }

  function S1(): State {
    At(map[0 := Stack(FIRST, Some(1), None), 1 := Tab(FIRST, 1, EMPTY)], [1, 0], [], [], false, Pause)
  }

  function S2(): State { At(Two(FIRST, FIRST, FIRST), [2, 1, 0], [], [], false, Pause) }

  function S3(): State { At(Two(Gray, FIRST, FIRST), [2, 1, 0], [0], [], false, Propagate) }

  function S4(): State { At(Two(Gray, Gray, Gray), [2, 1, 0], [2, 1], [0], false, Propagate) }

  function S5(): State { At(Two(Gray, Gray, Black), [2, 1, 0], [1], [0], false, Propagate) }

  function S6(): State { At(Two(Gray, Black, Black), [2, 1, 0], [], [0], false, Propagate) }

  function S7(): State { At(Two(Gray, Black, Black), [2, 1, 0], [], [0], true, Sweepstring) }

  function S8(): State {
    At(map[0 := Stack(Gray, Some(1), Some(2)), 1 := Tab(Gray, 1, [Some(3)]), 2 := Tab(Black, 1, EMPTY), 3 := Tab(White(true), 1, [])],
       [3, 2, 1, 0], [], [1, 0], true, Sweepstring)
  }

  function S9(): State {
    At(map[0 := Stack(Gray, None, Some(2)), 2 := Tab(Black, 1, EMPTY)], [2, 0], [], [1, 0], true, Sweepstring)
  }

  function StaleStates(): seq<State> {
    [S0(), S1(), S2(), S3(), S4(), S5(), S6(), S7(), S8(), S9()]
  }

  lemma StackOpen(s: State, i: nat)
    requires s.mainthread in s.heap && i < |s.heap[s.mainthread].slots|
    ensures Open(s, s.mainthread, i)
  {
    assert Path(s, [s.mainthread]);
  }

  lemma SlotOpen(s: State, x: Ref, i: nat, k: nat)
    requires s.mainthread in s.heap && k < |s.heap[s.mainthread].slots| && s.heap[s.mainthread].slots[k] == Some(x)
    requires x in s.heap && i < |s.heap[x].slots|
    ensures Open(s, x, i)
  {
    assert Path(s, [s.mainthread, x]);
  }

  ghost predicate Leads(s: State, a: Step, t: State) {
    Inv(s) ==> Enabled(s, a) && t == Next(s, a)
  }

  lemma CreateEnabled(s: State, id: Ref, slots: seq<Option<Ref>>, o: Ref, i: nat)
    requires id !in s.heap && Open(s, o, i) && forall k :: 0 <= k < |slots| ==> slots[k] == None
    ensures Enabled(s, Create(id, TTable, slots, o, i))
  {
    hide Open;
  }

  lemma LeadsTo(s: State, a: Step, t: State)
    requires Inv(s) ==> Enabled(s, a) && t == Next(s, a)
    ensures Leads(s, a, t)
  {
    hide Inv, Enabled, Next;
  }

  lemma Heap1()
    ensures Linked1(S0(), 1, EMPTY, 0, 1) == S1()
  {
    assert S0().heap[0].slots[1 := Some(1)] == [None, Some(1), None];
    assert Linked1(S0(), 1, EMPTY, 0, 1).heap == S1().heap;
  }

  lemma Heap2()
    ensures Linked1(S1(), 2, EMPTY, 0, 2) == S2()
  {
    assert S1().heap[0].slots[2 := Some(2)] == [None, Some(1), Some(2)];
    assert Linked1(S1(), 2, EMPTY, 0, 2).heap == S2().heap;
  }

  lemma Heap8()
    ensures var t := Linked1(S7(), 3, [], 1, 0); t.(heap := Tint(t.heap, 1, Gray), grayagain := [1] + t.grayagain) == S8()
  {
    assert S7().heap[1].slots[0 := Some(3)] == [Some(3)];
    assert Tint(Linked1(S7(), 3, [], 1, 0).heap, 1, Gray) == S8().heap;
  }

  lemma Step0()
    ensures Leads(S0(), Create(1, TTable, EMPTY, 0, 1), S1())
  {
    hide Inv, Next, Open, Enabled, Leads;
    if Inv(S0()) {
      StackOpen(S0(), 1);
      CreateEnabled(S0(), 1, EMPTY, 0, 1);
      CreateStep(S0(), 1, EMPTY, 0, 1);
      Heap1();
    }
    LeadsTo(S0(), Create(1, TTable, EMPTY, 0, 1), S1());
  }

  lemma Step1()
    ensures Leads(S1(), Create(2, TTable, EMPTY, 0, 2), S2())
  {
    hide Inv, Next, Open, Enabled, Leads;
    if Inv(S1()) {
      StackOpen(S1(), 2);
      CreateEnabled(S1(), 2, EMPTY, 0, 2);
      CreateStep(S1(), 2, EMPTY, 0, 2);
      Heap2();
    }
    LeadsTo(S1(), Create(2, TTable, EMPTY, 0, 2), S2());
  }

  lemma Step7()
    ensures Leads(S7(), Create(3, TTable, [], 1, 0), S8())
  {
    hide Inv, Next, Open, Enabled, Leads;
    if Inv(S7()) {
      SlotOpen(S7(), 1, 0, 1);
      CreateEnabled(S7(), 3, [], 1, 0);
      CreateStep(S7(), 3, [], 1, 0);
      Heap8();
    }
    LeadsTo(S7(), Create(3, TTable, [], 1, 0), S8());
  }

  // the marking steps

  lemma CollectNext(s: State)
    requires Inv(s) && 0 in s.heap && s.heap[0].kind == TThread
    ensures Enabled(s, Collect(0)) && Next(s, Collect(0)) == SingleStep(s, 0)
  {
    hide Inv, SingleStep;
  }

  lemma RootStep(s: State)
    requires Inv(s) && s.gcstate == Pause
    ensures var r := s.(gray := [], grayagain := [], gcstate := Propagate);
            && Markable(r) && r.mainthread in r.heap && Within(r.heap, RootValues(r))
            && (0 in s.heap ==> SingleStep(s, 0) == MarkAll(r, RootValues(r)))
  {
    MarkRootReady(s);
    hide Inv, Sound, Markable, Within, MarkAll;
  }

  lemma Step2()
    ensures Leads(S2(), Collect(0), S3())
  {
    hide Inv, Next, Enabled, Leads, SingleStep, Markable, Within, MarkAll;
    if Inv(S2()) {
      CollectNext(S2());
      RootStep(S2());
      var r := S2().(gray := [], grayagain := [], gcstate := Propagate);
      var q := RootValues(r);
      assert q == [Some(0), None, None];
      MarkGray(r, q, 0);
      var t := r.(heap := Tint(r.heap, 0, Gray), gray := [0] + r.gray);
      MarkNone(t, q[1..]);
      MarkNone(t, q[2..]);
      MarkEnd(t);
      assert t.heap == S3().heap;
    }
    LeadsTo(S2(), Collect(0), S3());
  }

  lemma MarkStep(s: State)
    requires Inv(s) && s.gcstate == Propagate && s.gray != []
    ensures s.gray[0] in s.heap && Markable(Pick(s)) && Within(Pick(s).heap, s.heap[s.gray[0]].slots)
    ensures 0 in s.heap ==> SingleStep(s, 0) == MarkAll(Pick(s), s.heap[s.gray[0]].slots)
  {
    MarkInvIsInv(s);
    PropagateMarkInv(s);
    PickMarkable(s);
    hide Inv, MarkInv, Markable, Within, MarkAll;
  }

  function Marked0(): State { At(Two(Gray, FIRST, FIRST), [2, 1, 0], [], [0], false, Propagate) }

  function Marked1(): State { At(Two(Gray, Gray, FIRST), [2, 1, 0], [1], [0], false, Propagate) }

  lemma Picks()
    ensures Pick(S3()) == Marked0() && Pick(S4()) == S5() && Pick(S5()) == S6()
  {
    assert S3().gray[1..] == [] && S4().gray[1..] == [1] && S5().gray[1..] == [];
    assert Pick(S4()).heap == S5().heap && Pick(S5()).heap == S6().heap;
  }

  lemma Grays()
    ensures Marked0().(heap := Tint(Marked0().heap, 1, Gray), gray := [1] + Marked0().gray) == Marked1()
    ensures Marked1().(heap := Tint(Marked1().heap, 2, Gray), gray := [2] + Marked1().gray) == S4()
  {
    assert Tint(Marked0().heap, 1, Gray) == Marked1().heap;
    assert Tint(Marked1().heap, 2, Gray) == S4().heap;
  }

  lemma Tails(q: seq<Option<Ref>>)
    requires q == [None, Some(1), Some(2)]
    ensures q[1..] == [Some(1), Some(2)] && q[1..][1..] == [Some(2)] && q[1..][1..][1..] == []
  {
  }

  lemma Step3()
    ensures Leads(S3(), Collect(0), S4())
  {
    hide Inv, Next, Enabled, Leads, SingleStep, Markable, Within, MarkAll, Pick, Tint;
    if Inv(S3()) {
      CollectNext(S3());
      MarkStep(S3());
      Picks();
      Grays();
      var q := S3().heap[0].slots;
      Tails(q);
      MarkNone(Marked0(), q);
      MarkGray(Marked0(), q[1..], 1);
      MarkGray(Marked1(), q[1..][1..], 2);
      MarkEnd(S4());
    }
    LeadsTo(S3(), Collect(0), S4());
  }

  lemma MarkEmpty(s: State)
    requires Markable(s) && Within(s.heap, EMPTY)
    ensures MarkAll(s, EMPTY) == s
  {
    hide Markable, Within, MarkAll;
    assert EMPTY[1..] == [];
    MarkNone(s, EMPTY);
    MarkEnd(s);
  }

  lemma Step4()
    ensures Leads(S4(), Collect(0), S5())
  {
    hide Inv, Next, Enabled, Leads, SingleStep, Markable, Within, MarkAll, Pick;
    if Inv(S4()) {
      CollectNext(S4());
      MarkStep(S4());
      Picks();
      MarkEmpty(S5());
    }
    LeadsTo(S4(), Collect(0), S5());
  }

  lemma Step5()
    ensures Leads(S5(), Collect(0), S6())
  {
    hide Inv, Next, Enabled, Leads, SingleStep, Markable, Within, MarkAll, Pick;
    if Inv(S5()) {
      CollectNext(S5());
      MarkStep(S5());
      Picks();
      MarkEmpty(S6());
    }
    LeadsTo(S5(), Collect(0), S6());
  }

  // the atomic step

  lemma AtomicNext(s: State)
    requires Inv(s) && s.gcstate == Propagate && s.gray == [] && 0 in s.heap
    ensures MarkInv(s) && SingleStep(s, 0) == Flip(MarkAtomic(s, 0))
  {
    hide Inv, MarkInv, MarkAtomic;
    MarkInvIsInv(s);
  }

  lemma NothingGray(s: State)
    requires MarkInv(s) && s.gray == []
    ensures Markable(s) && PropagateAll(s) == s
  {
    MarkInvMarkable(s);
    hide MarkInv, Markable;
  }

  function Requeued(): State { At(Two(Gray, Black, Black), [2, 1, 0], [0], [], false, Propagate) }

  lemma PickRequeued()
    ensures Pick(Requeued()) == S6()
  {
    assert Requeued().gray[1..] == [];
  }

  /** The thread that waits on `grayagain` is traversed again, and finds its slots
      marked. */
  lemma ThreadAgain()
    requires MarkInv(S6()) && MarkInv(Requeued())
    ensures PropagateAll(Requeued()) == S6()
  {
    hide MarkInv, Markable, Within, MarkAll, PropagateAll, PropagateMark, Pick;
    PropagateAllStep(Requeued());
    PickedAgain(Requeued());
    PickRequeued();
    NothingGray(S6());
    var q := Requeued().heap[0].slots;
    Tails(q);
    MarkNone(S6(), q);
    MarkDark(S6(), q[1..], 1);
    MarkDark(S6(), q[1..][1..], 2);
    MarkEnd(S6());
  }

  lemma PickedAgain(w: State)
    requires Markable(w) && w.gray != [] && w.gray[0] in w.heap && !w.heap[w.gray[0]].color.White?
    ensures Markable(Pick(w)) && Within(Pick(w).heap, w.heap[w.gray[0]].slots)
    ensures PropagateMark(w) == MarkAll(Pick(w), w.heap[w.gray[0]].slots)
  {
    hide Markable, Within, MarkAll;
    PickMarkable(w);
  }

  lemma MarkedAlready()
    requires MarkInv(S6())
    ensures MarkAtomic(S6(), 0) == S6()
  {
    hide MarkInv, Markable, Within, MarkAll, PropagateAll, RemarkUpvals, MarkAtomic;
    var s := S6();
    MarkSteps(s, 0);
    RemarkEnd(s);
    NothingGray(s);
    assert [Some(0)] + s.mt == [Some(0)] && [Some(0)][1..] == [];
    MarkDark(s, [Some(0)], 0);
    MarkEnd(s);
    assert s.(gray := s.grayagain, grayagain := []) == Requeued();
    ThreadAgain();
  }

  lemma Step6()
    ensures Leads(S6(), Collect(0), S7())
  {
    hide Inv, Next, Enabled, Leads, SingleStep, MarkInv, MarkAtomic;
    if Inv(S6()) {
      CollectNext(S6());
      AtomicNext(S6());
      MarkedAlready();
      assert Separate(S6().heap) == S7().heap;
    }
    LeadsTo(S6(), Collect(0), S7());
  }

  // the release of table 1

  lemma StoreNext(s: State, o: Ref, i: nat)
    requires Inv(s) && Open(s, o, i)
    ensures Sound(Write(s, o, i, None), [s.heap[o].slots[i]])
    ensures Enabled(s, Store(o, i, None))
    ensures Next(s, Store(o, i, None)) == Release(Write(s, o, i, None), [s.heap[o].slots[i]])
  {
    hide Inv, Sound, Write, Release, Open, Live, Reachable;
    OpenLive(s, o, i);
    OpenParts(s, o, i);
    StoreSound(s, o, i);
    SetNone(s, o, i);
  }

  lemma OpenParts(s: State, o: Ref, i: nat)
    requires Open(s, o, i)
    ensures Reachable(s, o) && o in s.heap && i < |s.heap[o].slots| && LiveOpt(s, None)
  {
    hide Reachable;
  }

  lemma SetNone(s: State, o: Ref, i: nat)
    requires Inv(s) && Reachable(s, o) && Live(s, o) && i < |s.heap[o].slots|
    ensures Sound(Write(s, o, i, None), [s.heap[o].slots[i]])
    ensures SetSlot(s, o, i, None) == Release(Write(s, o, i, None), [s.heap[o].slots[i]])
  {
    InvSound(s);
    WriteSound(s, o, i, None);
    OverwriteKeeps(s, o, i, None);
    SoundMarkable(Overwrite(s, o, i, None));
    hide Inv, Sound, Write, Release, Live, Reachable;
  }

  lemma StoreSound(s: State, o: Ref, i: nat)
    requires Inv(s) && Open(s, o, i)
    ensures Sound(Write(s, o, i, None), [s.heap[o].slots[i]])
  {
    OpenLive(s, o, i);
    WriteSound(s, o, i, None);
  }

  function Dropped(): State {
    At(map[0 := Stack(Gray, None, Some(2)), 1 := Tab(Gray, 1, [Some(3)]), 2 := Tab(Black, 1, EMPTY), 3 := Tab(White(true), 1, [])],
       [3, 2, 1, 0], [], [1, 0], true, Sweepstring)
  }

  function Freed1(): State {
    At(map[0 := Stack(Gray, None, Some(2)), 2 := Tab(Black, 1, EMPTY), 3 := Tab(White(true), 1, [])],
       [3, 2, 0], [], [1, 0], true, Sweepstring)
  }

  lemma StoreDropped()
    ensures Write(S8(), 0, 1, None) == Dropped()
  {
    var t := Write(S8(), 0, 1, None);
    WriteFrame(S8(), 0, 1, None);
    assert S8().heap[0].slots[1 := None] == [None, None, Some(2)];
    forall x | x in S8().heap
      ensures t.heap[x] == Dropped().heap[x]
    {
      assert Count([None], x) == 0;
    }
    assert t.heap == Dropped().heap;
  }

  lemma RemoveFirst()
    ensures Remove(Decrement(Dropped(), 1), 1) == Freed1()
  {
    WithoutAt([3, 2, 1, 0], 2);
    assert [3, 2, 1, 0][..2] + [3, 2, 1, 0][3..] == [3, 2, 0];
    assert Forget(Decrement(Dropped(), 1).heap, 1) == Freed1().heap;
  }

  lemma RemoveSecond()
    ensures Remove(Decrement(Freed1(), 3), 3) == S9()
  {
    WithoutAt([3, 2, 0], 0);
    assert [3, 2, 0][..0] + [3, 2, 0][1..] == [2, 0];
    assert Forget(Decrement(Freed1(), 3).heap, 3) == S9().heap;
  }

  lemma Step8()
    ensures Leads(S8(), Store(0, 1, None), S9())
  {
    hide Inv, Next, Open, Enabled, Leads, Sound, Write, Release, Remove, Decrement;
    if Inv(S8()) {
      StackOpen(S8(), 1);
      StoreSound(S8(), 0, 1);
      StoreNext(S8(), 0, 1);
      StoreDropped();
      var work := [S8().heap[0].slots[1]];
      assert work == [Some(1)];
      ReleaseLast(Dropped(), work, 1);
      RemoveFirst();
      assert [Some(3)] + work[1..] == [Some(3)];
      ReleaseLast(Freed1(), [Some(3)], 3);
      RemoveSecond();
      assert Freed1().heap[3].slots + [Some(3)][1..] == [];
      ReleaseEnd(S9());
    }
    LeadsTo(S8(), Store(0, 1, None), S9());
  }

  // -------------------------------------------------------------------- the result

  lemma StepLeads(k: nat)
    requires k < 9
    ensures Leads(StaleStates()[k], StaleSteps()[k], StaleStates()[k + 1])
  {
    hide Leads, S0, S1, S2, S3, S4, S5, S6, S7, S8, S9;
    match k {
      case 0 => Step0();
      case 1 => Step1();
      case 2 => Step2();
      case 3 => Step3();
      case 4 => Step4();
      case 5 => Step5();
      case 6 => Step6();
      case 7 => Step7();
      case _ => Step8();
    }
  }

  lemma LeadsRun(start: State, run: seq<Step>, states: seq<State>)
    requires |states| == |run| + 1 && states[0] == start
    requires forall k :: 0 <= k < |run| ==> Leads(states[k], run[k], states[k + 1])
    ensures Run(start, run, states)
  {
    forall k | 0 <= k < |run| && Inv(states[k])
      ensures Enabled(states[k], run[k]) && states[k + 1] == Next(states[k], run[k])
    {
      hide Inv, Enabled, Next;
      assert Leads(states[k], run[k], states[k + 1]);
    }
  }

  lemma StaleRun()
    ensures Initial(S0()) && Run(S0(), StaleSteps(), StaleStates())
  {
    forall k | 0 <= k < 9
      ensures Leads(StaleStates()[k], StaleSteps()[k], StaleStates()[k + 1])
    {
      hide *;
      StepLeads(k);
    }
    hide Run, Leads, S1, S2, S3, S4, S5, S6, S7, S8, S9;
    LeadsRun(S0(), StaleSteps(), StaleStates());
  }

  lemma StaleInv()
    ensures Inv(S9())
  {
    hide Run, Initial, Inv, S0, S1, S2, S3, S4, S5, S6, S7, S8, S9;
    StaleRun();
    RunKeepsInv(S0(), StaleSteps(), StaleStates(), 9);
  }

  lemma SafeView(s: State, o: Ref, i: nat, v: Option<Ref>, t: State)
    requires Inv(s) && Reachable(s, o) && Live(s, o) && i < |s.heap[o].slots| && LiveOpt(s, v) && t == Overwrite(s, o, i, v)
    requires o in t.heap && (v.Some? ==> v.value in t.heap)
    ensures StoreSafe(s, o, i, v) <==> BarrierSafe(t, o, v)
  {
    hide Inv, Reachable, Overwrite, BarrierSafe, Live, LiveOpt;
  }

  /** The creation of table id, stored into o, can happen in s; and the barrier of
      that store finds a freed object at the head of `grayagain`. */
  ghost predicate HitsFreed(s: State, id: Ref, o: Ref, i: nat) {
    && Inv(s) && Enabled(s, Create(id, TTable, [], o, i)) && s.mainthread in s.rootgc
    && var u := Link(s, id, TTable, []);
    && Inv(u) && Reachable(u, o) && Live(u, o) && i < |u.heap[o].slots| && LiveOpt(u, Some(id))
    && Next(s, Create(id, TTable, [], o, i)) == SetSlot(u, o, i, Some(id))
    && !StoreSafe(u, o, i, Some(id)) && u.grayagain != [] && u.grayagain[0] !in u.heap
  }

  lemma CreateHits(s: State, id: Ref, o: Ref, i: nat)
    requires Inv(s) && Enabled(s, Create(id, TTable, [], o, i)) && s.sweepgc == 0
    requires s.heap[o].slots[i] == None && s.heap[o].color == Black && s.heap[o].kind == TTable
    requires s.grayagain != [] && s.grayagain[0] !in s.heap && s.grayagain[0] != id
    ensures HitsFreed(s, id, o, i)
  {
    hide Inv, Reachable, Overwrite, Link, SetSlot, StoreSafe, Next;
    Created(s, id, [], o, i);
    LinkTable(s, id, []);
    var u := Link(s, id, TTable, []);
    assert u.heap.Keys == s.heap.Keys + {id};
    SafeView(u, o, i, Some(id), Linked1(s, id, [], o, i));
  }

  /** From a freshly opened state, nine ordinary steps lead to a point where the next
      step, which stores a new table into a black one, makes luaC_barrierback write
      to an object that has been freed. */
  lemma WriteToFreed()
    ensures Initial(S0()) && Run(S0(), StaleSteps(), StaleStates()) && StaleStates()[9] == S9()
    ensures HitsFreed(S9(), 4, 2, 0)
  {
    hide Run, Initial, Inv, Open, Enabled, HitsFreed, StaleSteps, S0, S1, S2, S3, S4, S5, S6, S7, S8;
    StaleRun();
    StaleInv();
    SlotOpen(S9(), 2, 0, 2);
    CreateEnabled(S9(), 4, [], 2, 0);
    CreateHits(S9(), 4, 2, 0);
  }
}
