/** The collector and the mutator as one machine: any step may follow any other.
    luaC_step and luaC_fullgc are sequences of these steps (src/lgc.c:706-851). */
module GcMachine {
  import opened Seqs
  import opened GcState
  import opened GcRelease
  import opened GcMark
  import opened GcAtomic
  import opened GcCycle
  import opened GcSweep
  import opened GcStore
  import opened GcObjects
  import opened GcFound

  /** What can happen next.  Values stored are live: in particular everything
      that a program can reach.  An address for a new object is any address at
      which no object lives. */
  datatype Step =
    | Collect(running: Ref)
    | Restart
    | Store(o: Ref, i: nat, v: Option<Ref>)
    | Create(id: Ref, kind: Kind, slots: seq<Option<Ref>>, o: Ref, i: nat)
    | CreateString(id: Ref, hash: nat, o: Ref, i: nat)
    | FindString(x: Ref, o: Ref, i: nat)
    | Capture(id: Ref, level: nat, o: Ref, i: nat)
    | Close
    | SetMt(i: nat, v: Option<Ref>)

  /** A slot that the mutator can store into. */
  ghost predicate Open(s: State, o: Ref, i: nat) {
    Reachable(s, o) && o in s.heap && i < |s.heap[o].slots|
  }

  ghost predicate Enabled(s: State, a: Step) {
    match a
    case Collect(running) => running in s.heap && s.heap[running].kind == TThread
    case Restart => s.gcstate == Pause || s.gcstate == Propagate
    case Store(o, i, v) => Open(s, o, i) && LiveOpt(s, v)
    case Create(id, kind, slots, o, i) =>
      id !in s.heap && kind != TString && AllLive(s.heap, s.currentwhite, slots) && Open(s, o, i)
    case CreateString(id, _, o, i) => id !in s.heap && Open(s, o, i)
    case FindString(x, o, i) => x in s.heap && s.heap[x].kind == TString && Open(s, o, i)
    case Capture(id, level, o, i) =>
      id !in s.heap && s.mainthread in s.heap && level < |s.heap[s.mainthread].slots| && Open(s, o, i)
    case Close => s.openupval != []
    case SetMt(i, v) => i < |s.mt| && LiveOpt(s, v)
  }

  // ------------------------------------------------------------ collector steps

  /** singlestep. */
  function SingleStep(s: State, running: Ref): State
    requires Inv(s) && running in s.heap
  {
    match s.gcstate
    case Pause => MarkRoot(s)
    case Propagate =>
      if s.gray != [] then
        MarkInvIsInv(s);
        PropagateMarkInv(s);
        PropagateMark(s)
      else
        MarkInvIsInv(s);
        Atomic(s, running)
    case Sweepstring => SweepString(s)
    case Sweep => SweepStep(s)
    case Finalize => s.(gcstate := Pause)
  }

  /** The way luaC_fullgc abandons a cycle: sweep all, erasing nothing, with no
      flip of the white. */
  function Reset(s: State): State {
    s.(sweepstrgc := 0, sweepgc := 0, gray := [], grayagain := [], gcstate := Sweepstring)
  }

  lemma SingleStepInv(s: State, running: Ref)
    requires Inv(s) && running in s.heap
    ensures Inv(SingleStep(s, running))
  {
    match s.gcstate
    case Pause =>
      MarkRootInv(s);
      MarkInvIsInv(MarkRoot(s));
    case Propagate =>
      MarkInvIsInv(s);
      if s.gray != [] {
        PropagateMarkInv(s);
        MarkInvIsInv(PropagateMark(s));
      } else {
        AtomicInv(s, running);
      }
    case Sweepstring =>
      SweepStringInv(s);
    case Sweep =>
      SweepStepInv(s);
    case Finalize =>
      SoundPhase(s, Pause);
  }

  lemma ResetInv(s: State)
    requires Inv(s) && (s.gcstate == Pause || s.gcstate == Propagate)
    ensures Inv(Reset(s))
  {
    SoundSame(s, Reset(s));
    hide Sound;
    assert StringsSwept(Reset(s).heap, Reset(s).strt, 0, s.currentwhite);
  }

  // -------------------------------------------------------------- mutator steps

  /** After a step that brings objects in, what could be stored into still can. */
  ghost predicate Extends(s: State, t: State) {
    && s.heap.Keys <= t.heap.Keys
    && (forall x :: x in s.heap ==> t.heap[x].slots == s.heap[x].slots)
    && t.mainthread == s.mainthread && Roots(t) == Roots(s)
  }

  lemma ExtendsOpen(s: State, t: State, o: Ref, i: nat)
    requires Extends(s, t) && Open(s, o, i)
    ensures Open(t, o, i)
  {
    var p :| Path(s, p) && p[|p| - 1] == o;
    assert Path(t, p);
  }

  lemma OpenLive(s: State, o: Ref, i: nat)
    requires Inv(s) && Open(s, o, i)
    ensures Live(s, o)
  {
    var p :| Path(s, p) && p[|p| - 1] == o;
    PathLive(s, p);
  }

  function StoreAt(s: State, o: Ref, i: nat, v: Option<Ref>): (t: State)
    requires Inv(s) && Open(s, o, i) && LiveOpt(s, v)
    ensures Inv(t)
  {
    OpenLive(s, o, i);
    hide Inv;
    SetSlot(s, o, i, v)
  }

  lemma LinkReady(s: State, id: Ref, kind: Kind, slots: seq<Option<Ref>>, o: Ref, i: nat)
    requires Inv(s) && id !in s.heap && kind != TString && AllLive(s.heap, s.currentwhite, slots) && Open(s, o, i)
    ensures s.mainthread in s.rootgc
    ensures var t := Link(s, id, kind, slots); Inv(t) && Live(t, id) && Extends(s, t) && Open(t, o, i)
  {
    LinkInv(s, id, kind, slots);
    LinkExtends(s, id, kind, slots);
    hide Inv, Open, Link, Extends;
    ExtendsOpen(s, Link(s, id, kind, slots), o, i);
  }

  lemma LinkExtends(s: State, id: Ref, kind: Kind, slots: seq<Option<Ref>>)
    requires s.mainthread in s.rootgc && id !in s.heap
    ensures Extends(s, Link(s, id, kind, slots))
  {
    LinkFrame(s.heap, id, Fresh(s.currentwhite, kind, slots, None, 0), slots);
  }

  lemma NewStringReady(s: State, id: Ref, hash: nat, o: Ref, i: nat)
    requires Inv(s) && id !in s.heap && Open(s, o, i)
    ensures |s.strt| > 0
    ensures var t := NewString(s, id, hash); Inv(t) && Live(t, id) && Extends(s, t) && Open(t, o, i)
  {
    NewStringInv(s, id, hash);
    ExtendsOpen(s, NewString(s, id, hash), o, i);
  }

  lemma StringHasNoSlots(s: State, x: Ref)
    requires Inv(s) && x in s.heap && s.heap[x].kind == TString
    ensures s.heap[x].slots == []
  {
    hide Linked, Closed, Counts, Colored, Shades;
    assert !s.heap[x].InRoot();
  }

  lemma FoundReady(s: State, x: Ref, o: Ref, i: nat)
    requires Inv(s) && x in s.heap && s.heap[x].kind == TString && Open(s, o, i)
    ensures var t := ChangeWhite(s, x); Inv(t) && Live(t, x) && Extends(s, t) && Open(t, o, i)
  {
    hide Inv;
    StringHasNoSlots(s, x);
    RevivedInv(s, x);
    ExtendsOpen(s, ChangeWhite(s, x), o, i);
  }

  lemma CaptureReady(s: State, id: Ref, level: nat, o: Ref, i: nat)
    requires Inv(s) && id !in s.heap && level < |s.heap[s.mainthread].slots| && Open(s, o, i)
    ensures Linked(s)
    ensures var t := FindUpval(s, id, level); Inv(t.0) && Live(t.0, t.1) && Extends(s, t.0) && Open(t.0, o, i)
  {
    FindUpvalInv(s, id, level);
    CaptureExtends(s, id, level);
    hide Inv, FindUpval, Extends;
    ExtendsOpen(s, FindUpval(s, id, level).0, o, i);
  }

  lemma CaptureExtends(s: State, id: Ref, level: nat)
    requires Linked(s) && id !in s.heap
    ensures Extends(s, FindUpval(s, id, level).0)
  {
    hide OpenListed, RootListed, StringsListed;
  }

  /** The state after a step. */
  function Next(s: State, a: Step): (t: State)
    requires Inv(s) && Enabled(s, a)
    ensures Inv(t)
  {
    match a
    case Collect(running) =>
      SingleStepInv(s, running);
      SingleStep(s, running)
    case Restart =>
      ResetInv(s);
      Reset(s)
    case Store(o, i, v) => StoreAt(s, o, i, v)
    case Create(id, kind, slots, o, i) =>
      LinkReady(s, id, kind, slots, o, i);
      StoreAt(Link(s, id, kind, slots), o, i, Some(id))
    case CreateString(id, hash, o, i) =>
      NewStringReady(s, id, hash, o, i);
      StoreAt(NewString(s, id, hash), o, i, Some(id))
    case FindString(x, o, i) =>
      FoundReady(s, x, o, i);
      StoreAt(ChangeWhite(s, x), o, i, Some(x))
    case Capture(id, level, o, i) =>
      CaptureReady(s, id, level, o, i);
      var r := FindUpval(s, id, level);
      StoreAt(r.0, o, i, Some(r.1))
    case Close =>
      CloseUpvalInv(s);
      CloseUpval(s)
    case SetMt(i, v) => SetTypeMetatable(s, i, v)
  }
}
