/** Counted stores and their barriers: setobj, luaC_barrierf, luaC_barrierback
    (src/lobject.h:258-262, src/lgc.h:86-97, src/lgc.c:851-884). */
module GcStore {
  import opened Seqs
  import opened GcState
  import opened GcRelease
  import opened GcMark

  /** luarc_addref on each value of q. */
  function AddRefs(h: map<Ref, GCObject>, q: seq<Option<Ref>>): map<Ref, GCObject> {
    map x | x in h :: h[x].(ref := h[x].ref + Count(q, x))
  }

  /** The slot takes its new value and that value is counted. */
  function Write(s: State, o: Ref, i: nat, v: Option<Ref>): State
    requires o in s.heap && i < |s.heap[o].slots|
  {
    s.(heap := AddRefs(s.heap[o := s.heap[o].(slots := s.heap[o].slots[i := v])], [v]))
  }

  /** luaC_barrier and luaC_barriert: a black object that now refers to a white
      one.  A table goes back to gray; for anything else the white object is
      marked while marking goes on, and later the black one is made white. */
  function Barrier(s: State, o: Ref, v: Option<Ref>): State
    requires o in s.heap && (v.Some? ==> v.value in s.heap)
    requires s.gcstate == Propagate ==> Markable(s)
  {
    if v.Some? && s.heap[v.value].color.White? && s.heap[o].color == Black then
      if s.heap[o].kind == TTable then Repaint(s, o, Gray).(grayagain := [o] + s.grayagain)
      else if s.gcstate == Propagate then Mark(s, v.value)
      else Repaint(s, o, White(s.currentwhite))
    else s
  }

  // --------------------------------------------------------------- soundness

  lemma AddRefsFrame(h: map<Ref, GCObject>, q: seq<Option<Ref>>)
    ensures AddRefs(h, q).Keys == h.Keys
    ensures forall x :: x in h ==> AddRefs(h, q)[x] == h[x].(ref := h[x].ref + Count(q, x))
  {
  }

  lemma WriteFrame(s: State, o: Ref, i: nat, v: Option<Ref>)
    requires o in s.heap && i < |s.heap[o].slots|
    ensures var g := Write(s, o, i, v).heap;
            && SameFrame(s.heap, g)
            && (forall x :: x in s.heap ==> g[x].color == s.heap[x].color)
            && (forall x :: x in s.heap ==> g[x].finalized == s.heap[x].finalized)
            && (forall x :: x in s.heap ==> g[x].ref == s.heap[x].ref + Count([v], x))
            && (forall x :: x in s.heap && x != o ==> g[x].slots == s.heap[x].slots)
            && g[o].slots == s.heap[o].slots[i := v]
  {
    AddRefsFrame(s.heap[o := s.heap[o].(slots := s.heap[o].slots[i := v])], [v]);
  }

  lemma WriteClosed(s: State, o: Ref, i: nat, v: Option<Ref>)
    requires o in s.heap && i < |s.heap[o].slots|
    requires Closed(s) && Live(s, o) && LiveOpt(s, v)
    ensures Closed(Write(s, o, i, v)) && AllLive(Write(s, o, i, v).heap, s.currentwhite, [s.heap[o].slots[i]])
  {
    WriteFrame(s, o, i, v);
    var t := Write(s, o, i, v);
    assert forall x :: LiveIn(t.heap, t.currentwhite, x) <==> LiveIn(s.heap, s.currentwhite, x);
    assert Roots(t) == Roots(s);
  }

  lemma WriteHolders(s: State, o: Ref, i: nat, v: Option<Ref>, x: Ref)
    requires Linked(s) && Live(s, o) && s.heap[o].InRoot() && i < |s.heap[o].slots|
    ensures forall y :: y in s.rootgc ==> y in Write(s, o, i, v).heap
    ensures Holders(Write(s, o, i, v), x) + Count([s.heap[o].slots[i]], x) == Holders(s, x) + Count([v], x)
  {
    WriteFrame(s, o, i, v);
    var t := Write(s, o, i, v);
    assert Roots(t) == Roots(s);
    HeldInChange(s.heap, t.heap, s.currentwhite, s.rootgc, o, x);
    CountUpdate(s.heap[o].slots, i, v, x);
  }

  lemma WriteCounts(s: State, o: Ref, i: nat, v: Option<Ref>)
    requires Linked(s) && Live(s, o) && s.heap[o].InRoot() && i < |s.heap[o].slots| && Counts(s, [])
    ensures Counts(Write(s, o, i, v), [s.heap[o].slots[i]])
  {
    WriteFrame(s, o, i, v);
    var t := Write(s, o, i, v);
    forall x | x in t.heap
      ensures t.heap[x].ref >= Holders(t, x) + Count([s.heap[o].slots[i]], x)
    {
      WriteHolders(s, o, i, v, x);
      assert s.heap[x].ref >= Holders(s, x) + Count([], x);
    }
  }

  lemma WriteSound(s: State, o: Ref, i: nat, v: Option<Ref>)
    requires Sound(s, []) && Live(s, o) && i < |s.heap[o].slots| && LiveOpt(s, v)
    ensures Sound(Write(s, o, i, v), [s.heap[o].slots[i]])
  {
    assert s.heap[o].InRoot();
    WriteFrame(s, o, i, v);
    SameLists(s.heap, Write(s, o, i, v).heap, s.rootgc, s.openupval, s.strt, s.mainthread);
    WriteClosed(s, o, i, v);
    WriteCounts(s, o, i, v);
  }

  // ------------------------------------------------------------------- colors

  /** A store breaks the color rule in one place at most: at the object stored
      into, for the value stored. */
  lemma WriteColored(s: State, o: Ref, i: nat, v: Option<Ref>)
    requires o in s.heap && i < |s.heap[o].slots| && Colored(s, {}, {}) && Shades(s.heap)
    ensures Colored(Write(s, o, i, v), {o}, Refs([v])) && Shades(Write(s, o, i, v).heap)
  {
    WriteFrame(s, o, i, v);
    var h, g := s.heap, Write(s, o, i, v).heap;
    assert forall x :: x in h ==> g[x].Traversable() == h[x].Traversable();
    if s.gcstate == Propagate {
      WriteTri(h, g, o, i, v);
    }
  }

  lemma WriteTri(h: map<Ref, GCObject>, g: map<Ref, GCObject>, o: Ref, i: nat, v: Option<Ref>)
    requires o in h && i < |h[o].slots| && TriBut(h, {}, {})
    requires g.Keys == h.Keys && forall x :: x in h ==> g[x].color == h[x].color
    requires forall x :: x in h ==> g[x].slots == if x == o then h[o].slots[i := v] else h[x].slots
    ensures TriBut(g, {o}, {}) && TriBut(g, {}, Refs([v]))
  {
    assert forall x, j :: x in h && h[x].color == Black && 0 <= j < |h[x].slots| ==> !IsWhite(h, h[x].slots[j]);
    assert forall x, j :: x in h && 0 <= j < |h[x].slots| && (x != o || j != i) ==> g[x].slots[j] == h[x].slots[j];
    forall x, j | x in g && g[x].color == Black && 0 <= j < |g[x].slots| && IsWhite(g, g[x].slots[j])
      ensures x == o && g[x].slots[j].value in Refs([v])
    {
      assert IsWhite(h, g[x].slots[j]);
      assert [v][0] == g[x].slots[j];
    }
  }

  // ------------------------------------------------------------------ barriers

  lemma TriNone(h: map<Ref, GCObject>, o: Ref, v: Option<Ref>)
    requires TriBut(h, {o}, {}) && TriBut(h, {}, Refs([v]))
    requires !IsWhite(h, v) || (o in h && h[o].color != Black)
    ensures TriBut(h, {}, {})
  {
    assert forall y :: y in Refs([v]) ==> v == Some(y);
  }

  /** luaC_barrierback in the mark phase. */
  lemma BarrierBackKeeps(h: map<Ref, GCObject>, gray: seq<Ref>, grayagain: seq<Ref>, o: Ref)
    requires o in h && h[o].color == Black && h[o].kind == TTable
    requires GrayLists(h, gray, grayagain) && TriBut(h, {o}, {})
    ensures GrayLists(Tint(h, o, Gray), gray, [o] + grayagain) && TriBut(Tint(h, o, Gray), {}, {})
  {
    var g := Tint(h, o, Gray);
    assert o !in gray && o !in grayagain;
    forall x, i | x in g && g[x].color == Black && 0 <= i < |g[x].slots| && IsWhite(g, g[x].slots[i])
      ensures false
    {
      assert IsWhite(h, h[x].slots[i]);
    }
  }

  /** Black and gray objects are live, and so are current whites: recoloring
      between them leaves soundness alone. */
  lemma RepaintSound(s: State, o: Ref, c: Color)
    requires Sound(s, []) && Live(s, o) && c != White(!s.currentwhite)
    ensures Sound(Repaint(s, o, c), [])
  {
    var t := Repaint(s, o, c);
    SameLists(s.heap, t.heap, s.rootgc, s.openupval, s.strt, s.mainthread);
    RepaintClosed(s, o, c);
    RepaintCounts(s, o, c);
  }

  lemma RepaintClosed(s: State, o: Ref, c: Color)
    requires Closed(s) && Live(s, o) && c != White(!s.currentwhite)
    ensures Closed(Repaint(s, o, c))
  {
    var t := Repaint(s, o, c);
    assert forall x :: LiveIn(t.heap, t.currentwhite, x) <==> LiveIn(s.heap, s.currentwhite, x);
    assert Roots(t) == Roots(s);
  }

  lemma RepaintCounts(s: State, o: Ref, c: Color)
    requires Counts(s, []) && Live(s, o) && c != White(!s.currentwhite)
    ensures Counts(Repaint(s, o, c), [])
  {
    var t := Repaint(s, o, c);
    assert Roots(t) == Roots(s);
    forall x | x in t.heap
      ensures t.heap[x].ref >= Holders(t, x) + Count([], x)
    {
      HeldInSame(s.heap, t.heap, s.currentwhite, s.currentwhite, s.rootgc, x);
      assert s.heap[x].ref >= Holders(s, x) + Count([], x);
    }
  }

  /** Soundness does not look at the gray lists. */
  lemma SoundLists(s: State, gray: seq<Ref>, grayagain: seq<Ref>)
    requires Sound(s, [])
    ensures Sound(s.(gray := gray, grayagain := grayagain), [])
  {
    var t := s.(gray := gray, grayagain := grayagain);
    assert Roots(t) == Roots(s);
    forall x | x in t.heap
      ensures t.heap[x].ref >= Holders(t, x) + Count([], x)
    {
      assert s.heap[x].ref >= Holders(s, x) + Count([], x);
    }
  }

  lemma SoundMarkable(s: State)
    requires Sound(s, []) && (s.gcstate == Propagate ==> NoDead(s.heap, s.currentwhite))
    ensures s.gcstate == Propagate ==> Markable(s)
  {
  }

  /** What a barrier starts from. */
  ghost predicate Stored(s: State, o: Ref, v: Option<Ref>) {
    && Sound(s, [])
    && Shades(s.heap)
    && Colored(s, {o}, Refs([v]))
    && Live(s, o) && LiveOpt(s, v)
    && s.heap[o].InRoot()
  }

  /** The black object that a barrier finds during a sweep lies behind the
      cursor, whatever color it gets. */
  lemma SweepRepaint(s: State, o: Ref, c: Color)
    requires s.gcstate == Sweep || s.gcstate == Sweepstring
    requires Linked(s) && Colored(s, {}, {}) && o in s.heap && s.heap[o].color == Black && s.heap[o].InRoot()
    ensures Colored(Repaint(s, o, c), {}, {})
  {
    var t := Repaint(s, o, c);
    assert forall x :: x in s.heap && x != o ==> t.heap[x] == s.heap[x];
    assert t.heap.Keys == s.heap.Keys;
  }

  lemma BarrierSweep(s: State, o: Ref, v: Option<Ref>)
    requires Stored(s, o, v) && s.gcstate != Propagate
    ensures Inv(Barrier(s, o, v))
  {
    StoredLater(s, o, v);
    if v.Some? && s.heap[v.value].color.White? && s.heap[o].color == Black {
      var c := if s.heap[o].kind == TTable then Gray else White(s.currentwhite);
      RepaintInv(s, o, c);
      hide Inv, Stored, Sound, Colored, Shades;
      if c == Gray {
        InvLists(Repaint(s, o, c), s.gray, [o] + s.grayagain);
      }
    }
  }

  lemma RepaintInv(s: State, o: Ref, c: Color)
    requires Inv(s) && (s.gcstate == Sweep || s.gcstate == Sweepstring)
    requires Live(s, o) && s.heap[o].color == Black && s.heap[o].InRoot()
    requires c == White(s.currentwhite) || (c == Gray && s.heap[o].kind == TTable)
    ensures Inv(Repaint(s, o, c))
  {
    hide Sound, Linked, Colored, Shades;
    SoundLinked(s);
    RepaintSound(s, o, c);
    SweepRepaint(s, o, c);
    RepaintShades(s.heap, o, c);
  }

  lemma SoundLinked(s: State)
    requires Sound(s, [])
    ensures Linked(s)
  {
    hide Linked;
  }

  lemma RepaintShades(h: map<Ref, GCObject>, o: Ref, c: Color)
    requires Shades(h) && o in h && h[o].InRoot() && (c.White? || h[o].kind == TTable) && c != Black
    ensures Shades(Tint(h, o, c))
  {
  }

  lemma StoredLater(s: State, o: Ref, v: Option<Ref>)
    requires Stored(s, o, v) && s.gcstate != Propagate
    ensures Inv(s) && Linked(s)
    ensures s.heap[o].color == Black ==> s.gcstate == Sweep || s.gcstate == Sweepstring
  {
  }

  lemma InvLists(s: State, gray: seq<Ref>, grayagain: seq<Ref>)
    requires Inv(s) && s.gcstate != Propagate
    ensures Inv(s.(gray := gray, grayagain := grayagain))
  {
    SoundLists(s, gray, grayagain);
    hide Sound;
  }

  lemma BarrierForward(s: State, o: Ref, v: Ref)
    requires Stored(s, o, Some(v)) && s.gcstate == Propagate
    ensures Markable(s) && v in s.heap && Inv(Mark(s, v))
  {
    StoredMarking(s, o, v);
    hide Stored, Sound, Marking, Markable, NoDead, RootsMarked, Marked, Mark;
    MarkKeeps(s, v, {});
    MarkedSound(s, Mark(s, v));
    MarkedInv(s, Mark(s, v));
  }

  lemma StoredMarking(s: State, o: Ref, v: Ref)
    requires Stored(s, o, Some(v)) && s.gcstate == Propagate
    ensures Markable(s) && v in s.heap && Marking(s, {} + {v}) && Sound(s, [])
    ensures NoDead(s.heap, s.currentwhite) && RootsMarked(s.heap, s.mainthread, s.registry)
  {
    SoundMarkable(s);
    hide Sound;
    assert Refs([Some(v)]) == {v} by { assert [Some(v)][0] == Some(v); }
  }

  lemma MarkedInv(s: State, t: State)
    requires s.gcstate == Propagate && Marked(s, t) && Sound(t, []) && Marking(t, {})
    requires NoDead(t.heap, t.currentwhite) && RootsMarked(t.heap, t.mainthread, t.registry)
    ensures Inv(t)
  {
    hide Sound, Darker;
  }

  lemma MarkedSound(s: State, t: State)
    requires Sound(s, []) && NoDead(s.heap, s.currentwhite) && Marked(s, t)
    requires RootsMarked(s.heap, s.mainthread, s.registry)
    ensures Sound(t, []) && NoDead(t.heap, t.currentwhite) && RootsMarked(t.heap, t.mainthread, t.registry)
  {
    SameLists(s.heap, t.heap, s.rootgc, s.openupval, s.strt, s.mainthread);
    MarkedClosed(s, t);
    MarkedCounts(s, t);
  }

  lemma MarkedClosed(s: State, t: State)
    requires Closed(s) && NoDead(s.heap, s.currentwhite) && Marked(s, t)
    ensures Closed(t) && NoDead(t.heap, t.currentwhite)
  {
    assert forall x :: LiveIn(t.heap, t.currentwhite, x) <==> LiveIn(s.heap, s.currentwhite, x);
    assert Roots(t) == Roots(s);
  }

  lemma MarkedCounts(s: State, t: State)
    requires Counts(s, []) && NoDead(s.heap, s.currentwhite) && Marked(s, t)
    ensures Counts(t, [])
  {
    assert Roots(t) == Roots(s);
    forall x | x in t.heap
      ensures t.heap[x].ref >= Holders(t, x) + Count([], x)
    {
      HeldInSame(s.heap, t.heap, s.currentwhite, t.currentwhite, s.rootgc, x);
      assert s.heap[x].ref >= Holders(s, x) + Count([], x);
    }
  }

  lemma BarrierBack(s: State, o: Ref, v: Ref)
    requires Stored(s, o, Some(v)) && s.gcstate == Propagate
    requires s.heap[o].color == Black && s.heap[o].kind == TTable
    ensures Inv(Repaint(s, o, Gray).(grayagain := [o] + s.grayagain))
  {
    hide Sound, TriBut, GrayLists, Shades, NoDead;
    RepaintSound(s, o, Gray);
    BarrierBackKeeps(s.heap, s.gray, s.grayagain, o);
    SoundLists(Repaint(s, o, Gray), s.gray, [o] + s.grayagain);
    GrayShades(s.heap, o, s.currentwhite);
  }

  lemma GrayShades(h: map<Ref, GCObject>, o: Ref, w: bool)
    requires Shades(h) && NoDead(h, w) && o in h && h[o].kind == TTable
    ensures Shades(Tint(h, o, Gray)) && NoDead(Tint(h, o, Gray), w)
  {
  }

  /** Both barriers restore the invariant. */
  lemma BarrierInv(s: State, o: Ref, v: Option<Ref>)
    requires Stored(s, o, v)
    ensures s.gcstate == Propagate ==> Markable(s)
    ensures Inv(Barrier(s, o, v))
  {
    SoundMarkable(s);
    if s.gcstate != Propagate {
      BarrierSweep(s, o, v);
    } else if v.Some? && s.heap[v.value].color.White? && s.heap[o].color == Black {
      if s.heap[o].kind == TTable {
        BarrierBack(s, o, v.value);
      } else {
        BarrierForward(s, o, v.value);
      }
    } else {
      TriNone(s.heap, o, v);
    }
  }

  // ----------------------------------------------------------------- the store

  /** A path that does not run through o before its end is not touched by a
      store into o. */
  lemma {:induction false} PathTo(s: State, p: seq<Ref>, o: Ref) returns (q: seq<Ref>)
    requires Path(s, p) && p[|p| - 1] == o
    ensures Path(s, q) && q[|q| - 1] == o && forall k :: 0 <= k < |q| - 1 ==> q[k] != o
    decreases |p|
  {
    if k :| 0 <= k < |p| - 1 && p[k] == o {
      q := PathTo(s, p[..k + 1], o);
    } else {
      q := p;
    }
  }

  lemma ReachableAfterWrite(s: State, o: Ref, i: nat, v: Option<Ref>)
    requires o in s.heap && i < |s.heap[o].slots| && Reachable(s, o)
    ensures Reachable(Write(s, o, i, v), o)
  {
    WriteFrame(s, o, i, v);
    var p :| Path(s, p) && p[|p| - 1] == o;
    var q := PathTo(s, p, o);
    assert Roots(Write(s, o, i, v)) == Roots(s);
    assert Path(Write(s, o, i, v), q);
  }

  /** The store without its barrier: the slot changes, the old value is dropped. */
  function Overwrite(s: State, o: Ref, i: nat, v: Option<Ref>): (t: State)
    requires Sound(s, []) && Live(s, o) && i < |s.heap[o].slots| && LiveOpt(s, v)
    ensures Sound(t, [])
  {
    WriteSound(s, o, i, v);
    Release(Write(s, o, i, v), [s.heap[o].slots[i]])
  }

  lemma WrittenSurvives(u: State, t: State, o: Ref, i: nat)
    requires Closed(u) && Closed(t) && Shrunk(u, t) && Reachable(u, o)
    requires o in u.heap && i < |u.heap[o].slots|
    ensures Live(t, o) && t.heap[o].slots == u.heap[o].slots && t.heap[o].level == u.heap[o].level
    ensures t.heap[o].kind == u.heap[o].kind && LiveOpt(t, u.heap[o].slots[i])
  {
    var p :| Path(u, p) && p[|p| - 1] == o;
    PathSurvives(u, t, p);
    PathLive(t, p);
    if t.heap[o].slots[i].Some? {
      assert LiveIn(t.heap, t.currentwhite, t.heap[o].slots[i].value);
    }
  }

  /** Neither the object stored into nor the value stored is released. */
  lemma OverwriteKeeps(s: State, o: Ref, i: nat, v: Option<Ref>)
    requires Inv(s) && Reachable(s, o) && Live(s, o) && i < |s.heap[o].slots| && LiveOpt(s, v)
    ensures Stored(Overwrite(s, o, i, v), o, v)
    ensures Shrunk(Write(s, o, i, v), Overwrite(s, o, i, v))
  {
    var u := Write(s, o, i, v);
    assert s.heap[o].InRoot();
    WriteSound(s, o, i, v);
    WriteColored(s, o, i, v);
    ReachableAfterWrite(s, o, i, v);
    WriteFrame(s, o, i, v);
    hide Linked, Shaped, Counts, Closed, AllLive, Colored, Shades, Write, Shrunk, Reachable;
    ReleaseKeeps(u, [s.heap[o].slots[i]], {o}, Refs([v]));
    WrittenSurvives(u, Overwrite(s, o, i, v), o, i);
  }

  /** setobj with the barrier that the kind of o asks for. */
  function SetSlot(s: State, o: Ref, i: nat, v: Option<Ref>): (t: State)
    requires Inv(s) && Reachable(s, o) && Live(s, o) && i < |s.heap[o].slots| && LiveOpt(s, v)
    ensures Inv(t)
  {
    OverwriteKeeps(s, o, i, v);
    hide Inv, Sound;
    BarrierInv(Overwrite(s, o, i, v), o, v);
    Barrier(Overwrite(s, o, i, v), o, v)
  }

  // ------------------------------------------------------- what a store changes

  ghost predicate Repainted(s: State, t: State) {
    && t.heap.Keys == s.heap.Keys && t.rootgc == s.rootgc && Roots(t) == Roots(s) && t.mainthread == s.mainthread
    && (forall x :: x in s.heap ==>
          && t.heap[x] == s.heap[x].(color := t.heap[x].color)
          && IsDead(t.heap[x], t.currentwhite) == IsDead(s.heap[x], s.currentwhite))
  }

  /** A barrier recolors live objects, and does no more. */
  lemma BarrierRepaints(s: State, o: Ref, v: Option<Ref>)
    requires Stored(s, o, v)
    ensures s.gcstate == Propagate ==> Markable(s)
    ensures Repainted(s, Barrier(s, o, v))
  {
    hide Linked, Shaped, Closed, Counts, AllLive, Mark, Shades, TriBut, GrayLists;
    SoundMarkable(s);
  }

  lemma RepaintedHolders(s: State, t: State, x: Ref)
    requires Repainted(s, t) && forall y :: y in s.rootgc ==> y in s.heap
    ensures Holders(t, x) == Holders(s, x)
  {
    HeldInSame(s.heap, t.heap, s.currentwhite, t.currentwhite, s.rootgc, x);
  }

  /** An object a that is left as b, with these slots.  If a store has used up its
      count, it is left only if it is fixed, a userdata that is finalized, or an
      open upvalue. */
  predicate LeftAs(a: GCObject, b: GCObject, slots: seq<Option<Ref>>) {
    && b == a.(ref := b.ref, color := b.color, slots := slots)
    && (b.ref < a.ref && b.ref <= 0 ==> b.fixed || (b.kind == TUserdata && b.finalized) || b.level.Some?)
  }

  /** The heaps before and after a store. */
  ghost predicate SlotSet(h: map<Ref, GCObject>, g: map<Ref, GCObject>, o: Ref, i: nat, v: Option<Ref>) {
    && o in h && i < |h[o].slots| && g.Keys <= h.Keys
    && (forall x :: x in g ==> LeftAs(h[x], g[x], if x == o then h[x].slots[i := v] else h[x].slots))
  }

  /** Of x, between the states s before and t after a store.  Its slots are what
      they were, but for the one that is stored into.  Its count stays as far
      above the number of its holders as it was, so that an exact count stays
      exact.  If it is gone, it was not fixed, no userdata that is finalized and
      no open upvalue, and had no references but those that are gone. */
  ghost predicate Exchanged(s: State, t: State, o: Ref, i: nat, v: Option<Ref>, x: Ref)
    requires o in s.heap && i < |s.heap[o].slots| && x in s.heap
    requires (forall y :: y in s.rootgc ==> y in s.heap) && (forall y :: y in t.rootgc ==> y in t.heap)
  {
    if x in t.heap then
      && LeftAs(s.heap[x], t.heap[x], if x == o then s.heap[x].slots[i := v] else s.heap[x].slots)
      && t.heap[x].ref - Holders(t, x) == s.heap[x].ref - Holders(s, x)
    else
      var a := s.heap[x];
      && !a.fixed && !(a.kind == TUserdata && a.finalized) && a.level.None?
      && a.ref == Holders(s, x)
  }

  lemma OverwriteExact(s: State, o: Ref, i: nat, v: Option<Ref>, x: Ref)
    requires Sound(s, []) && Live(s, o) && i < |s.heap[o].slots| && LiveOpt(s, v)
    requires x in s.heap
    ensures (forall y :: y in s.rootgc ==> y in s.heap) && (forall y :: y in Overwrite(s, o, i, v).rootgc ==> y in Overwrite(s, o, i, v).heap)
    ensures Overwrite(s, o, i, v).heap.Keys <= s.heap.Keys && Exchanged(s, Overwrite(s, o, i, v), o, i, v, x)
  {
    hide Shaped, Closed, AllLive, Holders, Count, Release, RootListed, StringsListed, OpenListed;
    StoredInRoot(s, o, i);
    var u := Write(s, o, i, v);
    WriteSound(s, o, i, v);
    WriteFrame(s, o, i, v);
    WriteHolders(s, o, i, v, x);
    ReleaseExact(u, [s.heap[o].slots[i]]);
  }

  lemma StoredInRoot(s: State, o: Ref, i: nat)
    requires Sound(s, []) && o in s.heap && i < |s.heap[o].slots|
    ensures s.heap[o].InRoot() && forall y :: y in s.rootgc ==> y in s.heap
  {
  }

  /** What a store changes, its cascade and its barrier included. */
  lemma SetSlotExact(s: State, o: Ref, i: nat, v: Option<Ref>, x: Ref)
    requires Inv(s) && Reachable(s, o) && Live(s, o) && i < |s.heap[o].slots| && LiveOpt(s, v)
    requires x in s.heap
    ensures (forall y :: y in s.rootgc ==> y in s.heap) && (forall y :: y in SetSlot(s, o, i, v).rootgc ==> y in SetSlot(s, o, i, v).heap)
    ensures SetSlot(s, o, i, v).heap.Keys <= s.heap.Keys && Exchanged(s, SetSlot(s, o, i, v), o, i, v, x)
  {
    hide Sound, Holders, Overwrite, Barrier, Reachable, Shades, Colored, Live, LiveOpt;
    OverwriteExact(s, o, i, v, x);
    OverwriteKeeps(s, o, i, v);
    BarrierRepaints(Overwrite(s, o, i, v), o, v);
    RepaintedHolders(Overwrite(s, o, i, v), SetSlot(s, o, i, v), x);
  }

  // ------------------------------------------------ the list that barriers leave

  /** x is an allocated object of a kind that has gray-list links. */
  predicate HasGrayLinks(h: map<Ref, GCObject>, x: Ref) {
    x in h && h[x].Traversable()
  }

  /** The back barrier may write to the head of `grayagain`. */
  predicate HeadThere(s: State) {
    s.grayagain == [] || HasGrayLinks(s.heap, s.grayagain[0])
  }

  /** Barriers write to objects that are there, the head of `grayagain` included. */
  predicate BarrierSafe(s: State, o: Ref, v: Option<Ref>)
    requires o in s.heap && (v.Some? ==> v.value in s.heap)
  {
    v.Some? && s.heap[v.value].color.White? && s.heap[o].color == Black && s.heap[o].kind == TTable ==> HeadThere(s)
  }

  /** The same for the barrier at the end of a store. */
  ghost predicate StoreSafe(s: State, o: Ref, i: nat, v: Option<Ref>)
    requires Inv(s) && Reachable(s, o) && Live(s, o) && i < |s.heap[o].slots| && LiveOpt(s, v)
  {
    OverwriteKeeps(s, o, i, v);
    BarrierSafe(Overwrite(s, o, i, v), o, v)
  }

  /** While marking goes on, and whenever the colors are all white, no store goes
      wrong. */
  lemma SafeOutsideSweep(s: State, o: Ref, i: nat, v: Option<Ref>)
    requires Inv(s) && Reachable(s, o) && Live(s, o) && i < |s.heap[o].slots| && LiveOpt(s, v)
    requires s.gcstate != Sweepstring && s.gcstate != Sweep
    ensures StoreSafe(s, o, i, v)
  {
    OverwriteKeeps(s, o, i, v);
    var t := Overwrite(s, o, i, v);
    hide Inv, Sound, Overwrite, Write, Reachable, Live, LiveOpt;
    StoredHead(t, o, v);
  }

  lemma StoredHead(t: State, o: Ref, v: Option<Ref>)
    requires Stored(t, o, v) && t.gcstate != Sweepstring && t.gcstate != Sweep
    ensures o in t.heap && (v.Some? ==> v.value in t.heap) && BarrierSafe(t, o, v)
  {
    hide Sound;
    if t.gcstate == Propagate && t.grayagain != [] {
      assert t.grayagain[0] in t.grayagain;
    }
  }

  /** A release takes the freed object off the gray lists in the mark phase only,
      while the back barrier links tables in both sweep phases too.  So the head
      of `grayagain` stays an allocated object exactly if marking is going on or
      the head is not what is freed. */
  lemma StaleHead(s: State, c: Ref)
    requires |s.strt| > 0 && c in s.heap && HeadThere(s) && s.grayagain != []
    requires s.gcstate == Propagate ==> GrayLists(s.heap, s.gray, s.grayagain)
    ensures HeadThere(Remove(s, c)) <==> (s.gcstate == Propagate || s.grayagain[0] != c)
  {
    var t := Remove(s, c);
    if s.gcstate == Propagate {
      assert s.grayagain[0] in s.grayagain;
      if t.grayagain != [] {
        assert t.grayagain[0] in t.grayagain;
      }
    }
  }
}
