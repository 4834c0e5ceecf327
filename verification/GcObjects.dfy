/** New objects: luaC_link, and luaS_newudata for userdata (src/lgc.c:887-902,
    src/lstring.c:109-135). */
module GcObjects {
  import opened Seqs
  import opened GcState
  import opened GcRelease
  import opened GcMark
  import opened GcStore
  import opened GcSweep

  function Insert<T>(q: seq<T>, j: nat, x: T): seq<T>
    requires j <= |q|
  {
    q[..j] + [x] + q[j..]
  }

  function Fresh(w: bool, kind: Kind, slots: seq<Option<Ref>>, level: Option<nat>, hash: nat): GCObject {
    GCObject(kind, White(w), false, false, 0, slots, level, hash)
  }

  /** A new object enters the front of `rootgc`; userdata go after the main
      thread.  The cursor keeps pointing at the same link. */
  function Link(s: State, id: Ref, kind: Kind, slots: seq<Option<Ref>>): State
    requires kind == TUserdata ==> s.mainthread in s.rootgc
  {
    var j := if kind == TUserdata then IndexOf(s.rootgc, s.mainthread) + 1 else 0;
    s.(
      heap := AddRefs(s.heap, slots)[id := Fresh(s.currentwhite, kind, slots, None, 0)],
      rootgc := Insert(s.rootgc, j, id),
      sweepgc := if j < s.sweepgc then s.sweepgc + 1 else s.sweepgc)
  }

  // ------------------------------------------------------------- counting facts

  lemma {:induction false} CountZero(q: seq<Option<Ref>>, x: Ref)
    requires Some(x) !in q
    ensures Count(q, x) == 0
  {
    if q != [] {
      CountZero(q[1..], x);
    }
  }

  lemma {:induction false} HeldInZero(h: map<Ref, GCObject>, w: bool, q: seq<Ref>, x: Ref)
    requires forall y :: y in q ==> y in h && Held(h[y], w, x) == 0
    ensures HeldIn(h, w, q, x) == 0
  {
    if q != [] {
      HeldInZero(h, w, q[1..], x);
    }
  }

  lemma LiveIsUsed(h: map<Ref, GCObject>, w: bool, q: seq<Option<Ref>>, x: Ref)
    requires AllLive(h, w, q) && x !in h
    ensures Some(x) !in q && Count(q, x) == 0
  {
    forall i | 0 <= i < |q|
      ensures q[i] != Some(x)
    {
      assert q[i].Some? ==> LiveIn(h, w, q[i].value);
    }
    CountZero(q, x);
  }

  /** Nothing live refers to an address that holds no object. */
  lemma UnusedUnheld(s: State, id: Ref)
    requires Linked(s) && Closed(s) && id !in s.heap
    ensures Holders(s, id) == 0
  {
    forall y | y in s.rootgc
      ensures Held(s.heap[y], s.currentwhite, id) == 0
    {
      if Live(s, y) {
        LiveIsUsed(s.heap, s.currentwhite, s.heap[y].slots, id);
      }
    }
    HeldInZero(s.heap, s.currentwhite, s.rootgc, id);
    LiveIsUsed(s.heap, s.currentwhite, Roots(s), id);
  }

  // ------------------------------------------------------------ a linked object

  lemma LinkFrame(h: map<Ref, GCObject>, id: Ref, o: GCObject, q: seq<Option<Ref>>)
    requires id !in h
    ensures var g := AddRefs(h, q)[id := o];
            g.Keys == h.Keys + {id} && g[id] == o &&
            forall x :: x in h ==> g[x] == h[x].(ref := h[x].ref + Count(q, x))
  {
  }

  lemma LinkLists(s: State, id: Ref, kind: Kind, slots: seq<Option<Ref>>)
    requires Linked(s) && Shaped(s) && id !in s.heap && kind != TString
    ensures s.mainthread in s.rootgc
    ensures Linked(Link(s, id, kind, slots)) && Shaped(Link(s, id, kind, slots))
  {
    assert s.mainthread in s.rootgc;
    var t := Link(s, id, kind, slots);
    var o := Fresh(s.currentwhite, kind, slots, None, 0);
    var j := if kind == TUserdata then IndexOf(s.rootgc, s.mainthread) + 1 else 0;
    LinkFrame(s.heap, id, o, slots);
    GrowRoot(s.heap, t.heap, id, s.rootgc, j);
    GrowRest(s.heap, t.heap, id, s.openupval, s.strt, s.mainthread);
  }

  ghost predicate Grown(h: map<Ref, GCObject>, g: map<Ref, GCObject>, id: Ref) {
    && id !in h
    && g.Keys == h.Keys + {id}
    && (forall x :: x in h ==> g[x] == h[x].(ref := g[x].ref))
    && !g[id].fixed
  }

  lemma GrowRoot(h: map<Ref, GCObject>, g: map<Ref, GCObject>, id: Ref, q: seq<Ref>, j: nat)
    requires Grown(h, g, id) && RootListed(h, q) && j <= |q| && g[id].InRoot()
    ensures RootListed(g, Insert(q, j, id))
  {
    var r := Insert(q, j, id);
    assert forall x :: x in r <==> x in q || x == id by {
      assert q == q[..j] + q[j..];
    }
    assert id !in q;
  }

  lemma GrowRest(h: map<Ref, GCObject>, g: map<Ref, GCObject>, id: Ref, open: seq<Ref>, strt: seq<seq<Ref>>, m: Ref)
    requires Grown(h, g, id) && g[id].InRoot() && |strt| > 0
    requires OpenListed(h, open) && StringsListed(h, strt) && ShapedIn(h, m)
    ensures OpenListed(g, open) && StringsListed(g, strt) && ShapedIn(g, m)
  {
    hide StringsListed, ShapedIn;
    GrowBuckets(h, g, id, strt);
    GrowShaped(h, g, id, m);
  }

  lemma GrowBuckets(h: map<Ref, GCObject>, g: map<Ref, GCObject>, id: Ref, strt: seq<seq<Ref>>)
    requires Grown(h, g, id) && g[id].kind != TString && |strt| > 0 && StringsListed(h, strt)
    ensures StringsListed(g, strt)
  {
  }

  lemma GrowShaped(h: map<Ref, GCObject>, g: map<Ref, GCObject>, id: Ref, m: Ref)
    requires Grown(h, g, id) && g[id].InRoot() && ShapedIn(h, m)
    ensures ShapedIn(g, m)
  {
  }

  lemma LinkClosed(s: State, id: Ref, kind: Kind, slots: seq<Option<Ref>>)
    requires Closed(s) && id !in s.heap && s.mainthread in s.rootgc && AllLive(s.heap, s.currentwhite, slots)
    ensures Closed(Link(s, id, kind, slots)) && Live(Link(s, id, kind, slots), id)
  {
    var t := Link(s, id, kind, slots);
    LinkFrame(s.heap, id, Fresh(s.currentwhite, kind, slots, None, 0), slots);
    assert Roots(t) == Roots(s);
    assert forall x :: LiveIn(t.heap, t.currentwhite, x) <==> LiveIn(s.heap, s.currentwhite, x) || x == id;
  }

  lemma InsertHeld(h: map<Ref, GCObject>, g: map<Ref, GCObject>, id: Ref, w: bool, q: seq<Ref>, j: nat, x: Ref)
    requires Grown(h, g, id) && g[id].color == White(w) && j <= |q| && forall y :: y in q ==> y in h
    ensures forall y :: y in Insert(q, j, id) ==> y in g
    ensures HeldIn(g, w, Insert(q, j, id), x) == HeldIn(h, w, q, x) + Count(g[id].slots, x)
  {
    var r := Insert(q, j, id);
    assert r[..j] == q[..j] && r[j + 1..] == q[j..] && r[..j] + r[j + 1..] == q;
    HeldInAt(g, w, r, j, x);
    HeldInSame(h, g, w, w, q, x);
  }

  lemma MainListed(s: State)
    requires Linked(s) && Shaped(s)
    ensures s.mainthread in s.rootgc
  {
  }

  lemma LinkCounts(s: State, id: Ref, kind: Kind, slots: seq<Option<Ref>>)
    requires Linked(s) && Shaped(s) && Closed(s) && Counts(s, [])
    requires id !in s.heap && kind != TString && AllLive(s.heap, s.currentwhite, slots)
    ensures s.mainthread in s.rootgc && Counts(Link(s, id, kind, slots), [])
  {
    hide Linked, Shaped, Closed, Counts, Holders, Count, HeldIn, AllLive;
    MainListed(s);
    UnusedUnheld(s, id);
    LiveIsUsed(s.heap, s.currentwhite, slots, id);
    var t := Link(s, id, kind, slots);
    var j := if kind == TUserdata then IndexOf(s.rootgc, s.mainthread) + 1 else 0;
    var o := Fresh(s.currentwhite, kind, slots, None, 0);
    LinkFrame(s.heap, id, o, slots);
    assert Grown(s.heap, t.heap, id) && t.heap[id] == o && t.rootgc == Insert(s.rootgc, j, id);
    assert Roots(t) == Roots(s);
    GrowCounts(s, t, id, j, slots);
  }

  lemma GrowCounts(s: State, t: State, id: Ref, j: nat, slots: seq<Option<Ref>>)
    requires Counts(s, []) && Holders(s, id) == 0 && Count(slots, id) == 0
    requires Grown(s.heap, t.heap, id) && j <= |s.rootgc| && t.rootgc == Insert(s.rootgc, j, id)
    requires Roots(t) == Roots(s) && t.currentwhite == s.currentwhite
    requires t.heap[id].color == White(t.currentwhite) && t.heap[id].slots == slots && t.heap[id].ref == 0
    requires forall x :: x in s.heap ==> t.heap[x].ref == s.heap[x].ref + Count(slots, x)
    ensures Counts(t, [])
  {
    InsertHeld(s.heap, t.heap, id, s.currentwhite, s.rootgc, j, id);
    forall x | x in t.heap
      ensures t.heap[x].ref >= Holders(t, x) + Count([], x)
    {
      InsertHeld(s.heap, t.heap, id, s.currentwhite, s.rootgc, j, x);
      if x != id {
        assert s.heap[x].ref >= Holders(s, x) + Count([], x);
      }
    }
  }

  lemma GrowColored(h: map<Ref, GCObject>, g: map<Ref, GCObject>, id: Ref, w: bool, gray: seq<Ref>, grayagain: seq<Ref>)
    requires Grown(h, g, id) && g[id].color == White(w)
    requires NoDead(h, w) && ClosedIn(h, w) && TriBut(h, {}, {}) && GrayLists(h, gray, grayagain)
    ensures NoDead(g, w) && TriBut(g, {}, {}) && GrayLists(g, gray, grayagain)
  {
    forall x, i | x in g && g[x].color == Black && 0 <= i < |g[x].slots|
      ensures !IsWhite(g, g[x].slots[i])
    {
      if g[x].slots[i].Some? {
        assert LiveIn(h, w, x) && LiveIn(h, w, h[x].slots[i].value);
        assert !IsWhite(h, h[x].slots[i]);
      }
    }
    assert GrayLists(g, gray, grayagain) by {
      assert forall x :: x in h ==> g[x].Traversable() == h[x].Traversable();
    }
  }

  lemma LinkColored(s: State, id: Ref, kind: Kind, slots: seq<Option<Ref>>)
    requires Inv(s) && id !in s.heap && kind != TString
    ensures s.mainthread in s.rootgc
    ensures Colored(Link(s, id, kind, slots), {}, {}) && Shades(Link(s, id, kind, slots).heap)
  {
    assert s.mainthread in s.rootgc;
    LinkShape(s, id, kind, slots);
    hide Inv, Shades, Colored, Link, Grown;
    var j := if kind == TUserdata then IndexOf(s.rootgc, s.mainthread) + 1 else 0;
    GrowState(s, Link(s, id, kind, slots), id, j);
  }

  lemma LinkShape(s: State, id: Ref, kind: Kind, slots: seq<Option<Ref>>)
    requires s.mainthread in s.rootgc && id !in s.heap
    ensures var t := Link(s, id, kind, slots);
            var j := if kind == TUserdata then IndexOf(s.rootgc, s.mainthread) + 1 else 0;
            && Grown(s.heap, t.heap, id) && t.heap[id] == Fresh(s.currentwhite, kind, slots, None, 0)
            && t == s.(heap := t.heap, rootgc := Insert(s.rootgc, j, id), sweepgc := if j < s.sweepgc then s.sweepgc + 1 else s.sweepgc)
            && (forall x :: x in s.heap ==> t.heap[x].ref == s.heap[x].ref + Count(slots, x))
  {
    LinkFrame(s.heap, id, Fresh(s.currentwhite, kind, slots, None, 0), slots);
  }

  /** The colors stay right when an object of the current white comes into
      `rootgc`. */
  lemma GrowState(s: State, t: State, id: Ref, j: nat)
    requires Inv(s) && Grown(s.heap, t.heap, id) && t.heap[id].color == White(s.currentwhite) && j <= |s.rootgc|
    requires t == s.(heap := t.heap, rootgc := Insert(s.rootgc, j, id), sweepgc := if j < s.sweepgc then s.sweepgc + 1 else s.sweepgc)
    ensures Colored(t, {}, {}) && Shades(t.heap)
  {
    hide Sound, RootSwept;
    InRange(s);
    GrowShades(s.heap, t.heap, id);
    if s.gcstate == Propagate {
      GrowPropagate(s, t, id);
    } else if s.gcstate == Sweep {
      hide StringsSwept;
      GrowSwept(s.heap, t.heap, id, s.rootgc, s.openupval, s.sweepgc, j, s.mainthread, s.currentwhite);
      GrowStrings(s, t, id);
    }
  }

  lemma GrowShades(h: map<Ref, GCObject>, g: map<Ref, GCObject>, id: Ref)
    requires Grown(h, g, id) && Shades(h) && g[id].color.White?
    ensures Shades(g)
  {
  }

  lemma GrowPropagate(s: State, t: State, id: Ref)
    requires Inv(s) && s.gcstate == Propagate && Grown(s.heap, t.heap, id) && t.heap[id].color == White(s.currentwhite)
    requires t.gray == s.gray && t.grayagain == s.grayagain && t.currentwhite == s.currentwhite
    requires t.gcstate == Propagate && t.mainthread == s.mainthread && t.registry == s.registry
    ensures Colored(t, {}, {}) && Shades(t.heap)
  {
    hide Linked, Shaped, Counts, TriBut, NoDead, GrayLists, ClosedIn, AllLive, Shades;
    InRange(s);
    GrowColored(s.heap, t.heap, id, s.currentwhite, s.gray, s.grayagain);
    GrowShades(s.heap, t.heap, id);
  }

  lemma InRange(s: State)
    requires Inv(s)
    ensures s.mainthread in s.heap && (s.registry.Some? ==> s.registry.value in s.heap)
    ensures forall x :: x in s.rootgc || x in s.openupval ==> x in s.heap
    ensures forall b, x :: 0 <= b < |s.strt| && x in s.strt[b] ==> x in s.heap
  {
    assert s.registry == Roots(s)[0];
    assert s.registry.Some? ==> LiveIn(s.heap, s.currentwhite, Roots(s)[0].value);
  }

  lemma GrowStrings(s: State, t: State, id: Ref)
    requires Grown(s.heap, t.heap, id) && t.strt == s.strt && StringsSwept(s.heap, s.strt, |s.strt|, s.currentwhite)
    requires forall b, x :: 0 <= b < |s.strt| && x in s.strt[b] ==> x in s.heap
    ensures StringsSwept(t.heap, t.strt, |t.strt|, s.currentwhite)
  {
  }

  lemma GrowSwept(h: map<Ref, GCObject>, g: map<Ref, GCObject>, id: Ref, q: seq<Ref>, open: seq<Ref>, k: nat, j: nat, m: Ref, w: bool)
    requires Grown(h, g, id) && g[id].color == White(w) && j <= |q| && m in h
    requires forall x :: x in q || x in open ==> x in h
    requires RootSwept(h, q, open, k, m, w)
    ensures RootSwept(g, Insert(q, j, id), open, if j < k then k + 1 else k, m, w)
  {
    var r := Insert(q, j, id);
    var k' := if j < k then k + 1 else k;
    forall i | 0 <= i < k'
      ensures r[i] == id || r[i] in q[..k]
    {
      assert r[i] == if i < j then q[i] else if i == j then id else q[i - 1];
    }
    assert forall i :: 0 <= i < k ==> q[i] in q;
  }

  /** luaC_link keeps the invariant; the new object is live and nothing refers
      to it yet. */
  lemma LinkInv(s: State, id: Ref, kind: Kind, slots: seq<Option<Ref>>)
    requires Inv(s) && id !in s.heap && kind != TString && AllLive(s.heap, s.currentwhite, slots)
    ensures s.mainthread in s.rootgc && Inv(Link(s, id, kind, slots)) && Live(Link(s, id, kind, slots), id)
  {
    LinkLists(s, id, kind, slots);
    LinkClosed(s, id, kind, slots);
    LinkCounts(s, id, kind, slots);
    LinkColored(s, id, kind, slots);
    assert |Link(s, id, kind, slots).strt| > 0;
  }
}
