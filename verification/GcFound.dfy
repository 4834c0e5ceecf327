/** New and found strings, open upvalues and their closing, and the metatables
    of the basic types (src/lstring.c:50-106, src/lfunc.c:76-151,
    src/lgc.c:904-928, src/lapi.c:1133-1180). */
module GcFound {
  import opened Bits
  import opened Seqs
  import opened GcState
  import opened GcRelease
  import opened GcMark
  import opened GcStore
  import opened GcObjects

  // ------------------------------------------------------------------- strings

  /** newlstr: a string nobody has found enters its bucket. */
  function NewString(s: State, id: Ref, hash: nat): State
    requires |s.strt| > 0
  {
    var b := Lmod(hash, |s.strt|);
    s.(
      heap := s.heap[id := Fresh(s.currentwhite, TString, [], None, hash)],
      strt := s.strt[b := [id] + s.strt[b]])
  }

  /** What luaS_newlstr and luaF_findupval do to an object that they find dead. */
  function ChangeWhite(s: State, x: Ref): State
    requires x in s.heap
  {
    if IsDead(s.heap[x], s.currentwhite) then Repaint(s, x, White(s.currentwhite)) else s
  }

  /** An object without counted slots has come into the heap, outside `rootgc`. */
  ghost predicate GrownLeaf(s: State, t: State, id: Ref) {
    && Grown(s.heap, t.heap, id)
    && t.heap[id].slots == [] && t.heap[id].ref == 0 && t.heap[id].color == White(s.currentwhite)
    && (forall x :: x in s.heap ==> t.heap[x] == s.heap[x])
    && t == s.(heap := t.heap, strt := t.strt, openupval := t.openupval)
  }

  lemma GrowLeafSound(s: State, t: State, id: Ref)
    requires Sound(s, []) && GrownLeaf(s, t, id) && Linked(t) && Shaped(t)
    ensures Sound(t, [])
  {
    GrowLeafClosed(s, t, id);
    GrowLeafCounts(s, t, id);
    hide Shaped, Closed, Counts;
  }

  lemma GrowLeafClosed(s: State, t: State, id: Ref)
    requires Closed(s) && GrownLeaf(s, t, id)
    ensures Closed(t)
  {
    assert Roots(t) == Roots(s);
    assert forall x :: LiveIn(t.heap, t.currentwhite, x) <==> LiveIn(s.heap, s.currentwhite, x) || x == id;
  }

  lemma GrowLeafCounts(s: State, t: State, id: Ref)
    requires Linked(s) && Closed(s) && Counts(s, []) && GrownLeaf(s, t, id)
    ensures Counts(t, [])
  {
    UnusedUnheld(s, id);
    hide Linked, Closed;
    assert Roots(t) == Roots(s);
    forall x | x in t.heap
      ensures t.heap[x].ref >= Holders(t, x) + Count([], x)
    {
      HeldInSame(s.heap, t.heap, s.currentwhite, t.currentwhite, s.rootgc, x);
      if x != id {
        assert s.heap[x].ref >= Holders(s, x) + Count([], x);
      }
    }
  }

  lemma NewStringLists(s: State, id: Ref, hash: nat)
    requires Linked(s) && Shaped(s) && id !in s.heap
    ensures Linked(NewString(s, id, hash)) && Shaped(NewString(s, id, hash))
  {
    var t := NewString(s, id, hash);
    NewBucket(s.heap, t.heap, id, s.strt);
    GrowOthers(s.heap, t.heap, id, s.rootgc, s.openupval, s.mainthread);
  }

  lemma NewBucket(h: map<Ref, GCObject>, g: map<Ref, GCObject>, id: Ref, strt: seq<seq<Ref>>)
    requires |strt| > 0 && StringsListed(h, strt) && Grown(h, g, id) && g[id].kind == TString
    ensures var b := Lmod(g[id].hash, |strt|); StringsListed(g, strt[b := [id] + strt[b]])
  {
    var b := Lmod(g[id].hash, |strt|);
    var t := strt[b := [id] + strt[b]];
    assert id !in strt[b];
    forall a, x | 0 <= a < |t| && x in t[a]
      ensures x in g && g[x].kind == TString && Lmod(g[x].hash, |t|) == a
    {
      assert x == id || x in strt[a];
    }
  }

  lemma GrowOthers(h: map<Ref, GCObject>, g: map<Ref, GCObject>, id: Ref, root: seq<Ref>, open: seq<Ref>, m: Ref)
    requires Grown(h, g, id) && !g[id].InRoot() && g[id].slots == []
    requires g[id].level.Some? ==> g[id].kind == TUpval && m in h && g[id].level.value < |h[m].slots|
    requires RootListed(h, root) && OpenListed(h, open) && ShapedIn(h, m)
    ensures RootListed(g, root) && ShapedIn(g, m)
    ensures g[id].level.None? ==> OpenListed(g, open)
  {
  }

  /** Colors after a leaf object has come in outside `rootgc`. */
  lemma GrowLeafColored(s: State, t: State, id: Ref)
    requires Inv(s) && Grown(s.heap, t.heap, id) && t.heap[id].color == White(s.currentwhite)
    requires t == s.(heap := t.heap, strt := t.strt, openupval := t.openupval) && |t.strt| == |s.strt|
    requires forall b, x :: 0 <= b < |t.strt| && x in t.strt[b] ==> x == id || x in s.strt[b]
    requires forall x :: x in t.openupval ==> x == id || x in s.openupval
    ensures Colored(t, {}, {}) && Shades(t.heap)
  {
    InRange(s);
    if s.gcstate == Propagate {
      GrowPropagate(s, t, id);
    } else {
      hide Sound;
      if s.gcstate == Sweep {
        GrowLeafSwept(s, t, id);
      }
    }
  }

  lemma GrowLeafSwept(s: State, t: State, id: Ref)
    requires Colored(s, {}, {}) && s.gcstate == Sweep
    requires forall x :: x in s.rootgc || x in s.openupval ==> x in s.heap
    requires forall b, x :: 0 <= b < |s.strt| && x in s.strt[b] ==> x in s.heap
    requires Grown(s.heap, t.heap, id) && t.heap[id].color == White(s.currentwhite)
    requires t == s.(heap := t.heap, strt := t.strt, openupval := t.openupval) && |t.strt| == |s.strt|
    requires forall b, x :: 0 <= b < |t.strt| && x in t.strt[b] ==> x == id || x in s.strt[b]
    requires forall x :: x in t.openupval ==> x == id || x in s.openupval
    ensures Colored(t, {}, {})
  {
    assert forall i :: 0 <= i < |s.rootgc| ==> s.rootgc[i] in s.rootgc;
  }

  lemma NewStringInv(s: State, id: Ref, hash: nat)
    requires Inv(s) && id !in s.heap
    ensures Inv(NewString(s, id, hash)) && Live(NewString(s, id, hash), id)
  {
    hide Linked, Shaped, Closed, Counts, Colored, Shades;
    BucketsThere(s);
    NewStringLists(s, id, hash);
    NewStringGrown(s, id, hash);
    var t := NewString(s, id, hash);
    GrowLeafSound(s, t, id);
    GrowLeafColored(s, t, id);
  }

  lemma BucketsThere(s: State)
    requires Linked(s)
    ensures |s.strt| > 0
  {
  }

  lemma NewStringGrown(s: State, id: Ref, hash: nat)
    requires |s.strt| > 0 && id !in s.heap
    ensures var t := NewString(s, id, hash); GrownLeaf(s, t, id) && Live(t, id)
    ensures var t := NewString(s, id, hash); |t.strt| == |s.strt| && forall b, x :: 0 <= b < |t.strt| && x in t.strt[b] ==> x == id || x in s.strt[b]
  {
  }

  lemma InvOf(s: State)
    requires Sound(s, []) && Shades(s.heap) && Colored(s, {}, {})
    ensures Inv(s)
  {
  }

  // -------------------------------------------------------------- resurrection

  lemma RevivedSound(s: State, x: Ref)
    requires Sound(s, []) && x in s.heap && s.heap[x].slots == []
    ensures Sound(ChangeWhite(s, x), [])
  {
    RevivedListed(s, x);
    RevivedClosed(s, x);
    RevivedCounts(s, x);
    hide Linked, Shaped, Closed, Counts;
  }

  lemma RevivedListed(s: State, x: Ref)
    requires Linked(s) && Shaped(s) && x in s.heap
    ensures Linked(ChangeWhite(s, x)) && Shaped(ChangeWhite(s, x))
  {
    SameLists(s.heap, ChangeWhite(s, x).heap, s.rootgc, s.openupval, s.strt, s.mainthread);
  }

  lemma RevivedCounts(s: State, x: Ref)
    requires Counts(s, []) && x in s.heap && s.heap[x].slots == []
    ensures Counts(ChangeWhite(s, x), [])
  {
    var t := ChangeWhite(s, x);
    assert Roots(t) == Roots(s);
    forall y | y in t.heap
      ensures t.heap[y].ref >= Holders(t, y) + Count([], y)
    {
      HeldInSame(s.heap, t.heap, s.currentwhite, t.currentwhite, s.rootgc, y);
      assert s.heap[y].ref >= Holders(s, y) + Count([], y);
    }
  }

  lemma RevivedClosed(s: State, x: Ref)
    requires Closed(s) && x in s.heap && s.heap[x].slots == []
    ensures Closed(ChangeWhite(s, x))
  {
    var t := ChangeWhite(s, x);
    assert Roots(t) == Roots(s);
    assert forall y :: LiveIn(t.heap, t.currentwhite, y) <==> LiveIn(s.heap, s.currentwhite, y) || y == x;
  }

  lemma RevivedColored(s: State, x: Ref)
    requires Colored(s, {}, {}) && Shades(s.heap) && x in s.heap
    ensures Colored(ChangeWhite(s, x), {}, {}) && Shades(ChangeWhite(s, x).heap)
  {
    if IsDead(s.heap[x], s.currentwhite) {
      assert s.gcstate == Sweep || s.gcstate == Sweepstring;
      var t := ChangeWhite(s, x);
      assert forall y :: y in s.heap && y != x ==> t.heap[y] == s.heap[y];
    }
  }

  /** Finding a string or an open upvalue keeps the invariant and makes the
      object live: the rest of the sweep will not erase it. */
  lemma RevivedInv(s: State, x: Ref)
    requires Inv(s) && x in s.heap && s.heap[x].slots == []
    ensures Inv(ChangeWhite(s, x)) && Live(ChangeWhite(s, x), x)
  {
    RevivedSound(s, x);
    hide Sound;
    RevivedColored(s, x);
  }

  // ------------------------------------------------------------- open upvalues

  /** The position at which the scan of luaF_findupval stops: the first upvalue
      at `level` or below. */
  function ScanOpen(h: map<Ref, GCObject>, q: seq<Ref>, level: nat): (k: nat)
    requires forall x :: x in q ==> x in h && h[x].level.Some?
    ensures k <= |q|
    ensures forall i :: 0 <= i < k ==> h[q[i]].level.value > level
    ensures k < |q| ==> h[q[k]].level.value <= level
  {
    if q == [] || h[q[0]].level.value <= level then 0
    else 1 + ScanOpen(h, q[1..], level)
  }

  predicate FoundOpen(s: State, level: nat)
    requires Linked(s)
  {
    var k := ScanOpen(s.heap, s.openupval, level);
    k < |s.openupval| && s.heap[s.openupval[k]].level == Some(level)
  }

  /** luaF_findupval: the upvalue for a stack level; `id` is the address of the
      new one when there is none. */
  function FindUpval(s: State, id: Ref, level: nat): (State, Ref)
    requires Linked(s)
  {
    var k := ScanOpen(s.heap, s.openupval, level);
    if FoundOpen(s, level) then
      assert s.openupval[k] in s.openupval;
      (ChangeWhite(s, s.openupval[k]), s.openupval[k])
    else
      (s.(
         heap := s.heap[id := Fresh(s.currentwhite, TUpval, [], Some(level), 0)],
         openupval := Insert(s.openupval, k, id)),
       id)
  }

  lemma GrowOpen(h: map<Ref, GCObject>, g: map<Ref, GCObject>, id: Ref, q: seq<Ref>, k: nat)
    requires Grown(h, g, id) && g[id].level.Some? && OpenListed(h, q) && k <= |q|
    ensures OpenListed(g, Insert(q, k, id))
    ensures forall x :: x in Insert(q, k, id) <==> x == id || x in q
  {
    var r := Insert(q, k, id);
    assert q == q[..k] + q[k..];
    assert id !in q;
    assert forall x :: x in r <==> x in q || x == id;
  }

  lemma FindUpvalInv(s: State, id: Ref, level: nat)
    requires Inv(s) && id !in s.heap && level < |s.heap[s.mainthread].slots|
    ensures var r := FindUpval(s, id, level); Inv(r.0) && Live(r.0, r.1)
  {
    var k := ScanOpen(s.heap, s.openupval, level);
    if FoundOpen(s, level) {
      assert s.openupval[k] in s.openupval;
      RevivedInv(s, s.openupval[k]);
    } else {
      NewOpenInv(s, id, level, k);
    }
  }

  lemma NewOpenInv(s: State, id: Ref, level: nat, k: nat)
    requires Inv(s) && id !in s.heap && level < |s.heap[s.mainthread].slots| && k <= |s.openupval|
    ensures var t := s.(heap := s.heap[id := Fresh(s.currentwhite, TUpval, [], Some(level), 0)],
                        openupval := Insert(s.openupval, k, id));
            Inv(t) && Live(t, id)
  {
    var t := s.(heap := s.heap[id := Fresh(s.currentwhite, TUpval, [], Some(level), 0)],
                openupval := Insert(s.openupval, k, id));
    assert Grown(s.heap, t.heap, id);
    GrowOpen(s.heap, t.heap, id, s.openupval, k);
    GrowOthers(s.heap, t.heap, id, s.rootgc, s.openupval, s.mainthread);
    GrowBuckets(s.heap, t.heap, id, s.strt);
    GrowLeafSound(s, t, id);
    hide Inv, Sound, OpenListed;
    GrowLeafColored(s, t, id);
    InvOf(t);
  }

  // ------------------------------------------------------- closing an upvalue

  /** One round of luaF_close: the highest open upvalue is freed when dead,
      otherwise it takes over the value of its stack slot and enters `rootgc`;
      luaC_linkupval gives a gray one a color that a closed one may have. */
  function CloseUpval(s: State): State
    requires Inv(s) && s.openupval != []
  {
    var u := s.openupval[0];
    assert u in s.openupval;
    if IsDead(s.heap[u], s.currentwhite) then EraseOpen(s)
    else
      ClosedStored(s);
      BarrierInv(TakeOver(s), u, OpenValue(s));
      Barrier(TakeOver(s), u, OpenValue(s))
  }

  function EraseOpen(s: State): State
    requires s.openupval != []
  {
    s.(heap := s.heap - {s.openupval[0]}, openupval := s.openupval[1..])
  }

  function OpenValue(s: State): Option<Ref>
    requires Linked(s) && Shaped(s) && s.openupval != []
  {
    assert s.openupval[0] in s.openupval;
    s.heap[s.mainthread].slots[s.heap[s.openupval[0]].level.value]
  }

  function TakeOver(s: State): State
    requires Linked(s) && Shaped(s) && s.openupval != []
  {
    var u, v := s.openupval[0], OpenValue(s);
    assert u in s.openupval;
    var o := s.heap[u];
    var c := if o.color != Gray then o.color else if s.gcstate == Propagate then Black else White(s.currentwhite);
    s.(
      heap := AddRefs(s.heap[u := o.(color := c, slots := [v], level := None)], [v]),
      openupval := s.openupval[1..],
      rootgc := [u] + s.rootgc,
      sweepgc := if 0 < s.sweepgc then s.sweepgc + 1 else s.sweepgc)
  }

  /** u has closed: everything else in the heap differs in counts only. */
  ghost predicate Converted(h: map<Ref, GCObject>, g: map<Ref, GCObject>, u: Ref) {
    && u in h && g.Keys == h.Keys && h[u].level.Some? && h[u].kind == TUpval
    && (forall x :: x in h && x != u ==> g[x] == h[x].(ref := g[x].ref))
    && g[u] == h[u].(ref := g[u].ref, color := g[u].color, slots := g[u].slots, level := None)
  }

  lemma TakeOverShape(s: State)
    requires Linked(s) && Shaped(s) && s.openupval != []
    ensures var t := TakeOver(s); var u := s.openupval[0];
            && Converted(s.heap, t.heap, u) && t.heap[u].slots == [OpenValue(s)]
            && t == s.(heap := t.heap, openupval := s.openupval[1..], rootgc := Insert(s.rootgc, 0, u),
                       sweepgc := if 0 < s.sweepgc then s.sweepgc + 1 else s.sweepgc)
            && t.heap[u].color == (if s.heap[u].color != Gray then s.heap[u].color
                                   else if s.gcstate == Propagate then Black else White(s.currentwhite))
            && (forall x :: x in s.heap ==> t.heap[x].ref == s.heap[x].ref + Count([OpenValue(s)], x))
  {
    assert s.openupval[0] in s.openupval;
  }

  lemma ConvertedLists(h: map<Ref, GCObject>, g: map<Ref, GCObject>, u: Ref, root: seq<Ref>, open: seq<Ref>, strt: seq<seq<Ref>>, m: Ref)
    requires Converted(h, g, u) && |strt| > 0 && open != [] && open[0] == u
    requires RootListed(h, root) && OpenListed(h, open) && StringsListed(h, strt) && ShapedIn(h, m)
    ensures RootListed(g, Insert(root, 0, u)) && OpenListed(g, open[1..]) && StringsListed(g, strt) && ShapedIn(g, m)
  {
    ConvertedRoot(h, g, u, root);
    ConvertedOpen(h, g, u, open);
    ConvertedStrings(h, g, u, strt);
    assert ShapedIn(g, m);
  }

  lemma ConvertedRoot(h: map<Ref, GCObject>, g: map<Ref, GCObject>, u: Ref, root: seq<Ref>)
    requires Converted(h, g, u) && RootListed(h, root)
    ensures RootListed(g, Insert(root, 0, u))
  {
    assert Insert(root, 0, u) == [u] + root;
    assert u !in root;
  }

  lemma ConvertedOpen(h: map<Ref, GCObject>, g: map<Ref, GCObject>, u: Ref, open: seq<Ref>)
    requires Converted(h, g, u) && OpenListed(h, open) && open != [] && open[0] == u
    ensures OpenListed(g, open[1..])
  {
    assert open == [u] + open[1..];
    assert u !in open[1..] by { assert forall i :: 0 < i < |open| ==> open[i] != open[0]; }
  }

  lemma ConvertedStrings(h: map<Ref, GCObject>, g: map<Ref, GCObject>, u: Ref, strt: seq<seq<Ref>>)
    requires Converted(h, g, u) && |strt| > 0 && StringsListed(h, strt)
    ensures StringsListed(g, strt)
  {
  }

  lemma ConvertedClosed(s: State, t: State, u: Ref, v: Option<Ref>)
    requires Closed(s) && Converted(s.heap, t.heap, u) && t.heap[u].slots == [v] && LiveOpt(s, v)
    requires Live(s, u) && t.heap[u].color != White(!s.currentwhite)
    requires t.currentwhite == s.currentwhite && t.mainthread == s.mainthread && t.registry == s.registry && t.mt == s.mt
    ensures Closed(t) && Live(t, u) && LiveOpt(t, v)
  {
    assert Roots(t) == Roots(s);
    assert forall x :: LiveIn(t.heap, t.currentwhite, x) <==> LiveIn(s.heap, s.currentwhite, x);
  }

  lemma ConvertedCounts(s: State, t: State, u: Ref, v: Option<Ref>)
    requires Counts(s, []) && u !in s.rootgc && Converted(s.heap, t.heap, u)
    requires t.heap[u].slots == [v] && t.heap[u].color != White(!s.currentwhite)
    requires t.currentwhite == s.currentwhite && Roots(t) == Roots(s) && t.rootgc == Insert(s.rootgc, 0, u)
    requires forall x :: x in s.heap ==> t.heap[x].ref == s.heap[x].ref + Count([v], x)
    ensures Counts(t, [])
  {
    assert t.rootgc == [u] + s.rootgc;
    forall x | x in t.heap
      ensures t.heap[x].ref >= Holders(t, x) + Count([], x)
    {
      assert t.rootgc[1..] == s.rootgc;
      HeldInSame(s.heap, t.heap, s.currentwhite, t.currentwhite, s.rootgc, x);
      assert s.heap[x].ref >= Holders(s, x) + Count([], x);
    }
  }

  lemma OpenValueLive(s: State)
    requires Sound(s, []) && s.openupval != []
    ensures LiveOpt(s, OpenValue(s)) && s.openupval[0] in s.heap && s.openupval[0] !in s.rootgc
  {
    assert s.openupval[0] in s.openupval;
    var i := s.heap[s.openupval[0]].level.value;
    assert LiveIn(s.heap, s.currentwhite, s.mainthread) && i < |s.heap[s.mainthread].slots|;
  }

  lemma ConvertedPropagate(h: map<Ref, GCObject>, g: map<Ref, GCObject>, u: Ref, v: Option<Ref>, w: bool, gray: seq<Ref>, grayagain: seq<Ref>)
    requires Converted(h, g, u) && g[u].slots == [v] && NoDead(h, w) && g[u].color != White(!w)
    requires h[u].color.White? ==> g[u].color == h[u].color
    requires h[u].color.White? || g[u].color == Black
    requires TriBut(h, {}, {}) && GrayLists(h, gray, grayagain)
    ensures NoDead(g, w) && TriBut(g, {u}, {}) && TriBut(g, {}, Refs([v])) && GrayLists(g, gray, grayagain)
  {
    assert forall x :: x in h ==> g[x].color.White? == h[x].color.White?;
    forall x, i | x in g && g[x].color == Black && 0 <= i < |g[x].slots| && IsWhite(g, g[x].slots[i])
      ensures x == u && g[x].slots[i].value in Refs([v])
    {
      assert IsWhite(h, g[x].slots[i]);
      assert [v][0] == v;
    }
    assert forall x :: x in h ==> g[x].Traversable() == h[x].Traversable();
  }

  lemma ConvertedColored(s: State, t: State, u: Ref, v: Option<Ref>)
    requires Inv(s) && s.openupval != [] && u == s.openupval[0] && Live(s, u)
    requires Converted(s.heap, t.heap, u) && t.heap[u].slots == [v]
    requires t == s.(heap := t.heap, openupval := s.openupval[1..], rootgc := Insert(s.rootgc, 0, u),
                     sweepgc := if 0 < s.sweepgc then s.sweepgc + 1 else s.sweepgc)
    requires t.heap[u].color == (if s.heap[u].color != Gray then s.heap[u].color
                                 else if s.gcstate == Propagate then Black else White(s.currentwhite))
    ensures Colored(t, {u}, Refs([v])) && Shades(t.heap)
  {
    hide Sound, RootSwept, TriBut, NoDead, GrayLists, RootsMarked, Shades;
    FirstOpen(s, u);
    InRange(s);
    ConvertedShades(s.heap, t.heap, u);
    if s.gcstate == Propagate {
      ConvertedMarking(s, t, u, v);
    } else if s.gcstate == Sweep {
      ConvertedSwept(s, t, u);
    }
  }

  lemma ConvertedMarking(s: State, t: State, u: Ref, v: Option<Ref>)
    requires Colored(s, {}, {}) && s.gcstate == Propagate && u != s.mainthread && s.mainthread in s.heap
    requires s.registry.Some? ==> s.registry.value in s.heap
    requires Converted(s.heap, t.heap, u) && t.heap[u].slots == [v]
    requires t == s.(heap := t.heap, openupval := t.openupval, rootgc := t.rootgc, sweepgc := t.sweepgc)
    requires t.heap[u].color == if s.heap[u].color != Gray then s.heap[u].color else Black
    requires s.heap[u].color != Black
    ensures Colored(t, {u}, Refs([v]))
  {
    ConvertedPropagate(s.heap, t.heap, u, v, s.currentwhite, s.gray, s.grayagain);
    hide TriBut, GrayLists, NoDead;
  }

  lemma ConvertedSwept(s: State, t: State, u: Ref)
    requires Colored(s, {}, {}) && s.gcstate == Sweep && s.openupval != [] && u != s.mainthread
    requires forall b, x :: 0 <= b < |s.strt| && x in s.strt[b] ==> x in s.heap
    requires Converted(s.heap, t.heap, u) && t.heap[u].color == White(s.currentwhite)
    requires t == s.(heap := t.heap, openupval := s.openupval[1..], rootgc := Insert(s.rootgc, 0, u),
                     sweepgc := if 0 < s.sweepgc then s.sweepgc + 1 else s.sweepgc)
    ensures Colored(t, {u}, Refs(t.heap[u].slots))
  {
    hide StringsSwept, RootSwept;
    ConvertedStringsSwept(s, t, u);
    ConvertedRootSwept(s.heap, t.heap, u, s.rootgc, s.openupval, s.sweepgc, s.mainthread, s.currentwhite);
  }

  /** The first open upvalue is not black, nor the main thread. */
  lemma FirstOpen(s: State, u: Ref)
    requires Inv(s) && s.openupval != [] && u == s.openupval[0]
    ensures u in s.heap && s.heap[u].level.Some? && s.heap[u].color != Black && u != s.mainthread
  {
    hide Closed, Counts, Colored;
    assert u in s.openupval;
    assert ShadeOk(s.heap[u]);
    MainApart(s, u);
  }

  lemma MainApart(s: State, u: Ref)
    requires Shaped(s) && u in s.heap && s.heap[u].level.Some?
    ensures u != s.mainthread
  {
  }

  lemma ConvertedShades(h: map<Ref, GCObject>, g: map<Ref, GCObject>, u: Ref)
    requires Shades(h) && Converted(h, g, u) && g[u].color != Gray
    ensures Shades(g)
  {
  }

  lemma ConvertedStringsSwept(s: State, t: State, u: Ref)
    requires StringsSwept(s.heap, s.strt, |s.strt|, s.currentwhite) && Converted(s.heap, t.heap, u)
    requires forall b, x :: 0 <= b < |s.strt| && x in s.strt[b] ==> x in s.heap
    requires t.heap[u].color == White(s.currentwhite)
    ensures StringsSwept(t.heap, s.strt, |s.strt|, s.currentwhite)
  {
  }

  lemma ConvertedRootSwept(h: map<Ref, GCObject>, g: map<Ref, GCObject>, u: Ref, q: seq<Ref>, open: seq<Ref>, k: nat, m: Ref, w: bool)
    requires Converted(h, g, u) && g[u].color == White(w) && u != m && open != []
    requires RootSwept(h, q, open, k, m, w)
    ensures RootSwept(g, Insert(q, 0, u), open[1..], if 0 < k then k + 1 else k, m, w)
  {
    var r := Insert(q, 0, u);
    var k' := if 0 < k then k + 1 else k;
    assert r == [u] + q;
    assert forall x :: x in h && x != u ==> g[x].color == h[x].color;
    assert forall i :: 0 < i < |r| ==> r[i] == q[i - 1];
    if m in r[..k'] {
      assert m in q[..k] by { var i :| 0 <= i < k' && r[i] == m; assert q[i - 1] == m; }
      assert forall x :: x in open[1..] ==> x in open;
    }
  }

  lemma ClosedSound(s: State)
    requires Sound(s, []) && s.openupval != [] && Live(s, s.openupval[0])
    ensures Sound(TakeOver(s), []) && Live(TakeOver(s), s.openupval[0])
    ensures LiveOpt(TakeOver(s), OpenValue(s))
  {
    ClosedListed(s);
    ClosedStaysClosed(s);
    ClosedCounted(s);
    hide Linked, Shaped, Closed, Counts, TakeOver, OpenValue;
    TakeOverStrings(s);
  }

  lemma TakeOverStrings(s: State)
    requires Linked(s) && Shaped(s) && s.openupval != []
    ensures TakeOver(s).strt == s.strt
  {
  }

  lemma ClosedListed(s: State)
    requires Linked(s) && Shaped(s) && s.openupval != []
    ensures Linked(TakeOver(s)) && Shaped(TakeOver(s))
  {
    TakeOverShape(s);
    hide RootListed, OpenListed, StringsListed, ShapedIn, Converted, TakeOver, OpenValue;
    ConvertedLists(s.heap, TakeOver(s).heap, s.openupval[0], s.rootgc, s.openupval, s.strt, s.mainthread);
  }

  lemma ClosedStaysClosed(s: State)
    requires Sound(s, []) && s.openupval != [] && Live(s, s.openupval[0])
    ensures Closed(TakeOver(s)) && Live(TakeOver(s), s.openupval[0]) && LiveOpt(TakeOver(s), OpenValue(s))
  {
    TakeOverShape(s);
    OpenValueLive(s);
    hide Linked, Shaped, Closed, Counts, Converted, TakeOver, OpenValue;
    ConvertedClosed(s, TakeOver(s), s.openupval[0], OpenValue(s));
  }

  lemma ClosedCounted(s: State)
    requires Sound(s, []) && s.openupval != [] && Live(s, s.openupval[0])
    ensures Counts(TakeOver(s), [])
  {
    TakeOverShape(s);
    OpenValueLive(s);
    hide Linked, Shaped, Closed, Counts, Converted, TakeOver, OpenValue;
    assert Roots(TakeOver(s)) == Roots(s);
    ConvertedCounts(s, TakeOver(s), s.openupval[0], OpenValue(s));
  }

  lemma ClosedStored(s: State)
    requires Inv(s) && s.openupval != [] && s.openupval[0] in s.heap && !IsDead(s.heap[s.openupval[0]], s.currentwhite)
    ensures Stored(TakeOver(s), s.openupval[0], OpenValue(s))
  {
    TakeOverShape(s);
    ClosedSound(s);
    ConvertedColored(s, TakeOver(s), s.openupval[0], OpenValue(s));
    hide Inv, Sound, Colored, Shades, OpenValue;
  }

  lemma EraseOpenInv(s: State)
    requires Inv(s) && s.openupval != [] && s.openupval[0] in s.heap && IsDead(s.heap[s.openupval[0]], s.currentwhite)
    ensures Inv(EraseOpen(s))
  {
    var u, t := s.openupval[0], EraseOpen(s);
    assert u in s.openupval;
    EraseOpenLists(s);
    EraseOpenClosed(s);
    EraseOpenCounts(s);
    EraseOpenColored(s);
  }

  lemma EraseOpenLists(s: State)
    requires Linked(s) && Shaped(s) && s.openupval != []
    ensures Linked(EraseOpen(s)) && Shaped(EraseOpen(s))
  {
    var u, t := s.openupval[0], EraseOpen(s);
    assert u in s.openupval;
    assert s.openupval == [u] + s.openupval[1..];
    assert u !in s.openupval[1..] by { assert forall i :: 0 < i < |s.openupval| ==> s.openupval[i] != s.openupval[0]; }
    EraseStrings(s.heap, u, s.strt);
    assert RootListed(t.heap, t.rootgc);
    assert OpenListed(t.heap, t.openupval);
  }

  lemma EraseStrings(h: map<Ref, GCObject>, u: Ref, strt: seq<seq<Ref>>)
    requires |strt| > 0 && StringsListed(h, strt) && u in h && h[u].kind != TString
    ensures StringsListed(h - {u}, strt)
  {
  }

  lemma EraseOpenClosed(s: State)
    requires Closed(s) && s.openupval != [] && s.openupval[0] in s.heap && IsDead(s.heap[s.openupval[0]], s.currentwhite)
    ensures Closed(EraseOpen(s))
  {
    var t := EraseOpen(s);
    assert Roots(t) == Roots(s);
    assert forall x :: LiveIn(t.heap, t.currentwhite, x) <==> LiveIn(s.heap, s.currentwhite, x);
  }

  lemma EraseOpenCounts(s: State)
    requires s.openupval != [] && Linked(s) && Linked(EraseOpen(s)) && Counts(s, [])
    ensures Counts(EraseOpen(s), [])
  {
    var t := EraseOpen(s);
    assert Roots(t) == Roots(s);
    forall x | x in t.heap
      ensures t.heap[x].ref >= Holders(t, x) + Count([], x)
    {
      HeldInSame(s.heap, t.heap, s.currentwhite, t.currentwhite, s.rootgc, x);
      assert s.heap[x].ref >= Holders(s, x) + Count([], x);
    }
  }

  lemma EraseOpenColored(s: State)
    requires Colored(s, {}, {}) && Shades(s.heap) && s.openupval != [] && s.openupval[0] in s.heap
    requires IsDead(s.heap[s.openupval[0]], s.currentwhite)
    ensures Colored(EraseOpen(s), {}, {}) && Shades(EraseOpen(s).heap)
  {
    var t := EraseOpen(s);
    assert s.gcstate == Sweep || s.gcstate == Sweepstring;
    assert forall x :: x in t.openupval ==> x in s.openupval;
  }

  lemma CloseUpvalInv(s: State)
    requires Inv(s) && s.openupval != []
    ensures Inv(CloseUpval(s))
  {
    assert s.openupval[0] in s.openupval;
    if IsDead(s.heap[s.openupval[0]], s.currentwhite) {
      EraseOpenInv(s);
    } else {
      ClosedStored(s);
      hide Inv, Stored;
      BarrierInv(TakeOver(s), s.openupval[0], OpenValue(s));
    }
  }

  // ------------------------------------------------- metatables of basic types

  function WriteMt(s: State, i: nat, v: Option<Ref>): State
    requires i < |s.mt|
  {
    s.(heap := AddRefs(s.heap, [v]), mt := s.mt[i := v])
  }

  lemma WriteMtSound(s: State, i: nat, v: Option<Ref>)
    requires Sound(s, []) && i < |s.mt| && LiveOpt(s, v)
    ensures Sound(WriteMt(s, i, v), [s.mt[i]])
  {
    var t := WriteMt(s, i, v);
    AddRefsFrame(s.heap, [v]);
    SameLists(s.heap, t.heap, s.rootgc, s.openupval, s.strt, s.mainthread);
    WriteMtClosed(s, i, v);
    WriteMtCounts(s, i, v);
  }

  lemma WriteMtClosed(s: State, i: nat, v: Option<Ref>)
    requires Closed(s) && i < |s.mt| && LiveOpt(s, v)
    ensures Closed(WriteMt(s, i, v)) && AllLive(WriteMt(s, i, v).heap, s.currentwhite, [s.mt[i]])
  {
    var t := WriteMt(s, i, v);
    AddRefsFrame(s.heap, [v]);
    assert forall x :: LiveIn(t.heap, t.currentwhite, x) <==> LiveIn(s.heap, s.currentwhite, x);
    assert Roots(t) == Roots(s)[i + 1 := v];
    assert Roots(s)[i + 1] == s.mt[i];
  }

  lemma WriteMtCounts(s: State, i: nat, v: Option<Ref>)
    requires Counts(s, []) && i < |s.mt|
    ensures Counts(WriteMt(s, i, v), [s.mt[i]])
  {
    var t := WriteMt(s, i, v);
    AddRefsFrame(s.heap, [v]);
    assert Roots(t) == Roots(s)[i + 1 := v] && Roots(s)[i + 1] == s.mt[i];
    forall x | x in t.heap
      ensures t.heap[x].ref >= Holders(t, x) + Count([s.mt[i]], x)
    {
      HeldInSame(s.heap, t.heap, s.currentwhite, t.currentwhite, s.rootgc, x);
      CountUpdate(Roots(s), i + 1, v, x);
      assert s.heap[x].ref >= Holders(s, x) + Count([], x);
    }
  }

  lemma WriteMtColored(s: State, i: nat, v: Option<Ref>)
    requires i < |s.mt| && Colored(s, {}, {}) && Shades(s.heap)
    ensures Colored(WriteMt(s, i, v), {}, {}) && Shades(WriteMt(s, i, v).heap)
  {
    var t := WriteMt(s, i, v);
    AddRefsFrame(s.heap, [v]);
    assert forall x :: x in s.heap ==> t.heap[x].color == s.heap[x].color && t.heap[x].slots == s.heap[x].slots;
    assert forall x :: x in s.heap ==> t.heap[x].Traversable() == s.heap[x].Traversable();
    if s.gcstate == Propagate {
      TriSame(s.heap, t.heap, {}, {});
    }
  }

  /** lua_setmetatable for a basic type: no barrier, the atomic step marks these
      tables again. */
  function SetTypeMetatable(s: State, i: nat, v: Option<Ref>): (t: State)
    requires Inv(s) && i < |s.mt| && LiveOpt(s, v)
    ensures Inv(t)
  {
    WriteMtSound(s, i, v);
    WriteMtColored(s, i, v);
    ReleaseKeeps(WriteMt(s, i, v), [s.mt[i]], {}, {});
    hide Sound, Shades, Colored;
    InvOf(Release(WriteMt(s, i, v), [s.mt[i]]));
    Release(WriteMt(s, i, v), [s.mt[i]])
  }
}
