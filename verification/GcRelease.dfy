/** Reference counting: dropping references and the cascade of releases that
    follows (src/lobject.h:147-165, src/lobject.c:238-241, src/lgc.c:931-1256). */
module GcRelease {
  import opened Bits
  import opened Seqs
  import opened GcState

  function Decrement(s: State, c: Ref): State
    requires c in s.heap
  {
    s.(heap := s.heap[c := s.heap[c].(ref := s.heap[c].ref - 1)])
  }

  /** Unlinks c from its list and from the gray lists, moves the sweep cursor
      back when c lies before it, and frees c. */
  function Remove(s: State, c: Ref): State
    requires c in s.heap && |s.strt| > 0
  {
    var o := s.heap[c];
    var s1 := s.(heap := Forget(s.heap, c));
    if o.kind == TString then
      var b := Lmod(o.hash, |s.strt|);
      s1.(strt := s.strt[b := Without(s.strt[b], c)])
    else
      s1.(
        rootgc := Without(s.rootgc, c),
        sweepgc := if s.gcstate == Sweep && c in s.rootgc && IndexOf(s.rootgc, c) < s.sweepgc
                   then s.sweepgc - 1 else s.sweepgc,
        gray := if s.gcstate == Propagate && o.color == Gray && o.Traversable()
                then Without(s.gray, c) else s.gray,
        grayagain := if s.gcstate == Propagate && o.color == Gray && o.Traversable()
                     then Without(s.grayagain, c) else s.grayagain)
  }

  /** What a release may do: objects disappear, counts go down, the rest of the
      heap and all roots stay. */
  ghost predicate Shrunk(s: State, t: State) {
    && t.heap.Keys <= s.heap.Keys
    && (forall x :: x in t.heap ==>
          t.heap[x] == s.heap[x].(ref := t.heap[x].ref) && t.heap[x].ref <= s.heap[x].ref)
    && (forall x :: x in s.heap && x !in t.heap ==> s.heap[x].Releasable() && Live(s, x))
    && t.currentwhite == s.currentwhite && t.gcstate == s.gcstate && t.sweepstrgc == s.sweepstrgc
    && t.mainthread == s.mainthread && t.registry == s.registry && t.mt == s.mt
    && |t.strt| == |s.strt| && t.openupval == s.openupval
  }

  // ----------------------------------------------------------- counting facts

  lemma {:induction false} CountConcat(p: seq<Option<Ref>>, q: seq<Option<Ref>>, x: Ref)
    ensures Count(p + q, x) == Count(p, x) + Count(q, x)
  {
    if p == [] {
      assert p + q == q;
    } else {
      assert (p + q)[1..] == p[1..] + q;
      CountConcat(p[1..], q, x);
    }
  }

  lemma {:induction false} CountAt(q: seq<Option<Ref>>, i: nat, x: Ref)
    requires i < |q| && q[i] == Some(x)
    ensures Count(q, x) >= 1
  {
    if i > 0 {
      CountAt(q[1..], i - 1, x);
    }
  }

  lemma {:induction false} CountUpdate(q: seq<Option<Ref>>, i: nat, v: Option<Ref>, x: Ref)
    requires i < |q|
    ensures Count(q[i := v], x) + Count([q[i]], x) == Count(q, x) + Count([v], x)
  {
    if i > 0 {
      assert q[i := v][1..] == q[1..][i - 1 := v];
      CountUpdate(q[1..], i - 1, v, x);
    } else {
      assert q[i := v][1..] == q[1..];
    }
  }

  /** Two heaps whose objects in q hold x equally often. */
  lemma {:induction false} HeldInSame(h: map<Ref, GCObject>, g: map<Ref, GCObject>, w: bool, v: bool, q: seq<Ref>, x: Ref)
    requires forall y :: y in q ==> y in h && y in g && Held(h[y], w, x) == Held(g[y], v, x)
    ensures HeldIn(h, w, q, x) == HeldIn(g, v, q, x)
  {
    if q != [] {
      HeldInSame(h, g, w, v, q[1..], x);
    }
  }

  lemma {:induction false} HeldInSplit(h: map<Ref, GCObject>, w: bool, p: seq<Ref>, q: seq<Ref>, x: Ref)
    requires forall y :: y in p || y in q ==> y in h
    ensures forall y :: y in p + q ==> y in h
    ensures HeldIn(h, w, p + q, x) == HeldIn(h, w, p, x) + HeldIn(h, w, q, x)
  {
    if p == [] {
      assert p + q == q;
    } else {
      assert (p + q)[1..] == p[1..] + q;
      HeldInSplit(h, w, p[1..], q, x);
    }
  }

  /** The share of the object at position k, singled out. */
  lemma HeldInAt(h: map<Ref, GCObject>, w: bool, q: seq<Ref>, k: nat, x: Ref)
    requires k < |q| && forall y :: y in q ==> y in h
    ensures forall y :: y in q[..k] + q[k + 1..] ==> y in h
    ensures HeldIn(h, w, q, x) == HeldIn(h, w, q[..k] + q[k + 1..], x) + Held(h[q[k]], w, x)
  {
    assert q == q[..k] + ([q[k]] + q[k + 1..]);
    HeldInSplit(h, w, q[..k], [q[k]] + q[k + 1..], x);
    HeldInSplit(h, w, q[..k], q[k + 1..], x);
  }

  /** One object of the list changes. */
  lemma HeldInChange(h: map<Ref, GCObject>, g: map<Ref, GCObject>, w: bool, q: seq<Ref>, o: Ref, x: Ref)
    requires NoDup(q) && o in q
    requires forall y :: y in q ==> y in h && y in g
    requires forall y :: y in q && y != o ==> Held(h[y], w, x) == Held(g[y], w, x)
    ensures HeldIn(g, w, q, x) + Held(h[o], w, x) == HeldIn(h, w, q, x) + Held(g[o], w, x)
  {
    var k := IndexOf(q, o);
    HeldInAt(h, w, q, k, x);
    HeldInAt(g, w, q, k, x);
    HeldInSame(h, g, w, w, q[..k] + q[k + 1..], x);
  }

  /** A live object that refers to x counts. */
  lemma HeldPositive(s: State, y: Ref, i: nat, x: Ref)
    requires Linked(s) && Shaped(s)
    requires Live(s, y) && i < |s.heap[y].slots| && s.heap[y].slots[i] == Some(x)
    ensures Holders(s, x) >= 1
  {
    CountAt(s.heap[y].slots, i, x);
    assert y in s.rootgc;
    HeldInAt(s.heap, s.currentwhite, s.rootgc, IndexOf(s.rootgc, y), x);
  }

  lemma RootPositive(s: State, x: Ref)
    requires Linked(s) && Some(x) in Roots(s)
    ensures Holders(s, x) >= 1
  {
    var i :| 0 <= i < |Roots(s)| && Roots(s)[i] == Some(x);
    CountAt(Roots(s), i, x);
  }

  // ------------------------------------------------------- the two small steps

  lemma DecrementSound(s: State, work: seq<Option<Ref>>)
    requires Sound(s, work) && work != [] && work[0].Some?
    ensures Sound(Decrement(s, work[0].value), work[1..])
    ensures Live(Decrement(s, work[0].value), work[0].value)
  {
    var c := work[0].value;
    assert LiveOpt(s, work[0]);
    DecrementLinked(s, c);
    DecrementClosed(s, c, work[1..]);
    DecrementCounts(s, work);
  }

  lemma DecrementLinked(s: State, c: Ref)
    requires Linked(s) && Shaped(s) && c in s.heap
    ensures Linked(Decrement(s, c)) && Shaped(Decrement(s, c))
  {
    SameLists(s.heap, Decrement(s, c).heap, s.rootgc, s.openupval, s.strt, s.mainthread);
  }

  /** Two heaps that differ in colors, counts and slots of listed objects only. */
  ghost predicate SameFrame(h: map<Ref, GCObject>, g: map<Ref, GCObject>) {
    && g.Keys == h.Keys
    && (forall x :: x in h ==>
          && g[x].kind == h[x].kind && g[x].fixed == h[x].fixed && g[x].level == h[x].level
          && g[x].hash == h[x].hash && |g[x].slots| == |h[x].slots|)
  }

  lemma SameLists(h: map<Ref, GCObject>, g: map<Ref, GCObject>, root: seq<Ref>, open: seq<Ref>, strt: seq<seq<Ref>>, m: Ref)
    requires |strt| > 0 && SameFrame(h, g)
    requires RootListed(h, root) && OpenListed(h, open) && StringsListed(h, strt) && ShapedIn(h, m)
    ensures RootListed(g, root) && OpenListed(g, open) && StringsListed(g, strt) && ShapedIn(g, m)
  {
    assert RootListed(g, root);
    assert OpenListed(g, open);
    assert StringsListed(g, strt);
  }

  lemma DecrementClosed(s: State, c: Ref, work: seq<Option<Ref>>)
    requires Closed(s) && c in s.heap && AllLive(s.heap, s.currentwhite, work)
    ensures Closed(Decrement(s, c)) && AllLive(Decrement(s, c).heap, s.currentwhite, work)
  {
    var h, g, w := s.heap, Decrement(s, c).heap, s.currentwhite;
    assert forall x :: LiveIn(g, w, x) <==> LiveIn(h, w, x);
  }

  lemma DecrementCounts(s: State, work: seq<Option<Ref>>)
    requires forall y :: y in s.rootgc ==> y in s.heap
    requires Counts(s, work) && work != [] && work[0].Some? && work[0].value in s.heap
    ensures Counts(Decrement(s, work[0].value), work[1..])
  {
    var t := Decrement(s, work[0].value);
    forall x | x in t.heap
      ensures t.heap[x].ref >= Holders(t, x) + Count(work[1..], x)
    {
      HeldInSame(s.heap, t.heap, s.currentwhite, s.currentwhite, s.rootgc, x);
      assert s.heap[x].ref >= Holders(s, x) + Count(work, x);
    }
  }

  /** Nothing refers to an object whose count has run out. */
  lemma NobodyHolds(s: State, c: Ref, work: seq<Option<Ref>>)
    requires Linked(s) && Shaped(s) && Counts(s, work) && c in s.heap && s.heap[c].ref <= 0
    ensures Holders(s, c) == 0 && Some(c) !in Roots(s) && Some(c) !in work
    ensures forall y, i :: Live(s, y) && 0 <= i < |s.heap[y].slots| ==> s.heap[y].slots[i] != Some(c)
  {
    assert s.heap[c].ref >= Holders(s, c) + Count(work, c);
    forall y, i | Live(s, y) && 0 <= i < |s.heap[y].slots|
      ensures s.heap[y].slots[i] != Some(c)
    {
      if s.heap[y].slots[i] == Some(c) {
        HeldPositive(s, y, i, c);
      }
    }
    if Some(c) in Roots(s) {
      RootPositive(s, c);
    }
    if Some(c) in work {
      CountAt(work, IndexOf(work, Some(c)), c);
    }
  }

  /** An object nobody holds can go: what it held becomes work. */
  lemma RemoveSound(s: State, c: Ref, work: seq<Option<Ref>>)
    requires Sound(s, work)
    requires Live(s, c) && s.heap[c].ref <= 0 && s.heap[c].Releasable()
    ensures Sound(Remove(s, c), s.heap[c].slots + work)
  {
    hide Linked, Shaped, Closed, Counts, AllLive;
    assert Remove(s, c).currentwhite == s.currentwhite && |Remove(s, c).strt| == |s.strt|;
    RemoveLinked(s, c);
    RemoveClosed(s, c, work);
    RemoveCounts(s, c, work);
  }

  lemma RemoveClosed(s: State, c: Ref, work: seq<Option<Ref>>)
    requires Sound(s, work)
    requires Live(s, c) && s.heap[c].ref <= 0 && s.heap[c].Releasable()
    ensures Closed(Remove(s, c))
    ensures AllLive(Remove(s, c).heap, s.currentwhite, s.heap[c].slots + work)
  {
    NobodyHolds(s, c, work);
    hide Linked, Counts;
    var h, w := s.heap, s.currentwhite;
    ClosedWithout(h, w, c);
    LiveWithout(h, w, c, Roots(s));
    LiveWithout(h, w, c, h[c].slots + work);
    assert Remove(s, c).heap == h - {c};
    assert Roots(Remove(s, c)) == Roots(s);
  }

  lemma ClosedWithout(h: map<Ref, GCObject>, w: bool, c: Ref)
    requires ClosedIn(h, w)
    requires forall y, i :: LiveIn(h, w, y) && 0 <= i < |h[y].slots| ==> h[y].slots[i] != Some(c)
    ensures ClosedIn(h - {c}, w)
  {
    assert forall x :: LiveIn(h - {c}, w, x) <==> LiveIn(h, w, x) && x != c;
  }

  lemma LiveWithout(h: map<Ref, GCObject>, w: bool, c: Ref, q: seq<Option<Ref>>)
    requires AllLive(h, w, q) && Some(c) !in q
    ensures AllLive(h - {c}, w, q)
  {
    forall i | 0 <= i < |q| && q[i].Some?
      ensures LiveIn(h - {c}, w, q[i].value)
    {
      assert q[i] in q;
    }
  }

  lemma RemoveLinked(s: State, c: Ref)
    requires Linked(s) && Shaped(s) && c in s.heap && s.heap[c].Releasable()
    ensures Linked(Remove(s, c)) && Shaped(Remove(s, c))
  {
    hide RootListed, OpenListed, StringsListed, ShapedIn;
    assert Remove(s, c).heap == s.heap - {c};
    ShapedWithout(s.heap, s.mainthread, c);
    OpenWithout(s.heap, s.openupval, c);
    RootWithout(s.heap, s.rootgc, c);
    StringsWithout(s.heap, s.strt, c);
  }

  lemma ShapedWithout(h: map<Ref, GCObject>, m: Ref, c: Ref)
    requires ShapedIn(h, m) && c in h && h[c].Releasable()
    ensures ShapedIn(h - {c}, m)
  {
  }

  lemma OpenWithout(h: map<Ref, GCObject>, q: seq<Ref>, c: Ref)
    requires OpenListed(h, q) && c in h && h[c].Releasable()
    ensures OpenListed(h - {c}, q)
  {
  }

  lemma RootWithout(h: map<Ref, GCObject>, q: seq<Ref>, c: Ref)
    requires RootListed(h, q) && c in h && h[c].Releasable()
    ensures RootListed(h - {c}, if h[c].kind == TString then q else Without(q, c))
  {
  }

  lemma StringsWithout(h: map<Ref, GCObject>, strt: seq<seq<Ref>>, c: Ref)
    requires |strt| > 0 && StringsListed(h, strt) && c in h
    ensures h[c].kind != TString ==> StringsListed(h - {c}, strt)
    ensures h[c].kind == TString ==>
              var b := Lmod(h[c].hash, |strt|); StringsListed(h - {c}, strt[b := Without(strt[b], c)])
  {
    if h[c].kind == TString {
      var b := Lmod(h[c].hash, |strt|);
      var t := strt[b := Without(strt[b], c)];
      forall a, x | 0 <= a < |t| && x in t[a]
        ensures x in h - {c} && h[x].kind == TString && Lmod(h[x].hash, |t|) == a
      {
        assert x in strt[a];
      }
    }
  }

  lemma RemoveCounts(s: State, c: Ref, work: seq<Option<Ref>>)
    requires Linked(s) && Shaped(s) && Counts(s, work) && Live(s, c) && s.heap[c].Releasable()
    requires Linked(Remove(s, c))
    ensures Counts(Remove(s, c), s.heap[c].slots + work)
  {
    var t := Remove(s, c);
    var o := s.heap[c];
    forall x | x in t.heap
      ensures t.heap[x].ref >= Holders(t, x) + Count(o.slots + work, x)
    {
      CountConcat(o.slots, work, x);
      RemoveHolders(s, c, x);
      assert s.heap[x].ref >= Holders(s, x) + Count(work, x);
    }
  }

  lemma RemoveHolders(s: State, c: Ref, x: Ref)
    requires Linked(s) && Shaped(s) && Live(s, c) && s.heap[c].Releasable()
    requires Linked(Remove(s, c))
    ensures Holders(s, x) == Holders(Remove(s, c), x) + Count(s.heap[c].slots, x)
  {
    var t := Remove(s, c);
    if s.heap[c].kind != TString {
      var k := IndexOf(s.rootgc, c);
      WithoutAt(s.rootgc, k);
      HeldInAt(s.heap, s.currentwhite, s.rootgc, k, x);
    }
    HeldInSame(s.heap, t.heap, s.currentwhite, s.currentwhite, t.rootgc, x);
  }

  // -------------------------------------------------------------- the cascade

  /** The state after the first reference of `work` is dropped, and the work
      that is left: the slots of a freed object go first. */
  function Drop(s: State, work: seq<Option<Ref>>): (r: (State, seq<Option<Ref>>))
    requires work != [] && LiveOpt(s, work[0]) && |s.strt| > 0
  {
    if work[0].None? then (s, work[1..])
    else
      var c := work[0].value;
      var s1 := Decrement(s, c);
      if s1.heap[c].ref <= 0 && s1.heap[c].Releasable()
      then (Remove(s1, c), s1.heap[c].slots + work[1..])
      else (s1, work[1..])
  }

  lemma DropSound(s: State, work: seq<Option<Ref>>)
    requires Sound(s, work) && work != []
    ensures Sound(Drop(s, work).0, Drop(s, work).1)
  {
    hide Linked, Shaped, Closed, Counts, Remove;
    assert LiveOpt(s, work[0]);
    if work[0].None? {
      SkipSound(s, work);
    } else {
      var c := work[0].value;
      DecrementSound(s, work);
      if Decrement(s, c).heap[c].ref <= 0 && Decrement(s, c).heap[c].Releasable() {
        RemoveSound(Decrement(s, c), c, work[1..]);
      }
    }
  }

  lemma SkipSound(s: State, work: seq<Option<Ref>>)
    requires Sound(s, work) && work != [] && work[0].None?
    ensures Sound(s, work[1..])
  {
    assert forall x :: Count(work[1..], x) == Count(work, x);
  }

  lemma RemoveShrinks(s: State, c: Ref)
    requires Live(s, c) && |s.strt| > 0 && s.heap[c].Releasable()
    ensures Shrunk(s, Remove(s, c)) && |Remove(s, c).heap| == |s.heap| - 1
  {
    assert Remove(s, c).heap == s.heap - {c};
    assert Remove(s, c).heap.Keys == s.heap.Keys - {c};
    assert |s.heap| == |s.heap.Keys| && |Remove(s, c).heap| == |Remove(s, c).heap.Keys|;
  }

  lemma DecrementShrinks(s: State, c: Ref)
    requires c in s.heap
    ensures Shrunk(s, Decrement(s, c)) && |Decrement(s, c).heap| == |s.heap|
  {
    assert Decrement(s, c).heap.Keys == s.heap.Keys;
    assert |s.heap| == |s.heap.Keys| && |Decrement(s, c).heap| == |Decrement(s, c).heap.Keys|;
  }

  lemma ShrunkTransitive(s: State, t: State, u: State)
    requires Shrunk(s, t) && Shrunk(t, u)
    ensures Shrunk(s, u)
  {
  }

  /** Each drop frees one object or shortens the work: the cascade ends. */
  lemma DropShrinks(s: State, work: seq<Option<Ref>>)
    requires work != [] && LiveOpt(s, work[0]) && |s.strt| > 0
    ensures Shrunk(s, Drop(s, work).0)
    ensures |Drop(s, work).0.heap| < |s.heap| ||
            (|Drop(s, work).0.heap| == |s.heap| && |Drop(s, work).1| < |work|)
  {
    if work[0].Some? {
      var c := work[0].value;
      var s1 := Decrement(s, c);
      DecrementShrinks(s, c);
      hide Shrunk;
      if s1.heap[c].ref <= 0 && s1.heap[c].Releasable() {
        RemoveShrinks(s1, c);
        ShrunkTransitive(s, s1, Remove(s1, c));
      }
    }
  }

  /** Drops all the references in `work`, first to last.  An object whose count
      reaches zero is freed and its own references are dropped before the rest
      of the work: the order in which the recursive releases run. */
  function Release(s: State, work: seq<Option<Ref>>): (t: State)
    requires Sound(s, work)
    ensures Sound(t, [])
    decreases |s.heap|, |work|
  {
    hide Linked, Shaped, Closed, Counts, Drop;
    if work == [] then s
    else
      assert LiveOpt(s, work[0]);
      DropSound(s, work);
      DropShrinks(s, work);
      Release(Drop(s, work).0, Drop(s, work).1)
  }

  // ----------------------------------------------- what the cascade leaves alone

  /** Reachability needs no more than closedness: whatever can be reached from
      the roots, after a cascade as before it, is live. */
  lemma {:induction false} PathLive(s: State, p: seq<Ref>)
    requires Closed(s) && Path(s, p)
    ensures Live(s, p[|p| - 1])
  {
    if |p| == 1 {
      RootLive(s, p[0]);
    } else {
      var q := p[..|p| - 1];
      PathLive(s, q);
      var i :| 0 <= i < |s.heap[q[|q| - 1]].slots| && s.heap[q[|q| - 1]].slots[i] == Some(p[|p| - 1]);
      assert LiveIn(s.heap, s.currentwhite, s.heap[q[|q| - 1]].slots[i].value);
    }
  }

  lemma RootLive(s: State, x: Ref)
    requires Closed(s) && IsRoot(s, x)
    ensures Live(s, x)
  {
    if x != s.mainthread {
      var i :| 0 <= i < |Roots(s)| && Roots(s)[i] == Some(x);
      assert LiveIn(s.heap, s.currentwhite, Roots(s)[i].value);
    }
  }

  /** A path of the state before a cascade is one of the state after it: no
      object that can be reached is released. */
  lemma {:induction false} PathSurvives(s: State, t: State, p: seq<Ref>)
    requires Closed(s) && Closed(t) && Shrunk(s, t) && Path(s, p)
    ensures Path(t, p) && p[|p| - 1] in t.heap
  {
    if |p| == 1 {
      RootLive(t, p[0]);
    } else {
      var q := p[..|p| - 1];
      PathSurvives(s, t, q);
      forall k | 0 <= k < |p| - 1
        ensures p[k] in t.heap && Some(p[k + 1]) in t.heap[p[k]].slots
      {
        if k < |q| - 1 {
          assert q[k] in t.heap && Some(q[k + 1]) in t.heap[q[k]].slots;
        } else {
          assert p[k] == q[|q| - 1];
        }
      }
      PathLive(t, p);
    }
  }

  // ------------------------------------------------------ colors and the cascade

  lemma DecrementColored(s: State, c: Ref, holders: set<Ref>, targets: set<Ref>)
    requires Colored(s, holders, targets) && Shades(s.heap) && c in s.heap
    ensures Colored(Decrement(s, c), holders, targets) && Shades(Decrement(s, c).heap)
  {
    var h, g := s.heap, Decrement(s, c).heap;
    assert g.Keys == h.Keys;
    assert forall x :: x in h ==> g[x].color == h[x].color && g[x].slots == h[x].slots && g[x].Traversable() == h[x].Traversable();
    if s.gcstate == Propagate {
      TriSame(h, g, holders, {});
      TriSame(h, g, {}, targets);
    }
  }

  lemma TriSame(h: map<Ref, GCObject>, g: map<Ref, GCObject>, holders: set<Ref>, targets: set<Ref>)
    requires g.Keys <= h.Keys
    requires forall x :: x in g ==> g[x].color == h[x].color && g[x].slots == h[x].slots
    requires TriBut(h, holders, targets)
    ensures TriBut(g, holders, targets)
  {
    forall x, i | x in g && g[x].color == Black && 0 <= i < |g[x].slots| && IsWhite(g, g[x].slots[i])
      ensures x in holders || g[x].slots[i].value in targets
    {
      assert IsWhite(h, h[x].slots[i]);
    }
  }

  lemma RemoveColored(s: State, c: Ref, holders: set<Ref>, targets: set<Ref>)
    requires Colored(s, holders, targets) && Shades(s.heap) && Linked(s)
    requires c in s.heap && c != s.mainthread
    ensures Colored(Remove(s, c), holders, targets) && Shades(Remove(s, c).heap)
  {
    var h, g := s.heap, Remove(s, c).heap;
    assert g == h - {c};
    if s.gcstate == Propagate {
      TriSame(h, g, holders, {});
      TriSame(h, g, {}, targets);
      GrayWithout(h, s.gray, s.grayagain, c);
    } else if s.gcstate == Sweepstring || s.gcstate == Sweep {
      SweptWithout(s, c);
    }
  }

  lemma GrayWithout(h: map<Ref, GCObject>, gray: seq<Ref>, grayagain: seq<Ref>, c: Ref)
    requires GrayLists(h, gray, grayagain) && c in h
    ensures if h[c].color == Gray && h[c].Traversable()
            then GrayLists(h - {c}, Without(gray, c), Without(grayagain, c))
            else GrayLists(h - {c}, gray, grayagain)
  {
  }

  lemma SweptWithout(s: State, c: Ref)
    requires Linked(s) && c in s.heap && c != s.mainthread
    ensures forall n :: StringsSwept(s.heap, s.strt, n, s.currentwhite) ==>
              StringsSwept(Remove(s, c).heap, Remove(s, c).strt, n, s.currentwhite)
    ensures s.gcstate == Sweepstring ==> Remove(s, c).sweepgc == s.sweepgc
    ensures s.gcstate == Sweep && RootSwept(s.heap, s.rootgc, s.openupval, s.sweepgc, s.mainthread, s.currentwhite) ==>
              var t := Remove(s, c);
              RootSwept(t.heap, t.rootgc, t.openupval, t.sweepgc, t.mainthread, t.currentwhite)
  {
    hide OpenListed;
    var t := Remove(s, c);
    if s.heap[c].kind == TString {
      forall b, x | 0 <= b < |t.strt| && x in t.strt[b]
        ensures x in s.strt[b]
      {
      }
    } else if s.gcstate == Sweep && RootSwept(s.heap, s.rootgc, s.openupval, s.sweepgc, s.mainthread, s.currentwhite) && c in s.rootgc {
      RootSweptWithout(s.heap, s.rootgc, s.openupval, s.sweepgc, s.mainthread, s.currentwhite, c);
    }
  }

  lemma RootSweptWithout(h: map<Ref, GCObject>, q: seq<Ref>, open: seq<Ref>, k: nat, m: Ref, w: bool, c: Ref)
    requires RootSwept(h, q, open, k, m, w) && NoDup(q) && c in q && c != m
    ensures RootSwept(h - {c}, Without(q, c), open, if IndexOf(q, c) < k then k - 1 else k, m, w)
  {
    var j := IndexOf(q, c);
    var r := Without(q, c);
    var k' := if j < k then k - 1 else k;
    WithoutAt(q, j);
    forall i | 0 <= i < k'
      ensures r[i] in q[..k]
    {
      assert r[i] == if i < j then q[i] else q[i + 1];
    }
  }

  lemma MainStays(s: State, c: Ref)
    requires Shaped(s) && c in s.heap && s.heap[c].Releasable()
    ensures c != s.mainthread
  {
  }

  lemma DropColored(s: State, work: seq<Option<Ref>>, holders: set<Ref>, targets: set<Ref>)
    requires Sound(s, work) && work != []
    requires Colored(s, holders, targets) && Shades(s.heap)
    ensures LiveOpt(s, work[0])
    ensures Colored(Drop(s, work).0, holders, targets) && Shades(Drop(s, work).0.heap)
  {
    hide Linked, ShapedIn, Closed, Counts, Colored, Shades;
    if work[0].Some? {
      var c := work[0].value;
      var s1 := Decrement(s, c);
      DecrementLinked(s, c);
      DecrementColored(s, c, holders, targets);
      if s1.heap[c].ref <= 0 && s1.heap[c].Releasable() {
        MainStays(s1, c);
        RemoveColored(s1, c, holders, targets);
      }
    }
  }

  /** A cascade keeps the colors right and never frees what can be reached. */
  lemma {:induction false} ReleaseKeeps(s: State, work: seq<Option<Ref>>, holders: set<Ref>, targets: set<Ref>)
    requires Sound(s, work)
    requires Colored(s, holders, targets) && Shades(s.heap)
    ensures Colored(Release(s, work), holders, targets) && Shades(Release(s, work).heap)
    ensures Shrunk(s, Release(s, work))
    decreases |s.heap|, |work|
  {
    hide Linked, Shaped, Closed, Counts, Colored, Shades, Drop, Shrunk;
    if work == [] {
      ShrunkReflexive(s);
    } else {
      var d := Drop(s, work);
      DropColored(s, work, holders, targets);
      DropSound(s, work);
      DropShrinks(s, work);
      ReleaseKeeps(d.0, d.1, holders, targets);
      ShrunkTransitive(s, d.0, Release(d.0, d.1));
    }
  }

  lemma ShrunkReflexive(s: State)
    ensures Shrunk(s, s)
  {
  }

  // ------------------------------------------------------- what a cascade frees

  /** From h to g objects may disappear and counts may go down.  An object whose
      count has run out on the way is still there only if it is fixed, a userdata
      that is finalized, or an open upvalue. */
  ghost predicate Drained(h: map<Ref, GCObject>, g: map<Ref, GCObject>) {
    forall x :: x in g ==>
      && x in h && g[x] == h[x].(ref := g[x].ref)
      && (g[x].ref < h[x].ref && g[x].ref <= 0 ==>
            g[x].fixed || (g[x].kind == TUserdata && g[x].finalized) || g[x].level.Some?)
  }

  lemma DrainedAtOnce(h: map<Ref, GCObject>)
    ensures Drained(h, h)
  {
  }

  lemma DrainedTransitive(h: map<Ref, GCObject>, g: map<Ref, GCObject>, k: map<Ref, GCObject>)
    requires Drained(h, g) && Drained(g, k)
    ensures Drained(h, k)
  {
    forall x | x in k
      ensures x in h && k[x] == h[x].(ref := k[x].ref)
    {
      assert x in g;
    }
  }

  lemma DecrementDrained(h: map<Ref, GCObject>, c: Ref)
    requires c in h
    ensures var g := h[c := h[c].(ref := h[c].ref - 1)];
            Drained(h, g - {c}) && (g[c].ref > 0 || !g[c].Releasable() ==> Drained(h, g))
  {
  }

  lemma DropDrained(s: State, work: seq<Option<Ref>>)
    requires work != [] && LiveOpt(s, work[0]) && |s.strt| > 0
    ensures Drained(s.heap, Drop(s, work).0.heap)
  {
    if work[0].Some? {
      DecrementDrained(s.heap, work[0].value);
    }
  }

  /** By how much the count of x exceeds its holders and the decrements that are
      still to come. */
  ghost function Excess(s: State, work: seq<Option<Ref>>, x: Ref): int
    requires x in s.heap && forall y :: y in s.rootgc ==> y in s.heap
  {
    s.heap[x].ref - Holders(s, x) - Count(work, x)
  }

  lemma DecrementExcess(s: State, work: seq<Option<Ref>>, x: Ref)
    requires work != [] && work[0].Some? && work[0].value in s.heap && x in s.heap
    requires forall y :: y in s.rootgc ==> y in s.heap
    ensures Excess(Decrement(s, work[0].value), work[1..], x) == Excess(s, work, x)
  {
    var t := Decrement(s, work[0].value);
    HeldInSame(s.heap, t.heap, s.currentwhite, s.currentwhite, s.rootgc, x);
  }

  lemma RemoveExcess(s: State, c: Ref, work: seq<Option<Ref>>, x: Ref)
    requires Linked(s) && Shaped(s) && Live(s, c) && s.heap[c].Releasable()
    requires Linked(Remove(s, c)) && x in s.heap && x != c
    ensures Excess(Remove(s, c), s.heap[c].slots + work, x) == Excess(s, work, x)
  {
    CountConcat(s.heap[c].slots, work, x);
    RemoveHolders(s, c, x);
  }

  lemma FirstRefLive(s: State, work: seq<Option<Ref>>)
    requires Sound(s, work) && work != []
    ensures LiveOpt(s, work[0]) && forall y :: y in s.rootgc ==> y in s.heap
  {
  }

  lemma RemoveFrame(s: State, c: Ref)
    requires c in s.heap && |s.strt| > 0
    ensures Remove(s, c).heap == s.heap - {c}
  {
  }

  lemma DropExcess(s: State, work: seq<Option<Ref>>, x: Ref)
    requires Sound(s, work) && work != [] && x in s.heap
    ensures LiveOpt(s, work[0]) && Sound(Drop(s, work).0, Drop(s, work).1)
    ensures x in Drop(s, work).0.heap ==> Excess(Drop(s, work).0, Drop(s, work).1, x) == Excess(s, work, x)
    ensures x !in Drop(s, work).0.heap ==> Excess(s, work, x) == 0
    ensures x !in Drop(s, work).0.heap ==>
              !s.heap[x].fixed && !(s.heap[x].kind == TUserdata && s.heap[x].finalized) && s.heap[x].level.None?
  {
    hide Linked, Shaped, Closed, Counts, AllLive, Excess, Holders, Count, HeldIn, Remove;
    DropSound(s, work);
    FirstRefLive(s, work);
    if work[0].Some? {
      var c := work[0].value;
      var s1 := Decrement(s, c);
      DecrementSound(s, work);
      DecrementExcess(s, work, x);
      if s1.heap[c].ref <= 0 && s1.heap[c].Releasable() {
        RemoveLinked(s1, c);
        RemoveFrame(s1, c);
        if x == c {
          NoExcess(s1, work[1..], x);
        } else {
          RemoveExcess(s1, c, work[1..], x);
        }
      }
    } else {
      NoneExcess(s, work, x);
    }
  }

  lemma NoExcess(s: State, work: seq<Option<Ref>>, x: Ref)
    requires Counts(s, work) && x in s.heap && s.heap[x].ref <= 0
    ensures Excess(s, work, x) == 0
  {
  }

  lemma NoneExcess(s: State, work: seq<Option<Ref>>, x: Ref)
    requires work != [] && work[0].None? && x in s.heap && forall y :: y in s.rootgc ==> y in s.heap
    ensures Excess(s, work[1..], x) == Excess(s, work, x)
  {
  }

  /** What a cascade frees and what it leaves.  Every object that is left has
      given up exactly the references in `work` and those of the objects that are
      gone.  If that has used up its count, it is fixed, a userdata that is
      finalized or an open upvalue.  And an object that is gone is none of these:
      its count was made up of references that have all been given up. */
  lemma {:induction false} ReleaseExact(s: State, work: seq<Option<Ref>>)
    requires Sound(s, work)
    ensures Drained(s.heap, Release(s, work).heap)
    ensures forall y :: y in s.rootgc ==> y in s.heap
    ensures forall y :: y in Release(s, work).rootgc ==> y in Release(s, work).heap
    ensures forall x :: x in Release(s, work).heap ==>
              s.heap[x].ref - Release(s, work).heap[x].ref
              == Count(work, x) + Holders(s, x) - Holders(Release(s, work), x)
    ensures forall x :: x in s.heap && x !in Release(s, work).heap ==>
              && !s.heap[x].fixed && !(s.heap[x].kind == TUserdata && s.heap[x].finalized) && s.heap[x].level.None?
              && s.heap[x].ref == Holders(s, x) + Count(work, x)
    decreases |s.heap|, |work|
  {
    hide Linked, Shaped, Closed, AllLive, Drop, Holders, Count;
    if work != [] {
      FirstRefLive(s, work);
      var d := Drop(s, work);
      DropSound(s, work);
      DropShrinks(s, work);
      DropDrained(s, work);
      ReleaseExact(d.0, d.1);
      DrainedTransitive(s.heap, d.0.heap, Release(d.0, d.1).heap);
      forall x | x in s.heap
        ensures x in d.0.heap ==> Excess(d.0, d.1, x) == Excess(s, work, x)
        ensures x !in d.0.heap ==> Excess(s, work, x) == 0
        ensures x !in d.0.heap ==>
                  !s.heap[x].fixed && !(s.heap[x].kind == TUserdata && s.heap[x].finalized) && s.heap[x].level.None?
      {
        DropExcess(s, work, x);
      }
    } else {
      assert forall x :: Count([], x) == 0 by { forall x { NoWork(x); } }
    }
  }

  lemma NoWork(x: Ref)
    ensures Count([], x) == 0
  {
  }
}
