/** Marking: reallymarkobject and propagatemark (src/lgc.c:78-135,
    src/lgc.c:324-397). */
module GcMark {
  import opened Seqs
  import opened GcState
  import opened GcRelease

  function Whites(h: map<Ref, GCObject>): set<Ref> {
    set x | x in h && h[x].color.White?
  }

  /** What marking relies on: no white of the previous cycle is left, so every
      slot leads to an object. */
  ghost predicate Markable(s: State) {
    NoDead(s.heap, s.currentwhite) && ClosedIn(s.heap, s.currentwhite) && ShapedIn(s.heap, s.mainthread)
  }

  ghost predicate Within(h: map<Ref, GCObject>, q: seq<Option<Ref>>) {
    forall i :: 0 <= i < |q| && q[i].Some? ==> q[i].value in h
  }

  /** White objects may lose their color; nothing else about the heap changes. */
  ghost predicate Darker(h: map<Ref, GCObject>, g: map<Ref, GCObject>) {
    && g.Keys == h.Keys
    && (forall x :: x in h ==> g[x] == h[x].(color := g[x].color))
    && (forall x :: x in h && !h[x].color.White? ==> g[x].color == h[x].color)
    && (forall x :: x in h && g[x].color.White? ==> g[x].color == h[x].color)
  }

  /** The first thing reallymarkobject does: white to gray, and on to black for
      objects that need no list; the others enter the gray list. */
  function Paint(s: State, x: Ref): State
    requires x in s.heap
  {
    var o := s.heap[x];
    if o.Traversable() then Repaint(s, x, Gray).(gray := [x] + s.gray)
    else if o.kind == TString || o.level.Some? then Repaint(s, x, Gray)
    else Repaint(s, x, Black)
  }

  /** What reallymarkobject goes on to mark at once: what a userdata or a closed
      upvalue refers to, and the stack slot an open upvalue points to. */
  function Kids(s: State, x: Ref): seq<Option<Ref>>
    requires x in s.heap && s.mainthread in s.heap
    requires s.heap[x].level.Some? ==> s.heap[x].level.value < |s.heap[s.mainthread].slots|
  {
    var o := s.heap[x];
    if o.level.Some? then [s.heap[s.mainthread].slots[o.level.value]]
    else if o.kind == TUserdata || o.kind == TUpval then o.slots
    else []
  }

  lemma PaintDarker(s: State, x: Ref)
    requires Markable(s) && x in s.heap && s.heap[x].color.White?
    ensures Darker(s.heap, Paint(s, x).heap) && Markable(Paint(s, x))
    ensures |Whites(Paint(s, x).heap)| == |Whites(s.heap)| - 1
    ensures x in Paint(s, x).heap && !Paint(s, x).heap[x].color.White?
  {
    var c := Paint(s, x).heap[x].color;
    TintDarker(s.heap, x, c);
    DarkerMarkable(s, Paint(s, x));
  }

  lemma TintDarker(h: map<Ref, GCObject>, x: Ref, c: Color)
    requires x in h && h[x].color.White? && !c.White?
    ensures Darker(h, Tint(h, x, c))
    ensures |Whites(Tint(h, x, c))| == |Whites(h)| - 1
  {
    assert Whites(Tint(h, x, c)) == Whites(h) - {x};
  }

  lemma DarkerMarkable(s: State, t: State)
    requires Markable(s) && Darker(s.heap, t.heap) && t.currentwhite == s.currentwhite && t.mainthread == s.mainthread
    ensures Markable(t)
  {
    DarkerClosed(s.heap, t.heap, s.currentwhite);
    DarkerShaped(s.heap, t.heap, s.mainthread);
  }

  lemma DarkerClosed(h: map<Ref, GCObject>, g: map<Ref, GCObject>, w: bool)
    requires NoDead(h, w) && ClosedIn(h, w) && Darker(h, g)
    ensures NoDead(g, w) && ClosedIn(g, w)
  {
    assert forall x :: LiveIn(g, w, x) <==> LiveIn(h, w, x);
  }

  lemma DarkerShaped(h: map<Ref, GCObject>, g: map<Ref, GCObject>, m: Ref)
    requires ShapedIn(h, m) && Darker(h, g)
    ensures ShapedIn(g, m)
  {
  }

  lemma KidsWithin(s: State, x: Ref)
    requires Markable(s) && x in s.heap
    ensures Within(s.heap, Kids(s, x))
  {
    assert LiveIn(s.heap, s.currentwhite, x) && LiveIn(s.heap, s.currentwhite, s.mainthread);
  }

  lemma SlotsWithin(s: State, x: Ref)
    requires Markable(s) && x in s.heap
    ensures Within(s.heap, s.heap[x].slots)
  {
    assert LiveIn(s.heap, s.currentwhite, x);
  }

  lemma DarkerTransitive(h: map<Ref, GCObject>, g: map<Ref, GCObject>, f: map<Ref, GCObject>)
    requires Darker(h, g) && Darker(g, f)
    ensures Darker(h, f)
  {
  }

  /** t is s with a darker heap and possibly more gray objects. */
  ghost predicate Marked(s: State, t: State) {
    && Darker(s.heap, t.heap)
    && t == s.(heap := t.heap, gray := t.gray)
    && |Whites(t.heap)| + |t.gray| <= |Whites(s.heap)| + |s.gray|
    && |Whites(t.heap)| <= |Whites(s.heap)|
  }

  lemma MarkedTransitive(s: State, t: State, u: State)
    requires Marked(s, t) && Marked(t, u)
    ensures Marked(s, u)
  {
    DarkerTransitive(s.heap, t.heap, u.heap);
  }

  /** markobject: marks x if it is white. */
  function Mark(s: State, x: Ref): (t: State)
    requires Markable(s) && x in s.heap
    ensures Markable(t) && Marked(s, t)
    decreases |Whites(s.heap)|, 0
  {
    hide NoDead, ClosedIn, Kids, Paint;
    if !s.heap[x].color.White? then s
    else
      PaintDarker(s, x);
      KidsWithin(s, x);
      PaintMarked(s, x);
      var t := MarkAll(Paint(s, x), Kids(s, x));
      MarkedTransitive(s, Paint(s, x), t);
      t
  }

  lemma PaintMarked(s: State, x: Ref)
    requires Markable(s) && x in s.heap && s.heap[x].color.White?
    ensures Marked(s, Paint(s, x))
  {
    PaintDarker(s, x);
  }

  /** markvalue on each value of q. */
  function MarkAll(s: State, q: seq<Option<Ref>>): (t: State)
    requires Markable(s) && Within(s.heap, q)
    ensures Markable(t) && Marked(s, t)
    decreases |Whites(s.heap)|, |q|
  {
    hide Markable;
    if q == [] then s
    else if q[0].None? then MarkAll(s, q[1..])
    else
      var u := Mark(s, q[0].value);
      var t := MarkAll(u, q[1..]);
      MarkedTransitive(s, u, t);
      t
  }

  // --------------------------------------------------- what marking establishes

  ghost predicate Dark(h: map<Ref, GCObject>, q: seq<Option<Ref>>) {
    forall i :: 0 <= i < |q| ==> !IsWhite(h, q[i])
  }

  /** The invariants of the mark phase, with the white objects in `targets`
      still to be marked. */
  ghost predicate Marking(s: State, targets: set<Ref>) {
    && Shades(s.heap)
    && TriBut(s.heap, {}, targets)
    && GrayLists(s.heap, s.gray, s.grayagain)
  }

  function Refs(q: seq<Option<Ref>>): set<Ref> {
    set i | 0 <= i < |q| && q[i].Some? :: q[i].value
  }

  lemma PaintMarking(s: State, x: Ref, targets: set<Ref>)
    requires Markable(s) && x in s.heap && s.heap[x].color.White?
    requires Marking(s, targets + {x})
    ensures Marking(Paint(s, x), targets + Refs(Kids(s, x)))
  {
    PaintLists(s, x);
    PaintTri(s, x, targets);
  }

  lemma PaintLists(s: State, x: Ref)
    requires x in s.heap && s.heap[x].color.White? && Shades(s.heap) && ShapedIn(s.heap, s.mainthread)
    requires GrayLists(s.heap, s.gray, s.grayagain)
    ensures var t := Paint(s, x); Shades(t.heap) && GrayLists(t.heap, t.gray, t.grayagain)
  {
    hide GrayLists;
    TintLists(s.heap, x, Paint(s, x).heap[x].color, s.gray, s.grayagain);
  }

  /** A white object enters the gray list when it has links for it. */
  lemma TintLists(h: map<Ref, GCObject>, x: Ref, c: Color, gray: seq<Ref>, grayagain: seq<Ref>)
    requires x in h && h[x].color.White? && GrayLists(h, gray, grayagain)
    requires h[x].Traversable() ==> c == Gray
    ensures GrayLists(Tint(h, x, c), if h[x].Traversable() then [x] + gray else gray, grayagain)
  {
    assert x !in gray && x !in grayagain;
  }

  lemma PaintTri(s: State, x: Ref, targets: set<Ref>)
    requires Markable(s) && x in s.heap && s.heap[x].color.White?
    requires TriBut(s.heap, {}, targets + {x})
    ensures TriBut(Paint(s, x).heap, {}, targets + Refs(Kids(s, x)))
  {
    var h, g := s.heap, Paint(s, x).heap;
    forall y, i | y in g && g[y].color == Black && 0 <= i < |g[y].slots| && IsWhite(g, g[y].slots[i])
      ensures g[y].slots[i].value in targets + Refs(Kids(s, x))
    {
      assert IsWhite(h, h[y].slots[i]);
      if y == x {
        assert h[x].slots[i].value in Refs(Kids(s, x));
      }
    }
  }

  lemma {:induction false} MarkKeeps(s: State, x: Ref, targets: set<Ref>)
    requires Markable(s) && x in s.heap && Marking(s, targets + {x})
    ensures Marking(Mark(s, x), targets) && !Mark(s, x).heap[x].color.White?
    decreases |Whites(s.heap)|, 0
  {
    if !s.heap[x].color.White? {
      TriDrop(s.heap, targets, x);
    } else {
      PaintDarker(s, x);
      KidsWithin(s, x);
      PaintMarking(s, x, targets);
      hide NoDead, ClosedIn, Marking, Paint;
      MarkAllKeeps(Paint(s, x), Kids(s, x), targets);
    }
  }

  lemma TriDrop(h: map<Ref, GCObject>, targets: set<Ref>, x: Ref)
    requires TriBut(h, {}, targets + {x}) && !IsWhite(h, Some(x))
    ensures TriBut(h, {}, targets)
  {
  }

  lemma {:induction false} MarkAllKeeps(s: State, q: seq<Option<Ref>>, targets: set<Ref>)
    requires Markable(s) && Within(s.heap, q) && Marking(s, targets + Refs(q))
    ensures Marking(MarkAll(s, q), targets) && Dark(MarkAll(s, q).heap, q)
    decreases |Whites(s.heap)|, |q|
  {
    hide Markable, GrayLists, Shades, TriBut;
    if q == [] {
      assert targets + Refs(q) == targets;
    } else if q[0].None? {
      assert Refs(q) == Refs(q[1..]);
      MarkAllKeeps(s, q[1..], targets);
      DarkCons(MarkAll(s, q).heap, q);
    } else {
      var x := q[0].value;
      RefsCons(q);
      assert targets + Refs(q) == (targets + Refs(q[1..])) + {x};
      MarkKeeps(s, x, targets + Refs(q[1..]));
      MarkAllKeeps(Mark(s, x), q[1..], targets);
      DarkCons(MarkAll(s, q).heap, q);
    }
  }

  lemma RefsCons(q: seq<Option<Ref>>)
    requires q != [] && q[0].Some?
    ensures Refs(q) == Refs(q[1..]) + {q[0].value}
  {
    forall y | y in Refs(q)
      ensures y in Refs(q[1..]) + {q[0].value}
    {
      var i :| 0 <= i < |q| && q[i].Some? && q[i].value == y;
      assert i > 0 ==> q[1..][i - 1] == q[i];
    }
    forall y | y in Refs(q[1..])
      ensures y in Refs(q)
    {
      var i :| 0 <= i < |q[1..]| && q[1..][i].Some? && q[1..][i].value == y;
      assert q[i + 1] == q[1..][i];
    }
  }

  lemma DarkCons(h: map<Ref, GCObject>, q: seq<Option<Ref>>)
    requires q != [] && Dark(h, q[1..]) && !IsWhite(h, q[0])
    ensures Dark(h, q)
  {
    assert forall i :: 0 < i < |q| ==> q[i] == q[1..][i - 1];
  }

  // ------------------------------------------------------------- propagatemark

  /** Takes the first gray object: a thread moves to `grayagain` and stays gray,
      any other object turns black. */
  function Pick(s: State): State
    requires s.gray != [] && s.gray[0] in s.heap
  {
    var x := s.gray[0];
    if s.heap[x].kind == TThread
    then s.(gray := s.gray[1..], grayagain := [x] + s.grayagain)
    else Repaint(s, x, Black).(gray := s.gray[1..])
  }

  lemma PickMarkable(s: State)
    requires Markable(s) && s.gray != [] && s.gray[0] in s.heap && !s.heap[s.gray[0]].color.White?
    ensures Markable(Pick(s)) && Within(Pick(s).heap, s.heap[s.gray[0]].slots)
    ensures Whites(Pick(s).heap) == Whites(s.heap)
  {
    SlotsWithin(s, s.gray[0]);
    TintMarkable(s.heap, s.gray[0], s.currentwhite, s.mainthread);
  }

  lemma TintMarkable(h: map<Ref, GCObject>, x: Ref, w: bool, m: Ref)
    requires NoDead(h, w) && ClosedIn(h, w) && ShapedIn(h, m) && x in h && !h[x].color.White?
    ensures var g := Tint(h, x, Black);
            NoDead(g, w) && ClosedIn(g, w) && ShapedIn(g, m) && Whites(g) == Whites(h) && g.Keys == h.Keys
  {
    assert forall y :: LiveIn(Tint(h, x, Black), w, y) <==> LiveIn(h, w, y);
  }

  function PropagateMark(s: State): (t: State)
    requires Markable(s) && s.gray != [] && s.gray[0] in s.heap && !s.heap[s.gray[0]].color.White?
    ensures Markable(t) && |Whites(t.heap)| + |t.gray| < |Whites(s.heap)| + |s.gray|
  {
    PickMarkable(s);
    MarkAll(Pick(s), s.heap[s.gray[0]].slots)
  }

  lemma PickMarking(s: State)
    requires Markable(s) && s.gray != [] && Marking(s, {})
    ensures s.gray[0] in s.heap && !s.heap[s.gray[0]].color.White?
    ensures Marking(Pick(s), Refs(s.heap[s.gray[0]].slots))
  {
    assert s.gray[0] in s.gray;
    PickLists(s);
    PickTri(s);
  }

  lemma PickLists(s: State)
    requires ShapedIn(s.heap, s.mainthread)
    requires s.gray != [] && Shades(s.heap) && GrayLists(s.heap, s.gray, s.grayagain)
    requires s.gray[0] in s.heap
    ensures var t := Pick(s); Shades(t.heap) && GrayLists(t.heap, t.gray, t.grayagain)
  {
    var x := s.gray[0];
    assert x in s.gray && s.gray == [x] + s.gray[1..];
    assert x !in s.gray[1..] by { assert forall i :: 0 < i < |s.gray| ==> s.gray[i] != s.gray[0]; }
    PickedLists(s.heap, x, s.gray[1..], s.grayagain);
  }

  lemma PickedLists(h: map<Ref, GCObject>, x: Ref, gray: seq<Ref>, grayagain: seq<Ref>)
    requires x in h && h[x].level.None? && x !in gray && Shades(h) && GrayLists(h, [x] + gray, grayagain)
    ensures x !in grayagain
    ensures h[x].kind == TThread ==> GrayLists(h, gray, [x] + grayagain)
    ensures h[x].kind != TThread ==> GrayLists(Tint(h, x, Black), gray, grayagain) && Shades(Tint(h, x, Black))
  {
    assert x in [x] + gray;
    assert forall y :: y in [x] + gray <==> y == x || y in gray;
    assert NoDup(gray) by { assert forall i :: 0 <= i < |gray| ==> ([x] + gray)[i + 1] == gray[i]; }
  }

  lemma PickTri(s: State)
    requires s.gray != [] && s.gray[0] in s.heap && TriBut(s.heap, {}, {}) && !s.heap[s.gray[0]].color.White?
    ensures TriBut(Pick(s).heap, {}, Refs(s.heap[s.gray[0]].slots))
  {
    var h, g := s.heap, Pick(s).heap;
    forall y, i | y in g && g[y].color == Black && 0 <= i < |g[y].slots| && IsWhite(g, g[y].slots[i])
      ensures g[y].slots[i].value in Refs(s.heap[s.gray[0]].slots)
    {
      assert IsWhite(h, h[y].slots[i]);
    }
  }

  /** One step of the mark phase keeps its invariants. */
  lemma PropagateMarkKeeps(s: State)
    requires Markable(s) && s.gray != [] && Marking(s, {})
    ensures s.gray[0] in s.heap && !s.heap[s.gray[0]].color.White?
    ensures Marking(PropagateMark(s), {})
  {
    PickMarking(s);
    PickMarkable(s);
    hide Markable, Marking, Pick;
    var q := s.heap[s.gray[0]].slots;
    assert {} + Refs(q) == Refs(q);
    MarkAllKeeps(Pick(s), q, {});
  }
}
