/** The collector as the program keeps it: one global state whose objects carry
    their list links, updated in place (src/lstate.h:138-186, src/lgc.c).  Every
    method is proved to do what the functions on GcState.State say. */
module GcHeap {
  import opened Bits
  import opened Seqs
  import opened LinkedLists
  import opened GcState
  import opened GcRelease
  import opened GcMark
  import opened GcAtomic
  import opened GcStore
  import opened GcSweep
  import opened GcCycle
  import opened GcObjects
  import opened GcMachine
  import opened GcSafety
  import opened GcFull
  import opened GcLinks

  class GlobalState {
    var heap: map<Ref, GCObject>
    var next: Links
    var prev: Links
    var gcnext: Links
    var gcprev: Links
    var rootgc: Option<Ref>
    var hash: seq<Option<Ref>>
    var openupval: Option<Ref>
    var gray: Option<Ref>
    var grayagain: Option<Ref>
    var currentwhite: bool
    var gcstate: Phase
    var sweepstrgc: nat
    var sweepgc: Cursor
    var mainthread: Ref
    var registry: Option<Ref>
    var mt: seq<Option<Ref>>
    ghost var st: State

    ghost predicate Agrees()
      reads this
    {
      && heap == st.heap && currentwhite == st.currentwhite && gcstate == st.gcstate
      && sweepstrgc == st.sweepstrgc && mainthread == st.mainthread && registry == st.registry && mt == st.mt
    }

    ghost predicate Allocated()
      reads this
    {
      LinksFor(heap, next, prev) && LinksFor(heap, gcnext, gcprev)
    }

    ghost predicate ListsValid()
      reads this
    {
      && Doubly(next, prev, rootgc, st.rootgc)
      && Buckets(next, prev, hash, st.strt)
      && Chain(next, openupval, st.openupval)
    }

    /** The gray lists are linked while marking goes on.  Later only the head of
        `grayagain` is known: what it points to may have been freed. */
    ghost predicate GrayValid()
      reads this
    {
      && Heads(grayagain, st.grayagain)
      && (gcstate == Propagate ==>
            Doubly(gcnext, gcprev, gray, st.gray) && Doubly(gcnext, gcprev, grayagain, st.grayagain))
    }

    ghost predicate CursorValid()
      reads this
    {
      && (gcstate == Sweepstring ==> sweepgc == RootHead)
      && (gcstate == Sweep ==> st.sweepgc <= |st.rootgc| && Denotes(sweepgc, st.rootgc, st.sweepgc))
    }

    ghost predicate Valid()
      reads this
    {
      Agrees() && Allocated() && ListsValid() && GrayValid() && CursorValid()
    }

    /** A new global state: the main thread with an empty stack of the given
        size, an empty string table and no metatables. */
    constructor (thread: Ref, stack: nat, buckets: nat, types: nat)
      requires buckets > 0
      ensures Valid() && Initial(st)
    {
      var o := GCObject(TThread, White(false), true, false, 0, seq(stack, _ => None), None, 0);
      heap := map[thread := o];
      next, prev, gcnext, gcprev := map[thread := None], map[thread := None], map[thread := None], map[thread := None];
      rootgc, hash, openupval := Some(thread), seq(buckets, _ => None), None;
      gray, grayagain, currentwhite, gcstate := None, None, false, Pause;
      sweepstrgc, sweepgc, mainthread, registry := 0, RootHead, thread, None;
      mt := seq(types, _ => None);
      st := State(map[thread := o], [thread], seq(buckets, _ => []), [], [], [], false, Pause, 0, 0, thread, None, seq(types, _ => None));
    }

    // ---------------------------------------------------------- releasing objects

    /** Unlinks c from `rootgc`. */
    method UnlinkRoot(c: Ref)
      requires c in next && c in prev && next[c] != Some(c)
      modifies this`next, this`prev, this`rootgc
      ensures next == CutNext(old(next), old(prev), c) && prev == CutPrev(old(next), old(prev), c)
      ensures rootgc == CutHead(old(next), old(prev), old(rootgc), c)
    {
      if next[c].Some? {
        prev := prev[next[c].value := prev[c]];
      }
      if prev[c].Some? {
        next := next[prev[c].value := next[c]];
      } else {
        rootgc := next[c];
      }
    }

    /** Unlinks string c from its bucket. */
    method UnlinkString(c: Ref, b: nat)
      requires c in next && c in prev && next[c] != Some(c) && b < |hash|
      modifies this`next, this`prev, this`hash
      ensures next == CutNext(old(next), old(prev), c) && prev == CutPrev(old(next), old(prev), c)
      ensures hash == old(hash)[b := CutHead(old(next), old(prev), old(hash)[b], c)]
    {
      var n := next[c];
      if prev[c].Some? {
        next := next[prev[c].value := next[c]];
      } else {
        hash := hash[b := next[c]];
      }
      if n.Some? {
        prev := prev[n.value := prev[c]];
      }
    }

    /** Unlinks a gray object from whichever gray list it heads or is inside of. */
    method UnlinkGray(c: Ref)
      requires c in gcnext && c in gcprev && gcnext[c] != Some(c)
      requires gcprev[c].None? ==> gray == Some(c) || grayagain == Some(c)
      modifies this`gcnext, this`gcprev, this`gray, this`grayagain
      ensures gcnext == CutNext(old(gcnext), old(gcprev), c) && gcprev == CutPrev(old(gcnext), old(gcprev), c)
      ensures gray == CutGray(old(gcnext), old(gcprev), old(gray), c)
      ensures grayagain == CutGrayagain(old(gcnext), old(gcprev), old(gray), old(grayagain), c)
    {
      if gcnext[c].Some? {
        gcprev := gcprev[gcnext[c].value := gcprev[c]];
      }
      if gcprev[c].Some? {
        gcnext := gcnext[gcprev[c].value := gcnext[c]];
      } else if gray == Some(c) {
        gray := gcnext[c];
      } else {
        assert grayagain == Some(c);
        grayagain := gcnext[c];
      }
    }

    /** A cursor in c's own link moves back to the link that points to c. */
    method MoveCursor(c: Ref)
      requires c in prev
      modifies this`sweepgc
      ensures sweepgc == if gcstate == Sweep && old(sweepgc) == NextOf(c)
                         then (if prev[c].Some? then NextOf(prev[c].value) else RootHead)
                         else old(sweepgc)
    {
      if gcstate == Sweep && sweepgc == NextOf(c) {
        if prev[c].Some? {
          sweepgc := NextOf(prev[c].value);
        } else {
          sweepgc := RootHead;
        }
      }
    }

    /** The memory of c is returned. */
    method FreeMemory(c: Ref)
      requires Agrees() && Linked(st) && c in heap
      requires LinksFor(Forget(heap, c), Forget(next, c), Forget(prev, c))
      requires LinksFor(Forget(heap, c), Forget(gcnext, c), Forget(gcprev, c))
      modifies this`heap, this`next, this`prev, this`gcnext, this`gcprev, this`st
      ensures Agrees() && Allocated() && |old(st).strt| > 0 && st == Remove(old(st), c)
      ensures next == Forget(old(next), c) && prev == Forget(old(prev), c)
      ensures gcnext == Forget(old(gcnext), c) && gcprev == Forget(old(gcprev), c)
    {
      hide Heads, First, Linked, LinksFor, Remove;
      RemovedKeeps(st, c);
      heap, next, prev := heap - {c}, next - {c}, prev - {c};
      gcnext, gcprev := gcnext - {c}, gcprev - {c};
      st := Remove(st, c);
    }

    /** The luarc_free functions up to the members of c: c leaves its lists and
        is freed.  (Its memory is returned at once; nothing refers to it while
        its members are dropped.) */
    method FreeObject(c: Ref)
      requires Valid() && Linked(st) && Shaped(st) && c in heap && heap[c].Releasable()
      requires GrayOk(st)
      modifies this
      ensures Valid() && |old(st.strt)| > 0 && st == Remove(old(st), c)
    {
      if heap[c].kind == TString {
        FreeString(c);
      } else {
        FreeTraversable(c);
      }
    }

    method FreeString(c: Ref)
      requires Valid() && Linked(st) && Shaped(st) && c in heap && heap[c].kind == TString
      requires gcstate == Propagate ==> GrayLists(st.heap, st.gray, st.grayagain)
      modifies this
      ensures Valid() && st == Remove(old(st), c)
    {
      hide Heads, First, Linked, Shaped, Doubly, Buckets, Chain, CutNext, CutPrev, CutHead, GrayLists, Denotes, Lmod, LinksFor, Forget, Remove;
      StringGone(heap, next, prev, st, rootgc, hash, openupval, c);
      ForgetLinks(heap, gcnext, gcprev, c);
      if gcstate == Propagate {
        GrayKept(gcnext, gcprev, st, gray, grayagain, c);
      }
      StringStays(st, c);
      UnlinkString(c, Lmod(heap[c].hash, |hash|));
      FreeMemory(c);
    }

    /** In the mark phase a gray object leaves its gray list. */
    method LeaveGray(c: Ref)
      requires Agrees() && GrayValid() && LinksFor(heap, gcnext, gcprev) && c in heap && |st.strt| > 0 && heap[c].InRoot()
      requires gcstate == Propagate ==> GrayLists(st.heap, st.gray, st.grayagain)
      modifies this`gcnext, this`gcprev, this`gray, this`grayagain
      ensures LinksFor(Forget(heap, c), Forget(gcnext, c), Forget(gcprev, c))
      ensures Heads(grayagain, Remove(st, c).grayagain)
      ensures gcstate == Propagate ==>
                && Doubly(Forget(gcnext, c), Forget(gcprev, c), gray, Remove(st, c).gray)
                && Doubly(Forget(gcnext, c), Forget(gcprev, c), grayagain, Remove(st, c).grayagain)
    {
      hide Heads, First, Doubly, CutNext, CutPrev, CutGray, CutGrayagain, GrayLists, LinksFor, Forget, Without;
      if gcstate == Propagate && heap[c].color == Gray && heap[c].Traversable() {
        GrayGone(heap, gcnext, gcprev, gray, grayagain, st, c);
        UnlinkGray(c);
        HeadFirst(Forget(gcnext, c), Forget(gcprev, c), grayagain, Remove(st, c).grayagain);
      } else {
        ForgetLinks(heap, gcnext, gcprev, c);
        if gcstate == Propagate {
          GrayKept(gcnext, gcprev, st, gray, grayagain, c);
        }
      }
    }

    /** An object leaves `rootgc`, and the cursor leaves the object. */
    method LeaveRoot(c: Ref)
      requires Valid() && Linked(st) && Shaped(st) && c in heap && heap[c].InRoot()
      modifies this`next, this`prev, this`rootgc, this`sweepgc
      ensures |st.strt| > 0 && LinksFor(Forget(heap, c), Forget(next, c), Forget(prev, c))
      ensures Doubly(Forget(next, c), Forget(prev, c), rootgc, Remove(st, c).rootgc)
      ensures Buckets(Forget(next, c), Forget(prev, c), hash, Remove(st, c).strt)
      ensures Chain(Forget(next, c), openupval, Remove(st, c).openupval)
      ensures gcstate == Sweep ==>
                Remove(st, c).sweepgc <= |Remove(st, c).rootgc| && Denotes(sweepgc, Remove(st, c).rootgc, Remove(st, c).sweepgc)
      ensures gcstate != Sweep ==> sweepgc == old(sweepgc)
    {
      hide Heads, First, Linked, Shaped, Doubly, Buckets, Chain, CutNext, CutPrev, CutHead, Denotes, LinksFor, Forget, Remove;
      RootGone(heap, next, prev, st, rootgc, hash, openupval, c);
      CursorGone(next, prev, st, rootgc, sweepgc, c);
      UnlinkRoot(c);
      MoveCursor(c);
    }

    method FreeTraversable(c: Ref)
      requires Valid() && Linked(st) && Shaped(st) && c in heap && heap[c].InRoot()
      requires gcstate == Propagate ==> GrayLists(st.heap, st.gray, st.grayagain)
      modifies this
      ensures Valid() && st == Remove(old(st), c)
    {
      hide Heads, First, Linked, Shaped, Doubly, Buckets, Chain, GrayLists, Denotes, LinksFor, Forget, Remove;
      LeaveRoot(c);
      LeaveGray(c);
      FreeMemory(c);
    }

    /** luarc_subobjref: one reference less; at zero the object is released and
        its own references are dropped, before whatever is left to drop. */
    method SubRef(c: Ref, ghost rest: seq<Option<Ref>>)
      requires Valid() && Sound(st, [Some(c)] + rest) && GrayOk(st)
      modifies this
      ensures Valid() && Sound(st, rest) && GrayOk(st)
      ensures Release(st, rest) == old(Release(st, [Some(c)] + rest)) && |st.heap| <= old(|st.heap|)
      ensures Drained(old(heap), heap)
      decreases |st.heap|, 0
    {
      hide Sound, Linked, Shaped, Valid, GrayOk, Remove, Release, Drained;
      FirstLive(st, c, rest);
      SameHeap();
      DecrementDrained(heap, c);
      PutObject(c, heap[c].(ref := heap[c].ref - 1));
      if heap[c].ref <= 0 && heap[c].Releasable() {
        DropFrees(old(st), c, rest);
        var members := heap[c].slots;
        ghost var h := heap;
        FreeObject(c);
        FreedHeap(h, c);
        ghost var k := heap;
        DropAll(members, rest);
        DrainedTransitive(old(heap), k, heap);
      } else {
        DropKeeps(old(st), c, rest);
      }
    }

    /** What Remove leaves allocated. */
    lemma FreedHeap(h: map<Ref, GCObject>, c: Ref)
      requires Valid() && c in h && exists s: State :: s.heap == h && |s.strt| > 0 && st == Remove(s, c)
      ensures heap == h - {c}
    {
    }

    lemma SameHeap()
      requires Valid()
      ensures heap == st.heap
    {
    }

    /** A field of an allocated object changes: no list does. */
    method PutObject(c: Ref, o: GCObject)
      requires Valid() && c in heap
      modifies this`heap, this`st
      ensures Valid() && heap == old(heap)[c := o] && st == old(st).(heap := old(st.heap)[c := o])
    {
      hide Heads, First, Doubly, Buckets, Chain;
      heap := heap[c := o];
      st := st.(heap := st.heap[c := o]);
      assert heap.Keys == old(heap.Keys);
    }

    /** Drops the references of q in order. */
    method DropAll(q: seq<Option<Ref>>, ghost rest: seq<Option<Ref>>)
      requires Valid() && Sound(st, q + rest) && GrayOk(st)
      modifies this
      ensures Valid() && Sound(st, rest) && GrayOk(st)
      ensures Release(st, rest) == old(Release(st, q + rest)) && |st.heap| <= old(|st.heap|)
      ensures Drained(old(heap), heap)
      decreases |st.heap|, 1
    {
      hide Sound, Valid, GrayLists, Release, Drained;
      var i := 0;
      DrainedAtOnce(heap);
      assert q[0..] + rest == q + rest;
      while i < |q|
        invariant i <= |q|
        invariant Valid() && Sound(st, q[i..] + rest) && GrayOk(st)
        invariant Release(st, q[i..] + rest) == old(Release(st, q + rest)) && |st.heap| <= old(|st.heap|)
        invariant Drained(old(heap), heap)
      {
        ghost var h := heap;
        assert q[i..] + rest == [q[i]] + (q[i + 1..] + rest);
        if q[i].Some? {
          SubRef(q[i].value, q[i + 1..] + rest);
        } else {
          SkipNone(st, q[i + 1..] + rest);
          DrainedAtOnce(heap);
        }
        DrainedTransitive(old(heap), h, heap);
        i := i + 1;
      }
      assert q[i..] + rest == rest;
    }

    // ------------------------------------------------------------------ marking

    lemma GrayParts()
      requires Valid()
      ensures heap == st.heap && LinksFor(heap, gcnext, gcprev) && gcstate == st.gcstate
      ensures gcstate == Propagate ==>
                Doubly(gcnext, gcprev, gray, st.gray) && Doubly(gcnext, gcprev, grayagain, st.grayagain)
    {
      hide Doubly, Buckets, Chain, LinksFor, Denotes;
    }

    /** x enters the front of the gray list. */
    method PushLinks(x: Ref)
      requires Valid() && MarkReady(st) && x in heap && heap[x].color.White?
      modifies this`gcnext, this`gcprev, this`gray
      ensures Doubly(gcnext, gcprev, gray, [x] + st.gray) && Doubly(gcnext, gcprev, grayagain, st.grayagain)
      ensures LinksFor(heap, gcnext, gcprev)
    {
      hide *;
      GrayParts();
      ReadyPhase(st);
      PushLists(heap, gcnext, gcprev, gray, grayagain, st, x);
      gcnext, gcprev := gcnext[x := gray], gcprev[x := None];
      if gray.Some? {
        gcprev := gcprev[gray.value := Some(x)];
      }
      gray := Some(x);
    }

    /** A white object turns gray and enters the front of the gray list. */
    method PushGray(x: Ref)
      requires Valid() && MarkReady(st) && x in heap && heap[x].color.White? && heap[x].Traversable()
      modifies this`heap, this`st, this`gcnext, this`gcprev, this`gray
      ensures Valid() && st == Paint(old(st), x)
    {
      hide Heads, First, Buckets, MarkReady, Doubly, Chain, LinksFor;
      PushLinks(x);
      ghost var h := heap;
      heap := heap[x := heap[x].(color := Gray)];
      SameKeys(h, heap, next, prev);
      SameKeys(h, heap, gcnext, gcprev);
      st := Paint(st, x);
    }

    /** markobject and reallymarkobject. */
    method MarkObject(x: Ref)
      requires Valid() && MarkReady(st) && x in heap
      modifies this`heap, this`st, this`gcnext, this`gcprev, this`gray
      ensures Valid() && MarkReady(st) && Markable(old(st)) && x in old(st.heap) && st == Mark(old(st), x)
      decreases |Whites(st.heap)|, 0
    {
      hide Valid, NoDead, ClosedIn, ShapedIn, Shades, GrayLists, Paint;
      SameHeap();
      if heap[x].color.White? {
        PaintReady(st, x);
        var o := heap[x];
        var members := if o.level.Some? then [heap[MainThread()].slots[o.level.value]]
                       else if o.kind == TUserdata || o.kind == TUpval then o.slots
                       else [];
        PaintView(st, x);
        if o.Traversable() {
          PushGray(x);
        } else if o.kind == TString || o.level.Some? {
          PutObject(x, o.(color := Gray));
        } else {
          PutObject(x, o.(color := Black));
        }
        MarkValues(members);
      }
    }

    function MainThread(): Ref
      requires Valid()
      reads this
      ensures MainThread() == st.mainthread
    {
      mainthread
    }

    /** markvalue on each value of q. */
    method MarkValues(q: seq<Option<Ref>>)
      requires Valid() && MarkReady(st) && Within(st.heap, q)
      modifies this`heap, this`st, this`gcnext, this`gcprev, this`gray
      ensures Valid() && MarkReady(st) && Markable(old(st)) && Within(old(st.heap), q) && st == MarkAll(old(st), q)
      decreases |Whites(st.heap)|, 1
    {
      hide Valid, NoDead, ClosedIn, ShapedIn, Shades, GrayLists, Darker;
      SameHeap();
      var i := 0;
      assert q[0..] == q;
      while i < |q|
        invariant i <= |q| && Valid() && MarkReady(st) && Within(st.heap, q[i..]) && heap == st.heap
        invariant MarkAll(st, q[i..]) == MarkAll(old(st), q) && |Whites(st.heap)| <= old(|Whites(st.heap)|)
      {
        assert q[i..][0] == q[i] && q[i..][1..] == q[i + 1..];
        WithinTail(st, q[i..]);
        if q[i].Some? {
          MarkObject(q[i].value);
          SameHeap();
        }
        i := i + 1;
      }
      assert q[i..] == [];
    }

    // ------------------------------------------------------------- propagatemark

    /** The first gray object leaves the gray list. */
    method PopGray() returns (x: Ref)
      requires Agrees() && Allocated() && GrayValid() && MarkReady(st) && gray.Some?
      modifies this`gcprev, this`gray
      ensures st.gray != [] && st.gray[0] == x && x in heap && LinksFor(heap, gcnext, gcprev)
      ensures Doubly(gcnext, gcprev, gray, st.gray[1..]) && Doubly(gcnext, gcprev, grayagain, st.grayagain)
    {
      x := gray.value;
      assert gcstate == Propagate;
      hide Heads, First, MarkReady, Doubly, LinksFor;
      FirstGray(st, gcnext, gcprev, gray);
      PickHead(heap, gcnext, gcprev, gray, grayagain, st, x);
      if gcnext[x].Some? {
        gcprev := gcprev[gcnext[x].value := None];
      }
      gray := gcnext[x];
    }

    /** The writes that put x in front of `grayagain`; the old head is written to. */
    method LinkAgain(x: Ref)
      requires x in heap && LinksFor(heap, gcnext, gcprev) && (grayagain.Some? ==> HasGrayLinks(heap, grayagain.value))
      modifies this`gcnext, this`gcprev, this`grayagain
      ensures gcnext == old(gcnext)[x := old(grayagain)] && grayagain == Some(x) && LinksFor(heap, gcnext, gcprev)
      ensures gcprev == if old(grayagain).Some? then old(gcprev)[x := None][old(grayagain).value := Some(x)] else old(gcprev)[x := None]
    {
      gcnext, gcprev := gcnext[x := grayagain], gcprev[x := None];
      if grayagain.Some? {
        gcprev := gcprev[grayagain.value := Some(x)];
      }
      grayagain := Some(x);
      assert gcnext.Keys == old(gcnext.Keys) && gcprev.Keys == old(gcprev.Keys);
    }

    /** The color of x and the gray lists change together. */
    method Recolor(x: Ref, c: Color, ghost t: State)
      requires Agrees() && LinksFor(heap, next, prev) && ListsValid() && CursorValid() && x in heap
      requires LinksFor(heap, gcnext, gcprev) && Heads(grayagain, t.grayagain)
      requires gcstate == Propagate ==>
                 Doubly(gcnext, gcprev, gray, t.gray) && Doubly(gcnext, gcprev, grayagain, t.grayagain)
      requires t == st.(heap := Tint(st.heap, x, c), gray := t.gray, grayagain := t.grayagain)
      modifies this`heap, this`st
      ensures Valid() && st == t
    {
      hide Heads, First, Doubly, Buckets, Chain;
      heap := heap[x := heap[x].(color := c)];
      st := t;
      assert heap.Keys == old(heap.Keys);
    }

    /** Only the gray lists have changed. */
    method Relist(ghost t: State)
      requires Agrees() && LinksFor(heap, next, prev) && ListsValid() && CursorValid() && LinksFor(heap, gcnext, gcprev)
      requires Heads(grayagain, t.grayagain) && Doubly(gcnext, gcprev, gray, t.gray) && Doubly(gcnext, gcprev, grayagain, t.grayagain)
      requires t == st.(gray := t.gray, grayagain := t.grayagain)
      modifies this`st
      ensures Valid() && st == t
    {
      hide Heads, First, Doubly, Buckets, Chain, LinksFor, Denotes;
      st := t;
    }

    /** The head of the gray list is taken off to be traversed; a thread stays
        gray and waits in `grayagain`. */
    method PickGray() returns (x: Ref)
      requires Valid() && MarkReady(st) && gray.Some?
      modifies this`heap, this`st, this`gcnext, this`gcprev, this`gray, this`grayagain
      ensures Valid() && old(st.gray) != [] && old(st.gray)[0] == x && x in old(st.heap) && st == Pick(old(st))
    {
      hide Heads, First, MarkReady, Doubly, Buckets, Chain, LinksFor, Pick, Denotes;
      x := PopGray();
      PickApart(st);
      PickView(st);
      if heap[x].kind == TThread {
        PushAgain(heap, gcnext, gcprev, gray, grayagain, st.gray[1..], st.grayagain, x);
        HeadLinks(st, grayagain);
        LinkAgain(x);
        HeadFirst(gcnext, gcprev, grayagain, [x] + st.grayagain);
        Relist(Pick(st));
      } else {
        Recolor(x, Black, Pick(st));
      }
    }

    /** propagatemark: one gray object is traversed. */
    method Propagate1()
      requires Valid() && MarkReady(st) && gray.Some?
      modifies this`heap, this`st, this`gcnext, this`gcprev, this`gray, this`grayagain
      ensures Valid() && MarkReady(st)
      ensures Markable(old(st)) && old(st.gray) != [] && old(st.gray)[0] in old(st.heap)
      ensures !old(st.heap)[old(st.gray)[0]].color.White? && st == PropagateMark(old(st))
    {
      ReadyMarkable(st);
      hide Valid, MarkReady, Markable, Pick, PropagateMark;
      var x := PickGray();
      PickedReady(old(st));
      SameHeap();
      MarkValues(heap[x].slots);
    }

    // ------------------------------------------------------------ counted stores

    /** luaC_barrierback: a black table turns gray and enters `grayagain`.  The
        source writes to the old head without asking what is there; here the
        method stops before it writes to anything that is not an object with
        gray links, and says when that is. */
    method BarrierBack(o: Ref) returns (ok: bool)
      requires Valid() && GrayOk(st) && o in heap && heap[o].color == Black && heap[o].kind == TTable
      modifies this`heap, this`st, this`gcnext, this`gcprev, this`grayagain
      ensures ok == HeadThere(old(st))
      ensures ok ==> Valid() && st == Repaint(old(st), o, Gray).(grayagain := [o] + old(st.grayagain))
      ensures ok ==>
                && grayagain == Some(o) && gcnext == old(gcnext)[o := old(grayagain)]
                && gcprev == if old(grayagain).Some? then old(gcprev)[o := None][old(grayagain).value := Some(o)] else old(gcprev)[o := None]
    {
      hide Doubly, Buckets, Chain, LinksFor, Denotes, HasGrayLinks, GrayLists, HeadThere;
      SameHeap();
      HeadView(st, grayagain);
      if grayagain.Some? && !HasGrayLinks(heap, grayagain.value) {
        return false;
      }
      if gcstate == Propagate {
        BlackApart(st, o);
        PushAgain(heap, gcnext, gcprev, gray, grayagain, st.gray, st.grayagain, o);
      }
      LinkAgain(o);
      Recolor(o, Gray, Repaint(st, o, Gray).(grayagain := [o] + st.grayagain));
      ok := true;
    }

    /** luaC_barrier and luaC_barriert. */
    method WriteBarrier(o: Ref, v: Option<Ref>) returns (ok: bool)
      requires Valid() && o in heap && (v.Some? ==> v.value in heap)
      requires gcstate == Propagate ==> MarkReady(st)
      modifies this`heap, this`st, this`gcnext, this`gcprev, this`gray, this`grayagain
      ensures ok == BarrierSafe(old(st), o, v)
      ensures o in old(st.heap) && (v.Some? ==> v.value in old(st.heap)) && (old(st.gcstate) == Propagate ==> Markable(old(st)))
      ensures ok ==> Valid() && st == Barrier(old(st), o, v)
    {
      SameHeap();
      SamePhase();
      ReadyBarrier(st);
      hide Valid, MarkReady, Markable, GrayOk, HeadThere;
      ok := true;
      if v.Some? && heap[v.value].color.White? && heap[o].color == Black {
        if heap[o].kind == TTable {
          ok := BarrierBack(o);
        } else if gcstate == Propagate {
          MarkObject(v.value);
        } else {
          PutObject(o, heap[o].(color := White(currentwhite)));
        }
      }
    }

    lemma SamePhase()
      requires Valid()
      ensures gcstate == st.gcstate && currentwhite == st.currentwhite
    {
    }

    /** The slot takes its new value and that value is counted; the old value
        is left to be dropped. */
    method WriteSlot(o: Ref, i: nat, v: Option<Ref>) returns (dup: Option<Ref>)
      requires Valid() && o in st.heap && i < |st.heap[o].slots| && LiveOpt(st, v)
      modifies this`heap, this`st
      ensures Valid() && o in old(st.heap) && i < |old(st.heap)[o].slots|
      ensures dup == old(st.heap)[o].slots[i] && st == Write(old(st), o, i, v)
    {
      SameHeap();
      StoreSteps(st, o, i, v);
      hide Heads, First, Valid, Write, LiveOpt;
      dup := heap[o].slots[i];
      PutObject(o, heap[o].(slots := heap[o].slots[i := v]));
      if v.Some? {
        SameHeap();
        PutObject(v.value, heap[v.value].(ref := heap[v.value].ref + 1));
      }
    }

    /** setobj: the slot takes its new value, that value is counted, the old one
        is dropped, and the barrier follows.  All writes go to allocated objects
        exactly if the barrier, if it is a back barrier, finds the head of
        `grayagain` in place. */
    method SetObj(o: Ref, i: nat, v: Option<Ref>) returns (ok: bool)
      requires Valid() && Inv(st) && Reachable(st, o) && Live(st, o) && i < |st.heap[o].slots| && LiveOpt(st, v)
      modifies this
      ensures Inv(old(st)) && Reachable(old(st), o) && Live(old(st), o) && i < |old(st).heap[o].slots| && LiveOpt(old(st), v)
      ensures ok == StoreSafe(old(st), o, i, v)
      ensures ok ==> Valid() && Inv(st) && st == SetSlot(old(st), o, i, v)
      ensures ok ==> SlotSet(old(heap), heap, o, i, v)
    {
      SetReady(st, o, i, v);
      hide Inv, Sound, MarkReady, Markable, GrayOk, Write, Overwrite, Release, SetSlot, Reachable, Barrier, Valid, LiveOpt, BarrierSafe, StoreSafe, SlotSet, Drained;
      SameHeap();
      ghost var s := st;
      var dup := WriteSlot(o, i, v);
      DropAll([dup], []);
      SameHeap();
      SamePhase();
      ok := WriteBarrier(o, v);
      if ok {
        SetChanges(s, o, i, v);
      }
    }

    lemma SetChanges(s: State, o: Ref, i: nat, v: Option<Ref>)
      requires Inv(s) && Reachable(s, o) && Live(s, o) && i < |s.heap[o].slots| && LiveOpt(s, v)
      requires Valid() && st == SetSlot(s, o, i, v)
      ensures SlotSet(s.heap, heap, o, i, v)
    {
      hide Inv, Reachable, SetSlot, LiveOpt, Holders, Valid;
      SameHeap();
      forall x | x in s.heap
        ensures heap.Keys <= s.heap.Keys && (x in heap ==> LeftAs(s.heap[x], heap[x], if x == o then s.heap[x].slots[i := v] else s.heap[x].slots))
      {
        SetSlotExact(s, o, i, v, x);
      }
    }

    // ------------------------------------------------------------------ sweeping

    ghost predicate Sweepable()
      reads this
    {
      Valid() && (gcstate == Sweepstring || gcstate == Sweep)
    }

    /** The memory of c is returned; its list has been closed behind it. */
    method FreeSwept(c: Ref, ghost t: State)
      requires Agrees() && (gcstate == Sweepstring || gcstate == Sweep) && c in heap && LinksFor(heap, gcnext, gcprev)
      requires Heads(grayagain, st.grayagain)
      requires t == st.(heap := Forget(st.heap, c), rootgc := t.rootgc, strt := t.strt, openupval := t.openupval)
      requires LinksFor(Forget(heap, c), Forget(next, c), Forget(prev, c))
      requires Doubly(Forget(next, c), Forget(prev, c), rootgc, t.rootgc)
      requires Buckets(Forget(next, c), Forget(prev, c), hash, t.strt) && Chain(Forget(next, c), openupval, t.openupval)
      requires gcstate == Sweepstring ==> sweepgc == RootHead
      requires gcstate == Sweep ==> t.sweepgc <= |t.rootgc| && Denotes(sweepgc, t.rootgc, t.sweepgc)
      modifies this`heap, this`next, this`prev, this`gcnext, this`gcprev, this`st
      ensures Sweepable() && st == t
    {
      hide Heads, First, Doubly, Buckets, Chain, LinksFor, Denotes;
      ForgetLinks(heap, gcnext, gcprev, c);
      heap, next, prev := heap - {c}, next - {c}, prev - {c};
      gcnext, gcprev := gcnext - {c}, gcprev - {c};
      st := t;
    }

    /** The object behind pred is cut out of its list. */
    method EraseLinks(c: Ref, pred: Option<Ref>) returns (n: Option<Ref>)
      requires c in next
      modifies this`next, this`prev
      ensures n == old(next)[c] && next == EraseNext(old(next), pred, n) && prev == ErasePrev(old(prev), pred, n)
    {
      n := next[c];
      if n.Some? {
        prev := prev[n.value := pred];
      }
      if pred.Some? {
        next := next[pred.value := n];
      }
    }

    /** sweeplist, erasing an open upvalue behind pred. */
    method EraseOpen(c: Ref, pred: Option<Ref>, ghost k: nat)
      requires Sweepable() && OpenReady(st) && k < |st.openupval| && st.openupval[k] == c && pred == Before(st.openupval, k)
      modifies this`heap, this`next, this`prev, this`gcnext, this`gcprev, this`openupval, this`st
      ensures Sweepable()
      ensures st == old(st).(heap := Forget(old(st.heap), c), openupval := old(st.openupval)[..k] + old(st.openupval)[k + 1..])
    {
      hide Doubly, Buckets, Chain, LinksFor, Denotes, OpenReady, EraseNext, ErasePrev, Forget;
      OpenErased(st, next, prev, rootgc, hash, openupval, k);
      var n := EraseLinks(c, pred);
      if pred.None? {
        openupval := n;
      }
      FreeSwept(c, st.(heap := Forget(st.heap, c), openupval := st.openupval[..k] + st.openupval[k + 1..]));
    }

    /** One visit of an open upvalue; s is the state when the sweep began. */
    method VisitOpen(c: Ref, pred: Option<Ref>, ghost s: State, ghost j: nat, ghost k: nat) returns (pred': Option<Ref>, ghost k': nat)
      requires Sweepable() && OpenReady(s) && j < |s.openupval| && st == OpenPart(s, j)
      requires k == PartAt(s.heap, s.openupval, j, s.currentwhite) && k < |st.openupval| && st.openupval[k] == c
      requires pred == Before(st.openupval, k)
      modifies this`heap, this`next, this`prev, this`gcnext, this`gcprev, this`openupval, this`st
      ensures Sweepable() && st == OpenPart(s, j + 1) && k' == PartAt(s.heap, s.openupval, j + 1, s.currentwhite)
      ensures k' <= |st.openupval| && pred' == Before(st.openupval, k')
    {
      hide OpenReady, OpenPart, PartAt, Valid, Forget;
      OpenPartReady(s, j);
      OpenPartReady(s, j + 1);
      OpenPartStep(s, j);
      SameHeap();
      SamePhase();
      if Doomed(heap[c], currentwhite) {
        EraseOpen(c, pred, k);
        pred', k' := pred, k;
      } else {
        PutObject(c, heap[c].(color := White(currentwhite)));
        SamePhase();
        pred', k' := Some(c), k + 1;
      }
    }

    /** What the pointer to the link behind pred leads to. */
    method BehindOpen(pred: Option<Ref>, ghost k: nat) returns (curr: Option<Ref>)
      requires Valid() && k <= |st.openupval| && pred == Before(st.openupval, k)
      ensures curr == if k < |st.openupval| then Some(st.openupval[k]) else None
    {
      Behind(next, openupval, st.openupval, k);
      curr := if pred.Some? then next[pred.value] else openupval;
    }

    /** sweepwholelist on the open upvalues. */
    method SweepOpenList()
      requires Sweepable() && Linked(st) && Shaped(st)
      modifies this`heap, this`next, this`prev, this`gcnext, this`gcprev, this`openupval, this`st
      ensures Sweepable() && (forall x :: x in old(st.openupval) ==> x in old(st.heap)) && st == SweepOpen(old(st))
    {
      hide Linked, Shaped, OpenPart, PartAt, SweepOpen, Valid;
      ghost var s, j, k := st, 0, 0;
      LinkedOpen(st);
      OpenPartEnds(s);
      OpenPartReady(s, 0);
      var pred: Option<Ref> := None;
      var curr := BehindOpen(pred, 0);
      while curr.Some?
        invariant Sweepable() && OpenReady(s) && j <= |s.openupval| && st == OpenPart(s, j)
        invariant k == PartAt(s.heap, s.openupval, j, s.currentwhite) && k <= |st.openupval| && pred == Before(st.openupval, k)
        invariant |st.openupval| - k == |s.openupval| - j
        invariant curr == (if k < |st.openupval| then Some(st.openupval[k]) else None)
        decreases |s.openupval| - j
      {
        hide OpenReady;
        pred, k := VisitOpen(curr.value, pred, s, j, k);
        j := j + 1;
        OpenPartReady(s, j);
        curr := BehindOpen(pred, k);
      }
    }

    /** sweeplist, erasing a string behind pred. */
    method EraseString(c: Ref, b: nat, pred: Option<Ref>, ghost k: nat)
      requires Sweepable() && BucketReady(st, b) && k < |st.strt[b]| && st.strt[b][k] == c && pred == Before(st.strt[b], k)
      modifies this`heap, this`next, this`prev, this`gcnext, this`gcprev, this`hash, this`st
      ensures Sweepable() && b < |old(st.strt)|
      ensures st == old(st).(heap := Forget(old(st.heap), c),
                             strt := old(st.strt)[b := old(st.strt)[b][..k] + old(st.strt)[b][k + 1..]])
    {
      hide Doubly, Buckets, Chain, LinksFor, Denotes, EraseNext, ErasePrev, Forget;
      StringErased(st, next, prev, rootgc, hash, openupval, b, k);
      ghost var t := st.(heap := Forget(st.heap, c), strt := st.strt[b := st.strt[b][..k] + st.strt[b][k + 1..]]);
      hide BucketReady;
      var n := EraseLinks(c, pred);
      if pred.None? {
        hash := hash[b := n];
      }
      FreeSwept(c, t);
    }

    method VisitString(c: Ref, b: nat, pred: Option<Ref>, ghost s: State, ghost j: nat, ghost k: nat) returns (pred': Option<Ref>, ghost k': nat)
      requires Sweepable() && BucketReady(s, b) && j < |s.strt[b]| && st == BucketPart(s, b, j)
      requires k == PartAt(s.heap, s.strt[b], j, s.currentwhite) && k < |st.strt[b]| && st.strt[b][k] == c
      requires pred == Before(st.strt[b], k)
      modifies this`heap, this`next, this`prev, this`gcnext, this`gcprev, this`hash, this`st
      ensures Sweepable() && st == BucketPart(s, b, j + 1) && k' == PartAt(s.heap, s.strt[b], j + 1, s.currentwhite)
      ensures k' <= |st.strt[b]| && pred' == Before(st.strt[b], k')
    {
      hide BucketReady, BucketPart, PartAt, Valid, Forget;
      BucketPartReady(s, b, j);
      BucketPartReady(s, b, j + 1);
      BucketPartStep(s, b, j);
      SameHeap();
      SamePhase();
      if Doomed(heap[c], currentwhite) {
        EraseString(c, b, pred, k);
        pred', k' := pred, k;
      } else {
        PutObject(c, heap[c].(color := White(currentwhite)));
        SamePhase();
        pred', k' := Some(c), k + 1;
      }
    }

    method BehindString(b: nat, pred: Option<Ref>, ghost k: nat) returns (curr: Option<Ref>)
      requires Valid() && b < |st.strt| && k <= |st.strt[b]| && pred == Before(st.strt[b], k)
      ensures curr == if k < |st.strt[b]| then Some(st.strt[b][k]) else None
    {
      assert Doubly(next, prev, hash[b], st.strt[b]);
      Behind(next, hash[b], st.strt[b], k);
      curr := if pred.Some? then next[pred.value] else hash[b];
    }

    /** sweepwholelist on bucket b. */
    method SweepBucketList(b: nat)
      requires Sweepable() && BucketReady(st, b)
      modifies this`heap, this`next, this`prev, this`gcnext, this`gcprev, this`hash, this`st
      ensures Sweepable() && BucketReady(old(st), b) && st == BucketPart(old(st), b, |old(st).strt[b]|)
    {
      hide BucketPart, PartAt, Valid;
      ghost var s, j, k := st, 0, 0;
      BucketPartEnds(s, b);
      BucketPartReady(s, b, 0);
      var pred: Option<Ref> := None;
      var curr := BehindString(b, pred, 0);
      while curr.Some?
        invariant Sweepable() && BucketReady(s, b) && j <= |s.strt[b]| && st == BucketPart(s, b, j) && b < |st.strt|
        invariant k == PartAt(s.heap, s.strt[b], j, s.currentwhite) && k <= |st.strt[b]| && pred == Before(st.strt[b], k)
        invariant |st.strt[b]| - k == |s.strt[b]| - j
        invariant curr == (if k < |st.strt[b]| then Some(st.strt[b][k]) else None)
        decreases |s.strt[b]| - j
      {
        pred, k := VisitString(curr.value, b, pred, s, j, k);
        j := j + 1;
        BucketPartReady(s, b, j);
        curr := BehindString(b, pred, k);
      }
    }

    /** The phase and its counters change; no list does. */
    method EnterPhase(p: Phase, n: nat)
      requires Valid() && p != Propagate && (p == Sweepstring || p == Sweep ==> gcstate == Sweepstring && st.sweepgc == 0)
      modifies this`gcstate, this`sweepstrgc, this`st
      ensures Valid() && st == old(st).(gcstate := p, sweepstrgc := n)
    {
      hide Heads, First, Doubly, Buckets, Chain, LinksFor;
      gcstate, sweepstrgc := p, n;
      st := st.(gcstate := p, sweepstrgc := n);
    }

    lemma TableSize()
      requires Valid()
      ensures |hash| == |st.strt| && sweepstrgc == st.sweepstrgc
    {
    }

    /** The sweepstring step. */
    method SweepStringStep()
      requires Valid() && Inv(st) && gcstate == Sweepstring
      modifies this`heap, this`next, this`prev, this`gcnext, this`gcprev, this`hash, this`gcstate, this`sweepstrgc, this`st
      ensures Valid() && Inv(old(st)) && old(st.gcstate) == Sweepstring && st == SweepString(old(st))
    {
      hide Valid, BucketReady, BucketPart, Inv, SweepString;
      SamePhase();
      StringStepReady(st);
      TableSize();
      var b := sweepstrgc;
      SweepBucketList(b);
      SamePhase();
      TableSize();
      EnterPhase(if b + 1 >= |hash| then Sweep else Sweepstring, b + 1);
    }

    // the root list

    /** sweeplist, erasing the object at the cursor. */
    method EraseRoot(c: Ref)
      requires Sweepable() && gcstate == Sweep && RootReady(st) && st.rootgc[st.sweepgc] == c
      modifies this`heap, this`next, this`prev, this`gcnext, this`gcprev, this`rootgc, this`st
      ensures Sweepable() && RootReady(old(st))
      ensures st == old(st).(heap := Forget(old(st.heap), c),
                             rootgc := old(st.rootgc)[..old(st.sweepgc)] + old(st.rootgc)[old(st.sweepgc) + 1..])
    {
      hide Doubly, Buckets, Chain, LinksFor, EraseNext, ErasePrev, Forget;
      RootErased(st, next, prev, rootgc, hash, openupval);
      CursorStays(sweepgc, st.rootgc, st.sweepgc);
      CursorBehind(sweepgc, st.rootgc, st.sweepgc);
      ghost var t := st.(heap := Forget(st.heap, c), rootgc := st.rootgc[..st.sweepgc] + st.rootgc[st.sweepgc + 1..]);
      hide RootReady, Denotes;
      var n := EraseLinks(c, if sweepgc == RootHead then None else Some(sweepgc.o));
      if sweepgc == RootHead {
        rootgc := n;
      }
      FreeSwept(c, t);
    }

    /** The cursor moves past the object that it stands before. */
    method PassCursor(c: Ref)
      requires Sweepable() && gcstate == Sweep && st.sweepgc < |st.rootgc| && st.rootgc[st.sweepgc] == c
      modifies this`sweepgc, this`st
      ensures Sweepable() && st == old(st).(sweepgc := old(st.sweepgc) + 1)
    {
      hide Heads, First, Doubly, Buckets, Chain, LinksFor;
      sweepgc := NextOf(c);
      st := st.(sweepgc := st.sweepgc + 1);
    }

    /** The object at the cursor turns white and the cursor moves past it. */
    method PassRoot(c: Ref)
      requires Sweepable() && gcstate == Sweep && st.sweepgc < |st.rootgc| && st.rootgc[st.sweepgc] == c && c in heap
      modifies this`heap, this`sweepgc, this`st
      ensures Sweepable() && c in old(st.heap)
      ensures st == old(st).(heap := old(st.heap)[c := old(st.heap)[c].(color := White(old(st.currentwhite)))], sweepgc := old(st.sweepgc) + 1)
    {
      SamePhase();
      SameHeap();
      hide Valid;
      PutObject(c, heap[c].(color := White(currentwhite)));
      PassCursor(c);
    }

    /** What the cursor leads to. */
    method AtCursor() returns (curr: Option<Ref>)
      requires Valid() && gcstate == Sweep
      ensures st.sweepgc <= |st.rootgc|
      ensures curr == if st.sweepgc < |st.rootgc| then Some(st.rootgc[st.sweepgc]) else None
    {
      Behind(next, rootgc, st.rootgc, st.sweepgc);
      CursorBehind(sweepgc, st.rootgc, st.sweepgc);
      match sweepgc {
        case RootHead => curr := rootgc;
        case NextOf(o) => curr := next[o];
      }
    }

    method VisitRoot(c: Ref)
      requires Sweepable() && gcstate == Sweep && RootReady(st) && st.rootgc[st.sweepgc] == c && c in st.heap
      modifies this`heap, this`next, this`prev, this`gcnext, this`gcprev, this`rootgc, this`sweepgc, this`st
      ensures Sweepable() && RootReady(old(st)) && c in old(st.heap) && st == SweepAt(old(st))
    {
      hide Valid, SweepAt;
      SameHeap();
      SamePhase();
      VisitView(st);
      hide RootReady;
      if Doomed(heap[c], currentwhite) {
        EraseRoot(c);
      } else {
        PassRoot(c);
      }
    }

    /** One visit of the sweep: a thread's open upvalues go first. */
    method SweepVisit(c: Ref)
      requires Sweepable() && gcstate == Sweep && Sweeping(st) && st.sweepgc < |st.rootgc| && st.rootgc[st.sweepgc] == c
      modifies this`heap, this`next, this`prev, this`gcnext, this`gcprev, this`rootgc, this`openupval, this`sweepgc, this`st
      ensures Sweepable() && Sweeping(old(st)) && Linked(old(st)) && old(st.sweepgc) < |old(st.rootgc)| && st == SweepOne(old(st))
    {
      VisitReady(st);
      hide Sweeping, Linked, Shaped, RootReady, SweepOpen, SweepAt, Valid;
      if c == MainThread() {
        OpenThenRoot(st);
        SweepOpenList();
      }
      SamePhase();
      VisitRoot(c);
    }

    /** sweeplist on the root list, with a bound on the number of visits. */
    method SweepSome(count: nat)
      requires Sweepable() && gcstate == Sweep && Sweeping(st)
      modifies this`heap, this`next, this`prev, this`gcnext, this`gcprev, this`rootgc, this`openupval, this`sweepgc, this`st
      ensures Sweepable() && Sweeping(old(st)) && st == SweepList(old(st), count)
    {
      hide Sweeping, SweepOne, Linked, Valid;
      var n: nat := count;
      var curr := AtCursor();
      SamePhase();
      while curr.Some? && n > 0
        invariant Sweepable() && gcstate == Sweep && Sweeping(st) && n <= count
        invariant SweepList(st, n) == SweepList(old(st), count)
        invariant st.sweepgc <= |st.rootgc| && curr == (if st.sweepgc < |st.rootgc| then Some(st.rootgc[st.sweepgc]) else None)
        decreases n
      {
        SweepOneKeeps(st);
        SweepListStep(st, n);
        n := n - 1;
        SweepVisit(curr.value);
        curr := AtCursor();
      }
      SweepListEnd(st, n);
    }

    /** The sweep step. */
    method SweepRootStep()
      requires Valid() && Inv(st) && gcstate == Sweep
      modifies this`heap, this`next, this`prev, this`gcnext, this`gcprev, this`rootgc, this`openupval, this`sweepgc, this`gcstate, this`sweepstrgc, this`st
      ensures Valid() && Inv(old(st)) && old(st.gcstate) == Sweep && st == SweepStep(old(st))
    {
      SamePhase();
      SweepStepReady(st);
      hide Sweeping, SweepList, Inv, Valid;
      SweepSome(SWEEP_MAX);
      SamePhase();
      TableSize();
      var curr := AtCursor();
      if curr.None? {
        EnterPhase(Finalize, sweepstrgc);
      }
    }

    // ---------------------------------------------------------------- new objects

    /** luarc_addref on each value of q. */
    method AddRefAll(q: seq<Option<Ref>>)
      requires Valid() && Within(st.heap, q)
      modifies this`heap, this`st
      ensures Valid() && st == old(st).(heap := AddRefs(old(st.heap), q))
    {
      hide Valid, AddRefs;
      ghost var s := st;
      AddRefsNone(s.heap);
      for i := 0 to |q|
        invariant Valid() && st == s.(heap := AddRefs(s.heap, q[..i]))
      {
        assert q[..i + 1] == q[..i] + [q[i]];
        AddRefsMore(s.heap, q[..i], q[i]);
        SameHeap();
        if q[i].Some? {
          PutObject(q[i].value, heap[q[i].value].(ref := heap[q[i].value].ref + 1));
        }
      }
      assert q[..|q|] == q;
    }

    /** id is hooked in behind pred, or at the head of `rootgc`. */
    method HookRoot(id: Ref, pred: Option<Ref>)
      requires pred.Some? ==> pred.value in next
      modifies this`next, this`prev, this`rootgc
      ensures var succ := if pred.Some? then old(next)[pred.value] else old(rootgc);
              next == HookNext(old(next), old(rootgc), pred, id) && prev == HookPrev(old(prev), succ, pred, id)
      ensures rootgc == if pred.Some? then old(rootgc) else Some(id)
    {
      var succ := if pred.Some? then next[pred.value] else rootgc;
      prev := prev[id := pred];
      if succ.Some? {
        prev := prev[succ.value := Some(id)];
      }
      next := next[id := succ];
      if pred.Some? {
        next := next[pred.value := Some(id)];
      } else {
        rootgc := Some(id);
      }
    }

    /** A new object has gray-list links of its own and is on no gray list. */
    lemma NewGray(id: Ref, o: GCObject)
      requires GrayValid() && id !in heap && LinksFor(heap, gcnext, gcprev)
      ensures LinksFor(heap[id := o], gcnext[id := None], gcprev[id := None])
      ensures gcstate == Propagate ==>
                && Doubly(gcnext[id := None], gcprev[id := None], gray, st.gray)
                && Doubly(gcnext[id := None], gcprev[id := None], grayagain, st.grayagain)
    {
      hide Heads, First, Doubly, LinksFor;
      NewLinksFor(heap, gcnext, gcprev, id, o);
      if gcstate == Propagate {
        GrayHooked(heap, gcnext, gcprev, id, o, gray, st.gray);
        GrayHooked(heap, gcnext, gcprev, id, o, grayagain, st.grayagain);
      }
    }

    /** The new object comes into being, white of the current type. */
    method Allocate(id: Ref, o: GCObject, ghost t: State)
      requires Agrees() && CursorValid() && GrayValid() && id !in heap && LinksFor(heap, gcnext, gcprev) && LinksFor(heap[id := o], next, prev)
      requires Doubly(next, prev, rootgc, t.rootgc) && Buckets(next, prev, hash, t.strt) && Chain(next, openupval, t.openupval)
      requires gcstate == Sweep ==> t.sweepgc <= |t.rootgc| && Denotes(sweepgc, t.rootgc, t.sweepgc)
      requires t == st.(heap := st.heap[id := o], rootgc := t.rootgc, sweepgc := t.sweepgc)
      modifies this`heap, this`gcnext, this`gcprev, this`st
      ensures Valid() && st == t
    {
      hide Heads, First, Doubly, Buckets, Chain, LinksFor, Denotes;
      NewGray(id, o);
      heap := heap[id := o];
      gcnext, gcprev := gcnext[id := None], gcprev[id := None];
      st := t;
    }

    /** A new object with the given members enters `rootgc`. */
    method LinkNew(id: Ref, kind: Kind, slots: seq<Option<Ref>>, ghost s: State)
      requires Valid() && Linked(st) && Shaped(st) && id !in st.heap
      requires s.rootgc == st.rootgc && s.mainthread == st.mainthread && s.sweepgc == st.sweepgc && s.currentwhite == st.currentwhite
      requires s.mainthread in s.rootgc
      modifies this`heap, this`next, this`prev, this`gcnext, this`gcprev, this`rootgc, this`st
      ensures Valid() && Place(s, kind) <= |s.rootgc|
      ensures st == old(st).(heap := old(st.heap)[id := Fresh(s.currentwhite, kind, slots, None, 0)],
                             rootgc := Insert(s.rootgc, Place(s, kind), id),
                             sweepgc := if Place(s, kind) < s.sweepgc then s.sweepgc + 1 else s.sweepgc)
    {
      hide Heads, First, Doubly, Buckets, Chain, LinksFor, Denotes, Linked, Shaped, Insert, HookNext, HookPrev;
      PlaceAt(st, kind);
      ghost var j := Place(st, kind);
      var o := Fresh(currentwhite, kind, slots, None, 0);
      RootHooked(st, next, prev, rootgc, hash, openupval, j, id, o);
      if gcstate == Sweep {
        CursorHooked(sweepgc, st.rootgc, st.sweepgc, j, id);
      }
      ghost var t := st.(heap := st.heap[id := o], rootgc := Insert(st.rootgc, j, id),
                         sweepgc := if j < st.sweepgc then st.sweepgc + 1 else st.sweepgc);
      HookRoot(id, if kind == TUserdata then Some(mainthread) else None);
      Allocate(id, o, t);
    }

    /** luaC_link, and luaS_newudata for userdata. */
    method NewObject(id: Ref, kind: Kind, slots: seq<Option<Ref>>)
      requires Valid() && Inv(st) && id !in st.heap && kind != TString && AllLive(st.heap, st.currentwhite, slots)
      modifies this`heap, this`next, this`prev, this`gcnext, this`gcprev, this`rootgc, this`st
      ensures Valid() && Inv(st) && Live(st, id)
      ensures old(st).mainthread in old(st).rootgc && st == Link(old(st), id, kind, slots)
    {
      hide Valid, Insert, AddRefs, Place, Within, Linked, Shaped, Colored, Link, AllLive, Live;
      LinkInv(st, id, kind, slots);
      LinkView(st, id, kind, slots);
      LiveWithin(st, slots);
      RefsAdded(st, slots);
      ghost var s := st;
      hide Inv;
      AddRefAll(slots);
      LinkNew(id, kind, slots, s);
    }

    // --------------------------------------------------------------- whole steps

    /** The start of a cycle: empty gray lists. */
    method EmptyGray()
      requires Valid()
      modifies this`gray, this`grayagain, this`gcstate, this`st
      ensures Valid() && st == old(st).(gray := [], grayagain := [], gcstate := Propagate)
    {
      hide Buckets, LinksFor, Denotes, Doubly, Chain;
      NoList(gcnext, gcprev);
      gray, grayagain, gcstate := None, None, Propagate;
      st := st.(gray := [], grayagain := [], gcstate := Propagate);
    }

    /** markroot.  (The phase is set at the start here, at the end there; marking
        does not read it.) */
    method MarkRoots()
      requires Valid() && Inv(st) && gcstate == Pause
      modifies this`heap, this`st, this`gcnext, this`gcprev, this`gray, this`grayagain, this`gcstate
      ensures Valid() && Inv(old(st)) && old(st.gcstate) == Pause && st == MarkRoot(old(st))
    {
      hide Valid, Inv, MarkReady, Within, Markable, MarkRoot;
      SamePhase();
      RootsReady(st);
      EmptyGray();
      SameHeap();
      SameRoots();
      var slots := heap[mainthread].slots;
      MarkValues([Some(mainthread)] + (if slots == [] then [] else [slots[0]]) + ([registry] + mt));
    }

    lemma SameRoots()
      requires Valid()
      ensures mainthread == st.mainthread && [registry] + mt == Roots(st) && mt == st.mt
    {
    }

    lemma SameGray()
      requires Valid() && gcstate == Propagate
      ensures gray == First(st.gray)
    {
    }

    /** propagateall. */
    method PropagateGray()
      requires Valid() && MarkInv(st)
      modifies this`heap, this`st, this`gcnext, this`gcprev, this`gray, this`grayagain
      ensures Valid() && MarkInv(old(st)) && st == PropagateAll(old(st))
    {
      hide Valid, MarkInv, MarkReady, Markable, PropagateMark;
      InvPhase(st);
      SamePhase();
      SameGray();
      while gray.Some?
        invariant Valid() && MarkInv(st) && gcstate == Propagate && gray == First(st.gray)
        invariant PropagateAll(st) == PropagateAll(old(st))
        decreases |Whites(st.heap)| + |st.gray|
      {
        ghost var s := st;
        PropagateAllStep(s);
        InvReady(s);
        Propagate1();
        InvPhase(st);
        SamePhase();
        SameGray();
      }
      PropagateAllEnd(st);
    }

    lemma OpenLinks(j: nat)
      requires Valid()
      ensures openupval == if st.openupval == [] then None else Some(st.openupval[0])
      ensures j < |st.openupval| ==>
                && st.openupval[j] in next
                && next[st.openupval[j]] == if j + 1 < |st.openupval| then Some(st.openupval[j + 1]) else None
    {
    }

    /** The value of one open upvalue, if the upvalue has been marked. */
    method RemarkUpvalue(u: Ref, ghost q: seq<Ref>)
      requires Valid() && MarkInv(st) && q != [] && q[0] == u && OpenIn(st.heap, q)
      modifies this`heap, this`st, this`gcnext, this`gcprev, this`gray
      ensures Valid() && MarkInv(st) && OpenIn(st.heap, q[1..]) && st.openupval == old(st.openupval)
      ensures MarkInv(old(st)) && OpenIn(old(st.heap), q) && RemarkUpvals(st, q[1..]) == RemarkUpvals(old(st), q)
    {
      hide RemarkUpvals, MarkAll, Mark, Valid, MarkInv, MarkReady, Markable, Within, OpenIn;
      SameHeap();
      SameRoots();
      InvReady(st);
      FirstIn(st, q);
      if heap[u].color == Gray {
        RemarkGray(st, q);
        MarkValues([heap[mainthread].slots[heap[u].level.value]]);
      } else {
        RemarkOther(st, q);
      }
    }

    /** remarkupvals, along the open upvalues of the main thread. */
    method RemarkUpvalues()
      requires Valid() && MarkInv(st)
      modifies this`heap, this`st, this`gcnext, this`gcprev, this`gray
      ensures Valid() && MarkInv(old(st)) && OpenIn(old(st.heap), old(st.openupval))
      ensures st == RemarkUpvals(old(st), old(st.openupval))
    {
      hide RemarkUpvals, Heads, First, After, Valid, MarkInv, MarkReady, Markable, Within, OpenIn;
      ghost var q, j := st.openupval, 0;
      OpenLevels(st);
      OpenLinks(0);
      var curr := openupval;
      assert q[0..] == q;
      while curr.Some?
        invariant Valid() && MarkInv(st) && st.openupval == q && j <= |q| && OpenIn(st.heap, q[j..])
        invariant RemarkUpvals(st, q[j..]) == RemarkUpvals(old(st), q)
        invariant curr == if j < |q| then Some(q[j]) else None
        decreases |q| - j
      {
        assert q[j..][0] == curr.value && q[j..][1..] == q[j + 1..];
        RemarkUpvalue(curr.value, q[j..]);
        OpenLinks(j);
        j := j + 1;
        curr := next[curr.value];
      }
      assert q[j..] == [];
      RemarkEnd(st);
    }

    /** g->gray = g->grayagain; g->grayagain = NULL. */
    method TakeGrayagain()
      requires Valid() && gcstate == Propagate
      modifies this`gray, this`grayagain, this`st
      ensures Valid() && st == old(st).(gray := old(st.grayagain), grayagain := [])
    {
      hide Buckets, LinksFor, Denotes, Doubly, Chain;
      NoList(gcnext, gcprev);
      gray := grayagain;
      grayagain := None;
      st := st.(gray := st.grayagain, grayagain := []);
    }

    /** The marking part of the atomic step. */
    method MarkAgain(running: Ref)
      requires Valid() && MarkInv(st) && running in st.heap
      modifies this`heap, this`st, this`gcnext, this`gcprev, this`gray, this`grayagain
      ensures Valid() && MarkInv(old(st)) && running in old(st.heap) && st == MarkAtomic(old(st), running)
    {
      hide Valid, MarkInv, MarkReady, Markable, Within, OpenIn, Shaded, ThreadsDone, Dark;
      MarkSteps(st, running);
      RemarkUpvalues();
      PropagateGray();
      InvReady(st);
      SameRoots();
      MarkValues([Some(running)] + mt);
      PropagateGray();
      InvPhase(st);
      SamePhase();
      TakeGrayagain();
      PropagateGray();
    }

    /** The flip of the white: what is white now is dead. */
    method FlipWhite()
      requires Valid()
      modifies this`heap, this`currentwhite, this`sweepstrgc, this`sweepgc, this`gcstate, this`st
      ensures Valid() && st == Flip(old(st))
    {
      hide Heads, First, Doubly, Buckets, Chain, LinksFor, Separate, Denotes;
      SeparateKeys(heap);
      SameKeys(heap, Separate(heap), next, prev);
      SameKeys(heap, Separate(heap), gcnext, gcprev);
      heap := Separate(heap);
      currentwhite := !currentwhite;
      sweepstrgc := 0;
      sweepgc := RootHead;
      gcstate := Sweepstring;
      st := Flip(st);
    }

    /** atomic. */
    method AtomicStep(running: Ref)
      requires Valid() && MarkInv(st) && running in st.heap
      modifies this
      ensures Valid() && MarkInv(old(st)) && running in old(st.heap) && st == Atomic(old(st), running)
    {
      hide Valid, MarkInv, MarkAtomic, Flip;
      MarkAgain(running);
      FlipWhite();
    }

    /** singlestep: the linked heap does what the collector does on lists, and
        keeps the invariant of the whole machine. */
    method Singlestep(running: Ref)
      requires Valid() && Inv(st) && running in st.heap
      modifies this
      ensures Valid() && Inv(st) && Inv(old(st)) && running in old(st.heap) && st == SingleStep(old(st), running)
    {
      hide Valid, Inv, MarkInv, MarkReady, Markable, Sound, MarkRoot, Atomic, SweepString, SweepStep, PropagateMark;
      SingleStepInv(st, running);
      SamePhase();
      match gcstate {
        case Pause =>
          MarkRoots();
        case Propagate =>
          MarkInvIsInv(st);
          InvReady(st);
          SameGray();
          if gray.Some? {
            PropagateMarkInv(st);
            Propagate1();
          } else {
            AtomicStep(running);
          }
        case Sweepstring =>
          SweepStringStep();
        case Sweep =>
          SweepRootStep();
        case Finalize =>
          FinishCycle();
      }
    }

    method FinishCycle()
      requires Valid()
      modifies this`gcstate, this`st
      ensures Valid() && st == old(st).(gcstate := Pause)
    {
      hide Heads, First, Doubly, Buckets, Chain, LinksFor;
      gcstate := Pause;
      st := st.(gcstate := Pause);
    }

    /** A mark phase under way is abandoned: everything is swept white. */
    method ResetLists()
      requires Valid() && (gcstate == Pause || gcstate == Propagate)
      modifies this`sweepstrgc, this`sweepgc, this`gray, this`grayagain, this`gcstate, this`st
      ensures Valid() && st == Reset(old(st))
    {
      hide Heads, First, Doubly, Buckets, Chain, LinksFor, Denotes;
      NoHeads();
      sweepstrgc := 0;
      sweepgc := RootHead;
      gray := None;
      grayagain := None;
      gcstate := Sweepstring;
      st := Reset(st);
    }

    /** Steps until the pause. */
    method FinishSteps(running: Ref)
      requires Valid() && Inv(st) && Reachable(st, running)
      modifies this
      ensures Valid() && Inv(old(st)) && Reachable(old(st), running) && st == Finish(old(st), running)
    {
      hide Valid, Inv, Reachable, SingleStep, Left;
      SamePhase();
      while gcstate != Pause
        invariant Valid() && Inv(st) && Reachable(st, running) && gcstate == st.gcstate
        invariant Finish(st, running) == Finish(old(st), running)
        decreases Rank(st.gcstate), Left(st)
      {
        StepReady(st, running);
        StepProgress(st, running);
        FinishStep(st, running);
        Singlestep(running);
        SamePhase();
      }
      FinishEnd(st, running);
    }

    /** luaC_fullgc. */
    method FullCollect(running: Ref)
      requires Valid() && Inv(st) && Reachable(st, running)
      modifies this
      ensures Valid() && Inv(st) && Inv(old(st)) && Reachable(old(st), running) && st == FullGc(old(st), running)
    {
      hide Valid, Inv, Reachable, SingleStep, Finish;
      SamePhase();
      AbandonView(st, running);
      if gcstate == Pause || gcstate == Propagate {
        ResetLists();
      }
      FinishSteps(running);
      StepReady(st, running);
      Singlestep(running);
      FinishSteps(running);
    }
  }
}
