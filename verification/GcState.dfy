/** The heap, the lists and the phases of the collector (src/lgc.c, src/lgc.h,
    src/lobject.h), as one value on which every step is a function.

    Objects carry numbers (their addresses); a number is free for reuse as soon
    as its object is freed.  `rootgc`, the string buckets, the open upvalues and
    the two gray lists are sequences here; GcHeap.dfy keeps them as linked
    structures and is proved to follow these functions. */
module GcState {
  import opened Bits
  import opened Seqs

  type Ref = nat

  datatype Kind = TString | TUserdata | TProto | TFunction | TUpval | TTable | TThread

  /** White(b) is white of type b; gray is "neither white nor black". */
  datatype Color = White(bit: bool) | Gray | Black

  /** `slots` holds, in traversal order, every counted reference of the object;
      None is a slot whose value is not collectable.  `level` is the stack
      level of an open upvalue, None for every other object.  `hash` matters
      for strings only. */
  datatype GCObject = GCObject(
    kind: Kind,
    color: Color,
    fixed: bool,
    finalized: bool,
    ref: int,
    slots: seq<Option<Ref>>,
    level: Option<nat>,
    hash: nat)
  {
    /** Lives in the list `rootgc`: neither a string nor an open upvalue. */
    predicate InRoot() {
      kind != TString && level.None?
    }

    /** Has gray-list links: becomes gray before it becomes black. */
    predicate Traversable() {
      kind == TTable || kind == TFunction || kind == TProto || kind == TThread
    }

    /** What a count that reaches zero releases: nothing fixed, no finalized
        userdata, no open upvalue. */
    predicate Releasable() {
      !fixed && !(kind == TUserdata && finalized) && level.None?
    }
  }

  datatype Phase = Pause | Propagate | Sweepstring | Sweep | Finalize

  datatype State = State(
    heap: map<Ref, GCObject>,
    rootgc: seq<Ref>,
    strt: seq<seq<Ref>>,
    openupval: seq<Ref>,
    gray: seq<Ref>,
    grayagain: seq<Ref>,
    currentwhite: bool,
    gcstate: Phase,
    sweepstrgc: nat,
    sweepgc: nat,
    mainthread: Ref,
    registry: Option<Ref>,
    mt: seq<Option<Ref>>)

  /** isdead: the white of the previous cycle. */
  predicate IsDead(o: GCObject, currentwhite: bool) {
    o.color == White(!currentwhite)
  }

  predicate LiveIn(h: map<Ref, GCObject>, currentwhite: bool, x: Ref) {
    x in h && !IsDead(h[x], currentwhite)
  }

  predicate Live(s: State, x: Ref) {
    LiveIn(s.heap, s.currentwhite, x)
  }

  predicate LiveOpt(s: State, v: Option<Ref>) {
    v.Some? ==> Live(s, v.value)
  }

  function Tint(h: map<Ref, GCObject>, x: Ref, c: Color): map<Ref, GCObject>
    requires x in h
  {
    h[x := h[x].(color := c)]
  }

  function Repaint(s: State, x: Ref, c: Color): State
    requires x in s.heap
  {
    s.(heap := Tint(s.heap, x, c))
  }

  /** What is known about c is gone. */
  function Forget<V>(m: map<Ref, V>, c: Ref): map<Ref, V> {
    m - {c}
  }

  // ------------------------------------------------------------------ counts

  /** How often x occurs in q. */
  function Count(q: seq<Option<Ref>>, x: Ref): nat {
    if q == [] then 0
    else (if q[0] == Some(x) then 1 else 0) + Count(q[1..], x)
  }

  /** The counted slots of a live object that refer to x. */
  function Held(o: GCObject, currentwhite: bool, x: Ref): nat {
    if IsDead(o, currentwhite) then 0 else Count(o.slots, x)
  }

  function HeldIn(h: map<Ref, GCObject>, currentwhite: bool, q: seq<Ref>, x: Ref): nat
    requires forall y :: y in q ==> y in h
  {
    if q == [] then 0
    else Held(h[q[0]], currentwhite, x) + HeldIn(h, currentwhite, q[1..], x)
  }

  function Roots(s: State): seq<Option<Ref>> {
    [s.registry] + s.mt
  }

  /** All counted slots that refer to x: the global ones and those of the live
      objects.  A dead object no longer counts: nothing can follow its slots,
      and the addresses in them may already belong to new objects. */
  function Holders(s: State, x: Ref): nat
    requires forall y :: y in s.rootgc ==> y in s.heap
  {
    Count(Roots(s), x) + HeldIn(s.heap, s.currentwhite, s.rootgc, x)
  }

  // -------------------------------------------------------------- invariants

  ghost predicate RootListed(h: map<Ref, GCObject>, q: seq<Ref>) {
    && NoDup(q)
    && (forall x :: x in q ==> x in h && h[x].InRoot())
    && (forall x :: x in h && h[x].InRoot() ==> x in q)
  }

  ghost predicate OpenListed(h: map<Ref, GCObject>, q: seq<Ref>) {
    && NoDup(q)
    && (forall x :: x in q ==> x in h && h[x].level.Some?)
    && (forall x :: x in h && h[x].level.Some? ==> x in q)
  }

  ghost predicate StringsListed(h: map<Ref, GCObject>, strt: seq<seq<Ref>>)
    requires |strt| > 0
  {
    && (forall b :: 0 <= b < |strt| ==> NoDup(strt[b]))
    && (forall b, x :: 0 <= b < |strt| && x in strt[b] ==>
          x in h && h[x].kind == TString && Lmod(h[x].hash, |strt|) == b)
    && (forall x :: x in h && h[x].kind == TString ==> x in strt[Lmod(h[x].hash, |strt|)])
  }

  /** Every object is in exactly one list, once. */
  ghost predicate Linked(s: State) {
    && |s.strt| > 0
    && RootListed(s.heap, s.rootgc)
    && OpenListed(s.heap, s.openupval)
    && StringsListed(s.heap, s.strt)
  }

  /** What the kinds of objects look like: the main thread is there and fixed,
      only upvalues are open, and they name a slot of its stack. */
  ghost predicate ShapedIn(h: map<Ref, GCObject>, mainthread: Ref) {
    && mainthread in h && h[mainthread].kind == TThread && h[mainthread].fixed
    && h[mainthread].level.None?
    && (forall x :: x in h && h[x].fixed ==> x == mainthread || h[x].kind == TString)
    && (forall x :: x in h && h[x].level.Some? ==>
          h[x].kind == TUpval && h[x].level.value < |h[mainthread].slots|)
    && (forall x :: x in h && !h[x].InRoot() ==> h[x].slots == [])
  }

  ghost predicate Shaped(s: State) {
    ShapedIn(s.heap, s.mainthread)
  }

  ghost predicate ClosedIn(h: map<Ref, GCObject>, currentwhite: bool) {
    forall x, i :: LiveIn(h, currentwhite, x) && 0 <= i < |h[x].slots| && h[x].slots[i].Some? ==>
      LiveIn(h, currentwhite, h[x].slots[i].value)
  }

  ghost predicate AllLive(h: map<Ref, GCObject>, currentwhite: bool, q: seq<Option<Ref>>) {
    forall i :: 0 <= i < |q| && q[i].Some? ==> LiveIn(h, currentwhite, q[i].value)
  }

  /** Live objects and the global roots refer to live objects only: nothing that
      can still be followed dangles. */
  ghost predicate Closed(s: State) {
    && LiveIn(s.heap, s.currentwhite, s.mainthread)
    && AllLive(s.heap, s.currentwhite, Roots(s))
    && ClosedIn(s.heap, s.currentwhite)
  }

  /** The count of every object covers its holders and the decrements that are
      still to come. */
  ghost predicate Counts(s: State, work: seq<Option<Ref>>) {
    && (forall y :: y in s.rootgc ==> y in s.heap)
    && forall x :: x in s.heap ==> s.heap[x].ref >= Holders(s, x) + Count(work, x)
  }

  /** Which colors a kind can have. */
  predicate ShadeOk(o: GCObject) {
    && (o.kind == TThread || o.level.Some? || o.kind == TString ==> o.color != Black)
    && (o.kind == TUserdata || (o.kind == TUpval && o.level.None?) ==> o.color != Gray)
  }

  ghost predicate Shades(h: map<Ref, GCObject>) {
    forall x :: x in h ==> ShadeOk(h[x])
  }

  ghost predicate NoDead(h: map<Ref, GCObject>, currentwhite: bool) {
    forall x :: x in h ==> !IsDead(h[x], currentwhite)
  }

  ghost predicate AllWhite(h: map<Ref, GCObject>, currentwhite: bool) {
    forall x :: x in h ==> h[x].color == White(currentwhite)
  }

  predicate IsWhite(h: map<Ref, GCObject>, v: Option<Ref>) {
    v.Some? && v.value in h && h[v.value].color.White?
  }

  /** A black object refers to a white one only if it is one of `holders` or the
      white one is one of `targets`. */
  ghost predicate TriBut(h: map<Ref, GCObject>, holders: set<Ref>, targets: set<Ref>) {
    forall x, i :: x in h && h[x].color == Black && 0 <= i < |h[x].slots| && IsWhite(h, h[x].slots[i]) ==>
      x in holders || h[x].slots[i].value in targets
  }

  /** The gray lists hold exactly the gray objects that have list links, each
      one on one list, once. */
  ghost predicate GrayLists(h: map<Ref, GCObject>, gray: seq<Ref>, grayagain: seq<Ref>) {
    && NoDup(gray)
    && NoDup(grayagain)
    && (forall x :: x in gray ==> x !in grayagain)
    && (forall x :: x in gray || x in grayagain ==>
          x in h && h[x].color == Gray && h[x].Traversable())
    && (forall x :: x in h && h[x].color == Gray && h[x].Traversable() ==>
          x in gray || x in grayagain)
  }

  ghost predicate RootsMarked(h: map<Ref, GCObject>, mainthread: Ref, registry: Option<Ref>) {
    !IsWhite(h, Some(mainthread)) && !IsWhite(h, registry)
  }

  ghost predicate StringsSwept(h: map<Ref, GCObject>, strt: seq<seq<Ref>>, n: nat, currentwhite: bool) {
    forall b, x :: 0 <= b < |strt| && b < n && x in strt[b] && x in h ==>
      h[x].color == White(currentwhite)
  }

  /** Only objects of the current white lie before the sweep cursor; once the
      main thread does, the open upvalues have that color too. */
  ghost predicate RootSwept(h: map<Ref, GCObject>, rootgc: seq<Ref>, openupval: seq<Ref>, k: nat, mainthread: Ref, currentwhite: bool) {
    && k <= |rootgc|
    && (forall i :: 0 <= i < k && rootgc[i] in h ==> h[rootgc[i]].color == White(currentwhite))
    && (mainthread in rootgc[..k] ==>
          forall x :: x in openupval && x in h ==> h[x].color == White(currentwhite))
  }

  /** What the colors mean in each phase. */
  ghost predicate Colored(s: State, holders: set<Ref>, targets: set<Ref>) {
    match s.gcstate
    case Pause => AllWhite(s.heap, s.currentwhite)
    case Finalize => AllWhite(s.heap, s.currentwhite)
    case Propagate =>
      && NoDead(s.heap, s.currentwhite)
      && TriBut(s.heap, holders, {})
      && TriBut(s.heap, {}, targets)
      && GrayLists(s.heap, s.gray, s.grayagain)
      && RootsMarked(s.heap, s.mainthread, s.registry)
    case Sweepstring =>
      && s.sweepgc == 0 && s.sweepstrgc < |s.strt|
      && StringsSwept(s.heap, s.strt, s.sweepstrgc, s.currentwhite)
    case Sweep =>
      && StringsSwept(s.heap, s.strt, |s.strt|, s.currentwhite)
      && RootSwept(s.heap, s.rootgc, s.openupval, s.sweepgc, s.mainthread, s.currentwhite)
  }

  /** The part that a cascade of releases needs and keeps while `work` lists the
      references it still has to drop. */
  ghost predicate Sound(s: State, work: seq<Option<Ref>>) {
    && |s.strt| > 0
    && Linked(s)
    && Shaped(s)
    && Closed(s)
    && Counts(s, work)
    && AllLive(s.heap, s.currentwhite, work)
  }

  ghost predicate Inv(s: State) {
    && Sound(s, [])
    && Shades(s.heap)
    && Colored(s, {}, {})
  }

  // ------------------------------------------------------------ reachability

  predicate IsRoot(s: State, x: Ref) {
    x == s.mainthread || Some(x) in Roots(s)
  }

  /** p leads from a root to its last element along slots. */
  ghost predicate Path(s: State, p: seq<Ref>) {
    && |p| > 0
    && IsRoot(s, p[0])
    && (forall k :: 0 <= k < |p| - 1 ==> p[k] in s.heap && Some(p[k + 1]) in s.heap[p[k]].slots)
  }

  ghost predicate Reachable(s: State, x: Ref) {
    exists p :: Path(s, p) && p[|p| - 1] == x
  }
}
