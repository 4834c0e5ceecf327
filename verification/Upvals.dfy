/** Open upvalues (src/lfunc.c:60-151): closures over one stack slot share one
    upvalue, and closing it changes nothing that can be read. */
module Upvals {
  import opened Seqs
  import opened LinkedLists

  type Ref = nat
  type Thread = nat

  /** Where the value of an upvalue lives: in a stack slot or in the upvalue itself. */
  datatype Location = Slot(t: Thread, level: nat) | Own

  // ----------------------------------------------------------------- the uvhead ring

  /** The head of the ring of all open upvalues; no upvalue has this number. */
  const UVHEAD: nat := 0

  function NextOn(ring: seq<nat>, i: nat): nat
    requires i < |ring|
  {
    if i + 1 < |ring| then ring[i + 1] else ring[0]
  }

  function PrevOn(ring: seq<nat>, i: nat): nat
    requires i < |ring|
  {
    if i > 0 then ring[i - 1] else ring[|ring| - 1]
  }

  /** The links at place i of the ring. */
  ghost predicate LinkedAt(unext: map<nat, nat>, uprev: map<nat, nat>, ring: seq<nat>, i: nat)
    requires i < |ring|
  {
    ring[i] in unext && ring[i] in uprev && unext[ring[i]] == NextOn(ring, i) && uprev[ring[i]] == PrevOn(ring, i)
  }

  /** unext and uprev run around the ring in opposite directions. */
  ghost predicate Ring(unext: map<nat, nat>, uprev: map<nat, nat>, ring: seq<nat>) {
    && ring != [] && ring[0] == UVHEAD && NoDup(ring)
    && (forall i: nat {:trigger LinkedAt(unext, uprev, ring, i)} :: i < |ring| ==> LinkedAt(unext, uprev, ring, i))
  }

  lemma Distinct(ring: seq<nat>, i: nat, j: nat)
    requires NoDup(ring) && i < |ring| && j < |ring|
    ensures ring[i] == ring[j] <==> i == j
  {
  }

  /** Linking x behind the head. */
  lemma RingInsert(unext: map<nat, nat>, uprev: map<nat, nat>, ring: seq<nat>, x: nat)
    requires Ring(unext, uprev, ring) && x !in ring
    ensures UVHEAD in unext
    ensures var n := unext[UVHEAD];
      Ring(unext[x := n][UVHEAD := x], uprev[x := UVHEAD][n := x], [UVHEAD, x] + ring[1..])
  {
    hide LinkedAt, NoDup;
    LinkAt(unext, uprev, ring, 0);
    var n := unext[UVHEAD];
    var r := [UVHEAD, x] + ring[1..];
    var unext', uprev' := unext[x := n][UVHEAD := x], uprev[x := UVHEAD][n := x];
    forall i: nat | i < |r|
      ensures LinkedAt(unext', uprev', r, i)
    {
      InsertedAt(unext, uprev, ring, x, i);
    }
    InsertNoDup(ring, x);
  }

  lemma LinkAt(unext: map<nat, nat>, uprev: map<nat, nat>, ring: seq<nat>, i: nat)
    requires Ring(unext, uprev, ring) && i < |ring|
    ensures ring[i] in unext && ring[i] in uprev && unext[ring[i]] == NextOn(ring, i) && uprev[ring[i]] == PrevOn(ring, i)
  {
    hide NoDup;
    assert LinkedAt(unext, uprev, ring, i);
  }

  lemma InsertNoDup(ring: seq<nat>, x: nat)
    requires NoDup(ring) && ring != [] && ring[0] == UVHEAD && x !in ring
    ensures NoDup([UVHEAD, x] + ring[1..])
  {
    var r := [UVHEAD, x] + ring[1..];
    assert forall i :: 2 <= i < |r| ==> r[i] == ring[i - 1];
  }

  lemma InsertedAt(unext: map<nat, nat>, uprev: map<nat, nat>, ring: seq<nat>, x: nat, i: nat)
    requires Ring(unext, uprev, ring) && x !in ring && i < |ring| + 1
    requires UVHEAD in unext && unext[UVHEAD] == NextOn(ring, 0)
    ensures var n := unext[UVHEAD];
      LinkedAt(unext[x := n][UVHEAD := x], uprev[x := UVHEAD][n := x], [UVHEAD, x] + ring[1..], i)
  {
    hide NoDup, Ring;
    HasNoDup(unext, uprev, ring);
    LinkAt(unext, uprev, ring, 0);
    if i > 1 {
      LinkAt(unext, uprev, ring, i - 1);
      Distinct(ring, 0, i - 1);
    }
    if |ring| > 1 {
      Distinct(ring, 1, if i > 1 then i - 1 else 0);
    }
  }

  lemma HasNoDup(unext: map<nat, nat>, uprev: map<nat, nat>, ring: seq<nat>)
    requires Ring(unext, uprev, ring)
    ensures NoDup(ring) && ring != [] && ring[0] == UVHEAD
  {
  }

  /** unlinkupval for the upvalue at place k. */
  lemma RingRemove(unext: map<nat, nat>, uprev: map<nat, nat>, ring: seq<nat>, k: nat)
    requires Ring(unext, uprev, ring) && 0 < k < |ring|
    ensures ring[k] in unext && ring[k] in uprev
    ensures var x := ring[k]; var n, p := unext[x], uprev[x];
      Ring(unext[p := n], uprev[n := p], ring[..k] + ring[k + 1..])
  {
    hide LinkedAt, NoDup;
    LinkAt(unext, uprev, ring, k);
    var n, p := unext[ring[k]], uprev[ring[k]];
    var r := ring[..k] + ring[k + 1..];
    var unext', uprev' := unext[p := n], uprev[n := p];
    forall i: nat | i < |r|
      ensures LinkedAt(unext', uprev', r, i)
    {
      RemovedAt(unext, uprev, ring, k, i);
    }
    RemoveNoDup(ring, k);
  }

  lemma RemoveNoDup(ring: seq<nat>, k: nat)
    requires NoDup(ring) && k < |ring|
    ensures NoDup(ring[..k] + ring[k + 1..])
  {
    var r := ring[..k] + ring[k + 1..];
    assert forall i :: 0 <= i < |r| ==> r[i] == ring[if i < k then i else i + 1];
  }

  lemma CutSet(ring: seq<nat>, k: nat)
    requires NoDup(ring) && k < |ring|
    ensures forall x :: x in ring[..k] + ring[k + 1..] <==> x in ring && x != ring[k]
  {
    assert ring == ring[..k] + [ring[k]] + ring[k + 1..];
  }

  lemma RemovedAt(unext: map<nat, nat>, uprev: map<nat, nat>, ring: seq<nat>, k: nat, i: nat)
    requires Ring(unext, uprev, ring) && 0 < k < |ring| && i < |ring| - 1
    requires ring[k] in unext && ring[k] in uprev && unext[ring[k]] == NextOn(ring, k) && uprev[ring[k]] == PrevOn(ring, k)
    ensures LinkedAt(unext[uprev[ring[k]] := unext[ring[k]]], uprev[unext[ring[k]] := uprev[ring[k]]], ring[..k] + ring[k + 1..], i)
  {
    hide NoDup, Ring;
    HasNoDup(unext, uprev, ring);
    var j := if i < k then i else i + 1;
    LinkAt(unext, uprev, ring, j);
    Distinct(ring, k - 1, j);
    Distinct(ring, if k + 1 < |ring| then k + 1 else 0, j);
  }

  // ------------------------------------------------------------------------- lists

  /** The open upvalues of thread t: strictly descending by level. */
  ghost predicate Descending(v: map<Ref, Location>, t: Thread, size: nat, q: seq<Ref>) {
    && (forall i {:trigger q[i]} :: 0 <= i < |q| ==> q[i] in v && v[q[i]].Slot? && v[q[i]].t == t && v[q[i]].level < size)
    && (forall i, j :: 0 <= i < j < |q| ==> v[q[i]].level > v[q[j]].level)
  }

  lemma DescendingNoDup(v: map<Ref, Location>, t: Thread, size: nat, q: seq<Ref>)
    requires Descending(v, t, size, q)
    ensures NoDup(q)
  {
  }

  lemma DescendingFrame(v: map<Ref, Location>, v': map<Ref, Location>, t: Thread, size: nat, q: seq<Ref>)
    requires Descending(v, t, size, q) && forall x :: x in q ==> x in v' && x in v && v'[x] == v[x]
    ensures Descending(v', t, size, q)
  {
    assert forall i :: 0 <= i < |q| ==> q[i] in q;
  }

  /** A new upvalue goes before the first one of a lower level. */
  lemma DescendingInsert(v: map<Ref, Location>, t: Thread, size: nat, q: seq<Ref>, k: nat, x: Ref, level: nat)
    requires Descending(v, t, size, q) && x !in v && k <= |q| && level < size
    requires forall i :: 0 <= i < k ==> v[q[i]].level > level
    requires k < |q| ==> v[q[k]].level < level
    ensures Descending(v[x := Slot(t, level)], t, size, q[..k] + [x] + q[k..])
  {
    var r := q[..k] + [x] + q[k..];
    var v' := v[x := Slot(t, level)];
    assert forall i :: 0 <= i < |q| ==> q[i] in v && q[i] != x;
    assert forall i {:trigger r[i]} :: 0 <= i < |r| ==> r[i] == if i < k then q[i] else if i == k then x else q[i - 1];
    assert forall i :: k <= i < |q| ==> v[q[i]].level < level;
  }

  /** Linking the new upvalue behind its predecessor in the list, or at the head. */
  lemma ListInsert(next: Links, head: Option<Ref>, q: seq<Ref>, k: nat, x: Ref)
    requires Chain(next, head, q) && NoDup(q) && x !in q && k <= |q|
    ensures k == 0 ==> Chain(next[x := head], Some(x), q[..k] + [x] + q[k..])
    ensures k > 0 ==> q[k - 1] in next && Chain(next[x := next[q[k - 1]]][q[k - 1] := Some(x)], head, q[..k] + [x] + q[k..])
  {
    if k == 0 {
      PushChain(next, head, q, x);
      assert q[..0] + [x] + q[0..] == [x] + q;
    } else {
      InsertChain(next, head, q, k - 1, x);
      assert q[k - 1] in next;
    }
  }

  /** The list of one thread. */
  ghost predicate ThreadList(next: Links, head: Option<Ref>, v: map<Ref, Location>, t: Thread, size: nat, q: seq<Ref>) {
    Chain(next, head, q) && Descending(v, t, size, q)
  }

  /** The list of every thread is linked and descending. */
  ghost predicate AllLists<V>(next: Links, openupval: map<Thread, Option<Ref>>, v: map<Ref, Location>, stacks: map<Thread, seq<V>>,
                              lists: map<Thread, seq<Ref>>) {
    && openupval.Keys == lists.Keys == stacks.Keys
    && (forall t {:trigger lists[t]} :: t in lists ==> ThreadList(next, openupval[t], v, t, |stacks[t]|, lists[t]))
  }

  /** An open upvalue is in the list of its thread. */
  ghost predicate Listed(v: map<Ref, Location>, lists: map<Thread, seq<Ref>>) {
    forall u {:trigger v[u]} :: u in v && v[u].Slot? ==> v[u].t in lists && u in lists[v[u].t]
  }

  /** Exactly the open upvalues are on the ring, besides its head. */
  ghost predicate OnRing(v: map<Ref, Location>, ring: seq<nat>) {
    UVHEAD !in v && forall u {:trigger u in ring} :: u != UVHEAD ==> (u in ring <==> u in v && v[u].Slot?)
  }

  lemma OpenList(next: Links, head: Option<Ref>, v: map<Ref, Location>, t: Thread, size: nat, q: seq<Ref>, k: nat)
    requires ThreadList(next, head, v, t, size, q)
    ensures head == First(q)
    ensures k < |q| ==> q[k] in next && next[q[k]] == After(q, k) && v[q[k]].level < size
    ensures k < |q| ==> q[k] in v && v[q[k]].Slot? && v[q[k]].t == t
    ensures k + 1 < |q| ==> q[k + 1] in v && v[q[k + 1]].Slot? && v[q[k + 1]].t == t && v[q[k + 1]].level < v[q[k]].level
  {
  }

  lemma NotListed(next: Links, head: Option<Ref>, v: map<Ref, Location>, t: Thread, size: nat, q: seq<Ref>, lists: map<Thread, seq<Ref>>, k: nat, level: nat)
    requires ThreadList(next, head, v, t, size, q) && Listed(v, lists) && t in lists && lists[t] == q && k <= |q|
    requires forall i :: 0 <= i < k ==> v[q[i]].level > level
    requires k < |q| ==> v[q[k]].level < level
    ensures forall u :: u in v ==> v[u] != Slot(t, level)
  {
    forall u | u in v && v[u].Slot? && v[u].t == t
      ensures v[u].level != level
    {
      var i :| 0 <= i < |q| && q[i] == u;
      assert k < |q| && i > k ==> v[q[i]].level < v[q[k]].level;
    }
  }

  /** The upvalues at or above a level are a beginning of the list. */
  lemma ClosedExactly(next: Links, head: Option<Ref>, v: map<Ref, Location>, t: Thread, size: nat, q: seq<Ref>, lists: map<Thread, seq<Ref>>, k: nat, level: nat)
    requires ThreadList(next, head, v, t, size, q) && Listed(v, lists) && t in lists && lists[t] == q && k <= |q|
    requires forall i :: 0 <= i < k ==> q[i] in v && v[q[i]].Slot? && v[q[i]].level >= level
    requires k < |q| ==> q[k] in v && v[q[k]].Slot? && v[q[k]].level < level
    ensures forall u :: u in v ==> (u in q[..k] <==> v[u].Slot? && v[u].t == t && v[u].level >= level)
  {
    forall u | u in v
      ensures u in q[..k] <==> v[u].Slot? && v[u].t == t && v[u].level >= level
    {
      if v[u].Slot? && v[u].t == t {
        var i :| 0 <= i < |q| && q[i] == u;
        assert k < |q| && i > k ==> v[q[i]].level < v[q[k]].level;
        assert i < k ==> q[..k][i] == u;
      }
    }
  }

  /** The lists of other threads hold other upvalues. */
  lemma OtherThread(next: Links, head: Option<Ref>, v: map<Ref, Location>, t: Thread, size: nat, q: seq<Ref>, u: Ref)
    requires ThreadList(next, head, v, t, size, q) && (u !in v || v[u].Own? || v[u].t != t)
    ensures u !in q
  {
  }

  /** A change at x and pp leaves the other lists as they are. */
  lemma OtherList(next: Links, next': Links, head: Option<Ref>, v: map<Ref, Location>, v': map<Ref, Location>, t: Thread, size: nat, q: seq<Ref>)
    requires ThreadList(next, head, v, t, size, q)
    requires forall u :: u in q ==> (u in next ==> u in next' && next'[u] == next[u]) && (u in v ==> u in v' && v'[u] == v[u])
    ensures ThreadList(next', head, v', t, size, q)
  {
    assert forall i :: 0 <= i < |q| ==> q[i] in q && q[i] in next && q[i] in v;
    ChainFrame(next, next', head, q);
    DescendingFrame(v, v', t, size, q);
  }

  function InsertNext(next: Links, head: Option<Ref>, pp: Option<Ref>, x: Ref): Links
    requires pp.Some? ==> pp.value in next
  {
    if pp.None? then next[x := head] else next[x := next[pp.value]][pp.value := Some(x)]
  }

  /** Linking a new upvalue for a slot at place k of the list of thread t. */
  lemma NewOpen<V>(next: Links, openupval: map<Thread, Option<Ref>>, v: map<Ref, Location>, stacks: map<Thread, seq<V>>, lists: map<Thread, seq<Ref>>,
                   t: Thread, level: nat, k: nat, x: Ref)
    requires AllLists(next, openupval, v, stacks, lists) && Listed(v, lists) && t in lists && x !in v
    requires var q := lists[t]; k <= |q| && level < |stacks[t]| && (forall i :: 0 <= i < k ==> q[i] in v && v[q[i]].Slot? && v[q[i]].level > level)
    requires var q := lists[t]; k < |q| ==> q[k] in v && v[q[k]].Slot? && v[q[k]].level < level
    ensures k > 0 ==> lists[t][k - 1] in next
    ensures var q := lists[t]; var v' := v[x := Slot(t, level)]; var lists' := lists[t := q[..k] + [x] + q[k..]];
      && AllLists(InsertNext(next, openupval[t], if k > 0 then Some(q[k - 1]) else None, x),
                  if k > 0 then openupval else openupval[t := Some(x)], v', stacks, lists')
      && Listed(v', lists')
  {
    hide Chain, Descending, Listed;
    var q := lists[t];
    assert ThreadList(next, openupval[t], v, t, |stacks[t]|, q);
    OtherThread(next, openupval[t], v, t, |stacks[t]|, q, x);
    OpenList(next, openupval[t], v, t, |stacks[t]|, q, if k > 0 then k - 1 else 0);
    DescendingNoDup(v, t, |stacks[t]|, q);
    var pp: Option<Ref> := if k > 0 then Some(q[k - 1]) else None;
    var next', v' := InsertNext(next, openupval[t], pp, x), v[x := Slot(t, level)];
    var lists', open' := lists[t := q[..k] + [x] + q[k..]], if k > 0 then openupval else openupval[t := Some(x)];
    forall c {:trigger lists'[c]} | c in lists'
      ensures ThreadList(next', open'[c], v', c, |stacks[c]|, lists'[c])
    {
      if c == t {
        ListInsert(next, openupval[t], q, k, x);
        DescendingInsert(v, t, |stacks[t]|, q, k, x, level);
      } else {
        assert ThreadList(next, openupval[c], v, c, |stacks[c]|, lists[c]);
        OtherThread(next, openupval[c], v, c, |stacks[c]|, lists[c], x);
        if k > 0 {
          OtherThread(next, openupval[c], v, c, |stacks[c]|, lists[c], q[k - 1]);
        }
        OtherList(next, next', openupval[c], v, v', c, |stacks[c]|, lists[c]);
      }
    }
    NewListed(v, lists, t, level, k, x);
  }

  lemma NewListed(v: map<Ref, Location>, lists: map<Thread, seq<Ref>>, t: Thread, level: nat, k: nat, x: Ref)
    requires Listed(v, lists) && t in lists && x !in v && k <= |lists[t]|
    ensures Listed(v[x := Slot(t, level)], lists[t := lists[t][..k] + [x] + lists[t][k..]])
  {
    var q := lists[t];
    assert q == q[..k] + q[k..];
  }

  lemma NewOnRing(v: map<Ref, Location>, ring: seq<nat>, t: Thread, level: nat, x: Ref)
    requires OnRing(v, ring) && ring != [] && ring[0] == UVHEAD && x !in v && x != UVHEAD
    ensures OnRing(v[x := Slot(t, level)], [UVHEAD, x] + ring[1..])
  {
    var r := [UVHEAD, x] + ring[1..];
    assert ring == [UVHEAD] + ring[1..];
    forall u {:trigger u in r} | u != UVHEAD
      ensures u in r <==> u in v[x := Slot(t, level)] && v[x := Slot(t, level)][u].Slot?
    {
      assert u in r <==> u == x || u in ring;
    }
  }

  /** Taking the first upvalue of thread t off its list; it is freed or keeps its own
      value from then on. */
  lemma ClosedFirst<V>(next: Links, openupval: map<Thread, Option<Ref>>, v: map<Ref, Location>, v': map<Ref, Location>, stacks: map<Thread, seq<V>>,
                       lists: map<Thread, seq<Ref>>, t: Thread)
    requires AllLists(next, openupval, v, stacks, lists) && Listed(v, lists) && t in lists && lists[t] != []
    requires var x := lists[t][0]; v' == v - {x} || v' == v[x := Own]
    ensures var x := lists[t][0]; var lists' := lists[t := lists[t][1..]];
      x in next && AllLists(next, openupval[t := next[x]], v', stacks, lists') && Listed(v', lists')
  {
    hide Chain, Descending, Listed;
    var q := lists[t];
    var x := q[0];
    assert ThreadList(next, openupval[t], v, t, |stacks[t]|, q);
    OpenList(next, openupval[t], v, t, |stacks[t]|, q, 0);
    var lists', open' := lists[t := q[1..]], openupval[t := next[x]];
    forall c {:trigger lists'[c]} | c in lists'
      ensures ThreadList(next, open'[c], v', c, |stacks[c]|, lists'[c])
    {
      if c == t {
        TailList(next, openupval[t], v, v', t, |stacks[t]|, q);
      } else {
        assert ThreadList(next, openupval[c], v, c, |stacks[c]|, lists[c]);
        OtherThread(next, openupval[c], v, c, |stacks[c]|, lists[c], x);
        OtherList(next, next, openupval[c], v, v', c, |stacks[c]|, lists[c]);
      }
    }
    ClosedListed(v, v', lists, t);
  }

  lemma TailList(next: Links, head: Option<Ref>, v: map<Ref, Location>, v': map<Ref, Location>, t: Thread, size: nat, q: seq<Ref>)
    requires ThreadList(next, head, v, t, size, q) && q != [] && (v' == v - {q[0]} || v' == v[q[0] := Own])
    ensures q[0] in next && ThreadList(next, next[q[0]], v', t, size, q[1..])
  {
    DescendingNoDup(v, t, size, q);
    assert forall i :: 0 <= i < |q[1..]| ==> q[1..][i] == q[i + 1];
    assert After(q, 0) == First(q[1..]);
    assert forall i :: 0 <= i < |q[1..]| ==> After(q[1..], i) == After(q, i + 1);
  }

  lemma ClosedListed(v: map<Ref, Location>, v': map<Ref, Location>, lists: map<Thread, seq<Ref>>, t: Thread)
    requires Listed(v, lists) && t in lists && lists[t] != []
    requires var x := lists[t][0]; v' == v - {x} || v' == v[x := Own]
    ensures Listed(v', lists[t := lists[t][1..]])
  {
    assert lists[t] == [lists[t][0]] + lists[t][1..];
    forall u {:trigger v'[u]} | u in v' && v'[u].Slot?
      ensures v'[u].t in lists && u in lists[t := lists[t][1..]][v'[u].t]
    {
      assert v'[u] == v[u];
    }
  }

  lemma ClosedOnRing(v: map<Ref, Location>, v': map<Ref, Location>, ring: seq<nat>, ring': seq<nat>, x: Ref)
    requires OnRing(v, ring) && (v' == v - {x} || v' == v[x := Own]) && x in v && (forall u {:trigger u in ring'} :: u in ring' <==> u in ring && u != x)
    ensures OnRing(v', ring')
  {
  }

  // --------------------------------------------------------------------- the state

  class State<Value(0)> {
    var stacks: map<Thread, seq<Value>>
    var openupval: map<Thread, Option<Ref>>
    var next: Links
    var v: map<Ref, Location>
    var value: map<Ref, Value>
    var dead: set<Ref>
    var unext: map<nat, nat>
    var uprev: map<nat, nat>
    ghost var lists: map<Thread, seq<Ref>>
    ghost var ring: seq<nat>

    constructor (stacks: map<Thread, seq<Value>>)
      ensures Valid() && v == map[] && this.stacks == stacks
    {
      this.stacks := stacks;
      openupval := map t | t in stacks :: None;
      next, v, value, dead := map[], map[], map[], {};
      unext, uprev := map[UVHEAD := UVHEAD], map[UVHEAD := UVHEAD];
      lists := map t | t in stacks :: [];
      ring := [UVHEAD];
    }

    ghost predicate Valid()
      reads this
    {
      && AllLists(next, openupval, v, stacks, lists) && Listed(v, lists)
      && Ring(unext, uprev, ring) && OnRing(v, ring) && value.Keys == v.Keys && dead <= v.Keys
    }

    /** What reading upvalue u gives. */
    function Read(u: Ref): Value
      requires u in v && u in value && (v[u].Slot? ==> v[u].t in stacks && v[u].level < |stacks[v[u].t]|)
      reads this
    {
      match v[u]
      case Slot(t, level) => stacks[t][level]
      case Own => value[u]
    }

    /** u can be read. */
    predicate Readable(u: Ref)
      reads this
    {
      u in v && u in value && (v[u].Slot? ==> v[u].t in stacks && v[u].level < |stacks[v[u].t]|)
    }

    lemma AllReadable(u: Ref)
      requires Valid() && u in v
      ensures Readable(u)
    {
      if v[u].Slot? {
        var q := lists[v[u].t];
        assert ThreadList(next, openupval[v[u].t], v, v[u].t, |stacks[v[u].t]|, q);
        var i :| 0 <= i < |q| && q[i] == u;
      }
    }

    lemma AllCanRead()
      requires Valid()
      ensures forall u :: u in v ==> Readable(u)
    {
      forall u | u in v
        ensures Readable(u)
      {
        AllReadable(u);
      }
    }

    /** There is one upvalue for a slot at most. */
    lemma OnePerSlot(a: Ref, b: Ref)
      requires Valid() && a in v && b in v && v[a] == v[b] && v[a].Slot?
      ensures a == b
    {
      var q := lists[v[a].t];
      assert ThreadList(next, openupval[v[a].t], v, v[a].t, |stacks[v[a].t]|, q) && Descending(v, v[a].t, |stacks[v[a].t]|, q);
      var i :| 0 <= i < |q| && q[i] == a;
      var j :| 0 <= j < |q| && q[j] == b;
    }

    // ------------------------------------------------------------------- operations

    /** Assigning to a local variable. */
    method SetSlot(t: Thread, level: nat, x: Value)
      requires Valid() && t in stacks && level < |stacks[t]|
      modifies this`stacks
      ensures Valid() && stacks == old(stacks)[t := old(stacks[t])[level := x]]
      ensures forall u :: u in v ==> Readable(u) && Read(u) == if v[u] == Slot(t, level) then x else old(Read(u))
    {
      hide Ring, Chain, Descending, AllLists, Listed, OnRing;
      AllCanRead();
      SameStacks(next, openupval, v, stacks, lists, t, level, x);
      stacks := stacks[t := stacks[t][level := x]];
    }

    /** Assigning to an upvalue: only those who read this upvalue, or its slot, see it. */
    method SetUpval(u: Ref, x: Value)
      requires Valid() && u in v
      modifies this`stacks, this`value
      ensures Valid() && Readable(u) && Read(u) == x
      ensures forall w :: w in v && w != u ==> old(Readable(w)) && Readable(w) && Read(w) == old(Read(w))
    {
      hide Ring, Chain, Descending, AllLists, Listed, OnRing;
      AllCanRead();
      forall w | w in v && v[w] == v[u] && v[u].Slot?
        ensures w == u
      {
        OnePerSlot(w, u);
      }
      match v[u]
      case Slot(t, level) =>
        SameStacks(next, openupval, v, stacks, lists, t, level, x);
        stacks := stacks[t := stacks[t][level := x]];
      case Own => value := value[u := x];
    }

    /** unlinkupval. */
    method UnlinkUpval(uv: Ref)
      requires Ring(unext, uprev, ring) && uv in ring && uv != UVHEAD
      modifies this`unext, this`uprev, this`ring
      ensures Ring(unext, uprev, ring) && uv !in ring
      ensures forall x {:trigger x in ring} :: x in ring <==> x in old(ring) && x != uv
    {
      hide Ring;
      ghost var k: nat :| k < |ring| && ring[k] == uv;
      HasNoDup(unext, uprev, ring);
      RingRemove(unext, uprev, ring, k);
      CutSet(ring, k);
      var n, p := unext[uv], uprev[uv];
      uprev := uprev[n := p];
      unext := unext[p := n];
      ring := ring[..k] + ring[k + 1..];
    }

    /** The search of luaF_findupval: the first open upvalue of a level below, or the one of
        this level; `pp` is its predecessor. */
    method SearchOpen(t: Thread, level: nat) returns (pp: Option<Ref>, p: Option<Ref>, ghost k: nat)
      requires Valid() && t in stacks
      ensures t in lists && t in openupval && k <= |lists[t]| && p == (if k < |lists[t]| then Some(lists[t][k]) else None)
      ensures pp == if k > 0 then Some(lists[t][k - 1]) else None
      ensures forall i :: 0 <= i < k ==> lists[t][i] in v && v[lists[t][i]].Slot? && v[lists[t][i]].level > level
      ensures p.Some? ==> p.value in v && v[p.value].Slot? && v[p.value].t == t && v[p.value].level <= level
    {
      hide Ring, Chain, Descending, AllLists, Listed, OnRing;
      OneList(next, openupval, v, stacks, lists, t);
      ghost var q := lists[t];
      k, pp, p := 0, None, openupval[t];
      OpenList(next, openupval[t], v, t, |stacks[t]|, q, 0);
      while p.Some? && v[p.value].level > level
        invariant k <= |q| && p == (if k < |q| then Some(q[k]) else None)
        invariant pp == if k > 0 then Some(q[k - 1]) else None
        invariant forall i :: 0 <= i < k ==> q[i] in v && v[q[i]].Slot? && v[q[i]].level > level
        invariant p.Some? ==> p.value in v && v[p.value].Slot? && v[p.value].t == t
        decreases |q| - k
      {
        OpenList(next, openupval[t], v, t, |stacks[t]|, q, k);
        pp := p;
        p := next[p.value];
        k := k + 1;
      }
    }

    /** Linking a new upvalue into the ring, behind its head. */
    method LinkRing(uv: Ref)
      requires Ring(unext, uprev, ring) && uv !in ring
      modifies this`unext, this`uprev, this`ring
      ensures ring == [UVHEAD, uv] + old(ring)[1..] && Ring(unext, uprev, ring)
    {
      hide Ring;
      HasNoDup(unext, uprev, ring);
      RingInsert(unext, uprev, ring, uv);
      var n := unext[UVHEAD];
      uprev := uprev[uv := UVHEAD][n := uv];
      unext := unext[uv := n][UVHEAD := uv];
      ring := [UVHEAD, uv] + ring[1..];
    }

    /** Linking a new upvalue into the list of its thread, behind pp. */
    method LinkOpen(t: Thread, level: nat, pp: Option<Ref>, uv: Ref, ghost k: nat)
      requires AllLists(next, openupval, v, stacks, lists) && Listed(v, lists) && t in lists && t in openupval && t in stacks
      requires uv !in v && level < |stacks[t]| && k <= |lists[t]| && pp == if k > 0 then Some(lists[t][k - 1]) else None
      requires forall i :: 0 <= i < k ==> lists[t][i] in v && v[lists[t][i]].Slot? && v[lists[t][i]].level > level
      requires k < |lists[t]| ==> lists[t][k] in v && v[lists[t][k]].Slot? && v[lists[t][k]].level < level
      modifies this`openupval, this`next, this`v, this`lists
      ensures AllLists(next, openupval, v, stacks, lists) && Listed(v, lists) && v == old(v)[uv := Slot(t, level)]
    {
      hide AllLists, Listed;
      ghost var q := lists[t];
      NewOpen(next, openupval, v, stacks, lists, t, level, k, uv);
      if pp.None? {
        next := next[uv := openupval[t]];
        openupval := openupval[t := Some(uv)];
      } else {
        next := next[uv := next[pp.value]][pp.value := Some(uv)];
      }
      v := v[uv := Slot(t, level)];
      lists := lists[t := q[..k] + [uv] + q[k..]];
    }

    /** luaF_findupval: the upvalue of a slot, found again or made; `unused` and `junk` are
        the new object and what its memory happens to hold. */
    method FindUpval(t: Thread, level: nat, unused: Ref, junk: Value) returns (uv: Ref)
      requires Valid() && t in stacks && level < |stacks[t]| && unused !in v && unused != UVHEAD
      modifies this`openupval, this`next, this`v, this`value, this`dead, this`unext, this`uprev, this`lists, this`ring
      ensures Valid() && uv in v && v[uv] == Slot(t, level) && uv !in dead
      ensures uv in old(v) ==> v == old(v) && value == old(value) && dead == old(dead) - {uv}
      ensures uv !in old(v) ==> uv == unused && v == old(v)[uv := Slot(t, level)] && dead == old(dead)
      ensures uv !in old(v) ==> forall u :: u in old(v) ==> old(v)[u] != Slot(t, level)
      ensures forall u :: u in old(v) ==> value[u] == old(value)[u]
    {
      hide Ring, Chain, Descending, AllLists, Listed, OnRing;
      var pp, p, k := SearchOpen(t, level);
      if p.Some? && v[p.value].level == level {
        dead := dead - {p.value};
        return p.value;
      }
      uv := unused;
      OneList(next, openupval, v, stacks, lists, t);
      NotListed(next, openupval[t], v, t, |stacks[t]|, lists[t], lists, k, level);
      NotOnRing(v, ring, uv);
      HasNoDup(unext, uprev, ring);
      NewOnRing(v, ring, t, level, uv);
      LinkOpen(t, level, pp, uv, k);
      LinkRing(uv);
      value := value[uv := junk];
    }

    /** One round of luaF_close: the first upvalue of the thread is freed when it is dead,
        else it takes its value with it. */
    method CloseFirst(t: Thread)
      requires Valid() && t in lists && lists[t] != []
      modifies this`openupval, this`v, this`value, this`dead, this`unext, this`uprev, this`lists, this`ring
      ensures Valid() && lists == old(lists)[t := old(lists)[t][1..]]
      ensures var uv := old(lists)[t][0];
        && uv in old(v) && old(Readable(uv)) && dead == old(dead) - {uv}
        && (uv in old(dead) ==> v == old(v) - {uv} && value == old(value) - {uv})
        && (uv !in old(dead) ==> v == old(v)[uv := Own] && value == old(value)[uv := old(Read(uv))])
    {
      hide Ring, Chain, Descending, AllLists, Listed, OnRing;
      OneList(next, openupval, v, stacks, lists, t);
      OpenList(next, openupval[t], v, t, |stacks[t]|, lists[t], 0);
      var uv := openupval[t].value;
      ghost var v', ring0 := if uv in dead then v - {uv} else v[uv := Own], ring;
      ClosedFirst(next, openupval, v, v', stacks, lists, t);
      InRing(v, ring, uv);
      openupval := openupval[t := next[uv]];
      UnlinkUpval(uv);
      ClosedOnRing(v, v', ring0, ring, uv);
      if uv in dead {
        dead, value, v := dead - {uv}, value - {uv}, v - {uv};
      } else {
        value := value[uv := stacks[v[uv].t][v[uv].level]];
        v := v[uv := Own];
      }
      lists := lists[t := lists[t][1..]];
    }

    /** The loop of luaF_close. */
    method CloseLoop(t: Thread, level: nat) returns (ghost k: nat, ghost gone: set<Ref>)
      requires Valid() && t in stacks && t in lists
      modifies this`openupval, this`v, this`value, this`dead, this`unext, this`uprev, this`lists, this`ring
      ensures Valid() && k <= |old(lists)[t]| && forall u :: u in gone <==> u in old(lists)[t][..k]
      ensures forall u :: u in gone ==> u in old(v) && old(v)[u].Slot? && old(v)[u].level >= level
      ensures k < |old(lists)[t]| ==> old(lists)[t][k] in v && v[old(lists)[t][k]].Slot? && v[old(lists)[t][k]].level < level
      ensures v == ClosedLocations(old(v), old(dead), gone) && value == ClosedValues(old(v), old(value), stacks, old(dead), gone)
    {
      hide Ring, Chain, Descending, AllLists, Listed, OnRing, ClosedLocations, ClosedValues;
      ghost var q := lists[t];
      k, gone := 0, {};
      OneList(next, openupval, v, stacks, lists, t);
      OpenList(next, openupval[t], v, t, |stacks[t]|, q, 0);
      assert q[0..] == q;
      NoneClosed(v, value, stacks, dead);
      while openupval[t].Some? && v[openupval[t].value].level >= level
        invariant Valid() && k <= |q| && t in lists && lists[t] == q[k..]
        invariant t in openupval && openupval[t] == First(q[k..])
        invariant openupval[t].Some? ==> openupval[t].value in v && v[openupval[t].value].Slot?
        invariant forall u :: u in gone <==> u in q[..k]
        invariant forall u :: u in gone ==> u in old(v) && old(v)[u].Slot? && old(v)[u].level >= level
        invariant v == ClosedLocations(old(v), old(dead), gone) && value == ClosedValues(old(v), old(value), stacks, old(dead), gone)
        invariant dead == old(dead) - gone
        decreases |q| - k
      {
        ghost var uv := q[k];
        OneList(next, openupval, v, stacks, lists, t);
        OpenList(next, openupval[t], v, t, |stacks[t]|, lists[t], 0);
        assert uv == lists[t][0] && q[..k + 1] == q[..k] + [uv] && q[k..][1..] == q[k + 1..];
        NextToClose(old(next), old(openupval)[t], old(v), t, |stacks[t]|, q, k, gone);
        CloseFirst(t);
        CloseStep(old(v), old(value), stacks, old(dead), gone, uv);
        gone := gone + {uv};
        k := k + 1;
        OneList(next, openupval, v, stacks, lists, t);
        OpenList(next, openupval[t], v, t, |stacks[t]|, lists[t], 0);
      }
    }

    /** luaF_close: exactly the open upvalues of the thread at or above the level are
        closed, and none reads differently than before. */
    method Close(t: Thread, level: nat)
      requires Valid() && t in stacks
      modifies this`openupval, this`v, this`value, this`dead, this`unext, this`uprev, this`lists, this`ring
      ensures Valid() && v.Keys <= old(v).Keys
      ensures forall u :: u in old(v) ==>
                var above := old(v)[u].Slot? && old(v)[u].t == t && old(v)[u].level >= level;
                && (u in v <==> !above || u !in old(dead))
                && (u in v ==> v[u] == if above then Own else old(v)[u])
                && (u in v ==> old(Readable(u)) && Readable(u) && Read(u) == old(Read(u)))
    {
      hide Ring, Chain, Descending, AllLists, Listed, OnRing, ClosedLocations, ClosedValues;
      AllCanRead();
      OneList(next, openupval, v, stacks, lists, t);
      ghost var k, gone := CloseLoop(t, level);
      ghost var q := old(lists)[t];
      if k < |q| {
        NextToClose(old(next), old(openupval)[t], old(v), t, |stacks[t]|, q, k, gone);
        StillOpen(old(v), old(dead), gone, q[k]);
      }
      AllClosed(old(next), old(openupval)[t], old(v), old(value), stacks, old(lists), old(dead), t, k, level, gone);
      AllCanRead();
    }
  }

  /** Where upvalues are, and what they hold themselves, when those in `gone` have been
      closed. */
  ghost function ClosedLocations(v: map<Ref, Location>, dead: set<Ref>, gone: set<Ref>): map<Ref, Location> {
    map u | u in v && !(u in gone && u in dead) :: if u in gone then Own else v[u]
  }

  ghost function ClosedValues<V>(v: map<Ref, Location>, value: map<Ref, V>, stacks: map<Thread, seq<V>>, dead: set<Ref>, gone: set<Ref>): map<Ref, V> {
    map u | u in value && !(u in gone && u in dead) ::
      if u in gone && u in v && v[u].Slot? && v[u].t in stacks && v[u].level < |stacks[v[u].t]| then stacks[v[u].t][v[u].level] else value[u]
  }

  lemma NoneClosed<V>(v: map<Ref, Location>, value: map<Ref, V>, stacks: map<Thread, seq<V>>, dead: set<Ref>)
    ensures ClosedLocations(v, dead, {}) == v && ClosedValues(v, value, stacks, dead, {}) == value
  {
  }

  lemma CloseStep<V>(v: map<Ref, Location>, value: map<Ref, V>, stacks: map<Thread, seq<V>>, dead: set<Ref>, gone: set<Ref>, x: Ref)
    requires x in v && x in value && x !in gone && v[x].Slot? && v[x].t in stacks && v[x].level < |stacks[v[x].t]|
    ensures ClosedLocations(v, dead, gone + {x}) ==
            if x in dead then ClosedLocations(v, dead, gone) - {x} else ClosedLocations(v, dead, gone)[x := Own]
    ensures ClosedValues(v, value, stacks, dead, gone + {x}) ==
            if x in dead then ClosedValues(v, value, stacks, dead, gone) - {x}
            else ClosedValues(v, value, stacks, dead, gone)[x := stacks[v[x].t][v[x].level]]
    ensures x in ClosedLocations(v, dead, gone) && ClosedLocations(v, dead, gone)[x] == v[x]
  {
  }

  lemma StillOpen(v: map<Ref, Location>, dead: set<Ref>, gone: set<Ref>, x: Ref)
    requires x in v && x !in gone
    ensures x in ClosedLocations(v, dead, gone) && ClosedLocations(v, dead, gone)[x] == v[x]
  {
  }

  lemma NextToClose(next: Links, head: Option<Ref>, v: map<Ref, Location>, t: Thread, size: nat, q: seq<Ref>, k: nat, gone: set<Ref>)
    requires ThreadList(next, head, v, t, size, q) && k < |q| && forall u :: u in gone <==> u in q[..k]
    ensures q[k] in v && v[q[k]].Slot? && v[q[k]].t == t && v[q[k]].level < size && q[k] !in gone
  {
    DescendingNoDup(v, t, size, q);
  }

  /** When all upvalues of a level or above are closed, the others are as they were, and
      every one reads as it did. */
  lemma AllClosed<V>(next: Links, head: Option<Ref>, v: map<Ref, Location>, value: map<Ref, V>, stacks: map<Thread, seq<V>>, lists: map<Thread, seq<Ref>>,
                     dead: set<Ref>, t: Thread, k: nat, level: nat, gone: set<Ref>)
    requires t in stacks && t in lists && ThreadList(next, head, v, t, |stacks[t]|, lists[t]) && Listed(v, lists) && k <= |lists[t]|
    requires (forall u :: u in gone <==> u in lists[t][..k]) && (forall u :: u in gone ==> u in v && v[u].Slot? && v[u].level >= level)
    requires k < |lists[t]| ==> lists[t][k] in v && v[lists[t][k]].Slot? && v[lists[t][k]].level < level
    requires v.Keys == value.Keys
    ensures var v', value' := ClosedLocations(v, dead, gone), ClosedValues(v, value, stacks, dead, gone);
      v'.Keys <= v.Keys && forall u {:trigger u in v} :: u in v ==>
        var above := v[u].Slot? && v[u].t == t && v[u].level >= level;
        && (u in v' <==> !above || u !in dead)
        && (u in v' ==> v'[u] == (if above then Own else v[u]) && u in value')
        && (u in v' && above && v[u].level < |stacks[t]| ==> value'[u] == stacks[t][v[u].level])
        && (u in v' && !above ==> value'[u] == value[u])
  {
    var q := lists[t];
    assert forall i :: 0 <= i < k ==> q[..k][i] == q[i];
    ClosedExactly(next, head, v, t, |stacks[t]|, q, lists, k, level);
  }

  lemma OneList<V>(next: Links, openupval: map<Thread, Option<Ref>>, v: map<Ref, Location>, stacks: map<Thread, seq<V>>, lists: map<Thread, seq<Ref>>, t: Thread)
    requires AllLists(next, openupval, v, stacks, lists)
    ensures openupval.Keys == lists.Keys == stacks.Keys
    ensures t in lists ==> ThreadList(next, openupval[t], v, t, |stacks[t]|, lists[t])
  {
  }

  lemma SameStacks<V>(next: Links, openupval: map<Thread, Option<Ref>>, v: map<Ref, Location>, stacks: map<Thread, seq<V>>, lists: map<Thread, seq<Ref>>,
                      t: Thread, level: nat, x: V)
    requires AllLists(next, openupval, v, stacks, lists) && t in stacks && level < |stacks[t]|
    ensures AllLists(next, openupval, v, stacks[t := stacks[t][level := x]], lists)
  {
    hide ThreadList;
  }

  lemma NotOnRing(v: map<Ref, Location>, ring: seq<nat>, x: Ref)
    requires OnRing(v, ring) && x !in v && x != UVHEAD
    ensures x !in ring
  {
  }

  lemma InRing(v: map<Ref, Location>, ring: seq<nat>, x: Ref)
    requires OnRing(v, ring) && x in v && v[x].Slot?
    ensures x in ring && x != UVHEAD
  {
  }
}
