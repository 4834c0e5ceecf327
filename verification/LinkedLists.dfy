/** Doubly linked lists whose links live in the objects themselves: `next` and
    `prev` give the two link fields of every object. */
module LinkedLists {
  import opened Seqs

  type Links = map<nat, Option<nat>>

  function First(q: seq<nat>): Option<nat> {
    if q == [] then None else Some(q[0])
  }

  function After(q: seq<nat>, i: nat): Option<nat> {
    if i + 1 < |q| then Some(q[i + 1]) else None
  }

  function Before(q: seq<nat>, i: nat): Option<nat> {
    if 0 < i <= |q| then Some(q[i - 1]) else None
  }

  /** Following `next` from `head` runs through q. */
  ghost predicate Chain(next: Links, head: Option<nat>, q: seq<nat>) {
    && head == First(q)
    && (forall i :: 0 <= i < |q| ==> q[i] in next && next[q[i]] == After(q, i))
  }

  /** `prev` is the inverse of `next` along q. */
  ghost predicate Backs(prev: Links, q: seq<nat>) {
    forall i :: 0 <= i < |q| ==> q[i] in prev && prev[q[i]] == Before(q, i)
  }

  lemma ChainFrame(next: Links, next': Links, head: Option<nat>, q: seq<nat>)
    requires Chain(next, head, q) && forall x :: x in q ==> x in next' && next'[x] == next[x]
    ensures Chain(next', head, q)
  {
    assert forall i :: 0 <= i < |q| ==> q[i] in q;
  }

  lemma BacksFrame(prev: Links, prev': Links, q: seq<nat>)
    requires Backs(prev, q) && forall x :: x in q ==> x in prev' && prev'[x] == prev[x]
    ensures Backs(prev', q)
  {
    assert forall i :: 0 <= i < |q| ==> q[i] in q;
  }

  /** Prepending x. */
  lemma PushChain(next: Links, head: Option<nat>, q: seq<nat>, x: nat)
    requires Chain(next, head, q) && x !in q
    ensures Chain(next[x := head], Some(x), [x] + q)
  {
    assert forall i :: 0 <= i < |q| ==> q[i] in q && ([x] + q)[i + 1] == q[i];
  }

  lemma PushBacks(prev: Links, q: seq<nat>, x: nat)
    requires Backs(prev, q) && x !in q && NoDup(q)
    ensures Backs(if q == [] then prev[x := None] else prev[x := None][q[0] := Some(x)], [x] + q)
  {
    assert forall i :: 0 <= i < |q| ==> q[i] in q && ([x] + q)[i + 1] == q[i];
  }

  /** Taking the object at position k out: its predecessor and its successor are
      joined. */
  lemma UnlinkChain(next: Links, head: Option<nat>, q: seq<nat>, k: nat)
    requires Chain(next, head, q) && NoDup(q) && k < |q|
    ensures var n := next[q[k]];
            var r := q[..k] + q[k + 1..];
            if k > 0 then Chain(next[q[k - 1] := n], head, r) else Chain(next, n, r)
  {
    var r := q[..k] + q[k + 1..];
    var next' := if k > 0 then next[q[k - 1] := next[q[k]]] else next;
    assert next[q[k]] == After(q, k);
    forall i | 0 <= i < |r|
      ensures r[i] in next' && next'[r[i]] == After(r, i)
    {
      var j := if i < k then i else i + 1;
      assert r[i] == q[j] && next[q[j]] == After(q, j);
    }
  }

  lemma UnlinkBacks(prev: Links, q: seq<nat>, k: nat)
    requires Backs(prev, q) && NoDup(q) && k < |q|
    ensures var r := q[..k] + q[k + 1..];
            if k + 1 < |q| then Backs(prev[q[k + 1] := prev[q[k]]], r) else Backs(prev, r)
  {
    var r := q[..k] + q[k + 1..];
    BackAt(prev, q, k);
    var prev' := if k + 1 < |q| then prev[q[k + 1] := prev[q[k]]] else prev;
    hide Backs, NoDup;
    forall i: nat | i < |r|
      ensures r[i] in prev' && prev'[r[i]] == Before(r, i)
    {
      var j := if i < k then i else i + 1;
      assert r[i] == q[j];
      BackAt(prev, q, j);
      if k + 1 < |q| {
        Different(q, j, k + 1);
      }
    }
    BacksOf(prev', r);
  }

  lemma BackAt(prev: Links, q: seq<nat>, i: nat)
    requires Backs(prev, q) && i < |q|
    ensures q[i] in prev && prev[q[i]] == Before(q, i)
  {
  }

  lemma BacksOf(prev: Links, q: seq<nat>)
    requires forall i: nat :: i < |q| ==> q[i] in prev && prev[q[i]] == Before(q, i)
    ensures Backs(prev, q)
  {
  }

  lemma Different(q: seq<nat>, i: nat, j: nat)
    requires NoDup(q) && i < |q| && j < |q|
    ensures q[i] == q[j] <==> i == j
  {
  }

  /** Inserting x behind the object at position k. */
  lemma InsertChain(next: Links, head: Option<nat>, q: seq<nat>, k: nat, x: nat)
    requires Chain(next, head, q) && NoDup(q) && k < |q| && x !in q
    ensures Chain(next[x := next[q[k]]][q[k] := Some(x)], head, q[..k + 1] + [x] + q[k + 1..])
  {
    var r := q[..k + 1] + [x] + q[k + 1..];
    var next' := next[x := next[q[k]]][q[k] := Some(x)];
    assert next[q[k]] == After(q, k);
    forall i | 0 <= i < |r|
      ensures r[i] in next' && next'[r[i]] == After(r, i)
    {
      if i != k + 1 {
        var j := if i <= k then i else i - 1;
        assert r[i] == q[j] && q[j] in q && next[q[j]] == After(q, j);
      }
    }
  }

  lemma InsertBacks(prev: Links, q: seq<nat>, k: nat, x: nat)
    requires Backs(prev, q) && NoDup(q) && k < |q| && x !in q
    ensures var p := prev[x := Some(q[k])];
            Backs(if k + 1 < |q| then p[q[k + 1] := Some(x)] else p, q[..k + 1] + [x] + q[k + 1..])
  {
    var r := q[..k + 1] + [x] + q[k + 1..];
    var p := prev[x := Some(q[k])];
    var prev' := if k + 1 < |q| then p[q[k + 1] := Some(x)] else p;
    forall i | 0 <= i < |r|
      ensures r[i] in prev' && prev'[r[i]] == Before(r, i)
    {
      if i != k + 1 {
        var j := if i <= k then i else i - 1;
        assert r[i] == q[j] && q[j] in q && prev[q[j]] == Before(q, j);
      }
    }
  }

  /** The link fields after `c` has been cut out of its list. */
  function CutNext(next: Links, prev: Links, c: nat): Links
    requires c in next && c in prev
  {
    if prev[c].Some? then next[prev[c].value := next[c]] else next
  }

  function CutPrev(next: Links, prev: Links, c: nat): Links
    requires c in next && c in prev
  {
    if next[c].Some? then prev[next[c].value := prev[c]] else prev
  }
}
