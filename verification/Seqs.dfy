/** Option values and the few facts about sequences that several modules share. */
module Seqs {

  datatype Option<+T> = None | Some(value: T)

  /** No element occurs twice. */
  ghost predicate NoDup<T>(q: seq<T>) {
    forall i, j :: 0 <= i < j < |q| ==> q[i] != q[j]
  }

  /** The position of the first occurrence of x. */
  function IndexOf<T(==)>(q: seq<T>, x: T): (k: nat)
    requires x in q
    ensures k < |q| && q[k] == x
    ensures forall j :: 0 <= j < k ==> q[j] != x
  {
    if q[0] == x then 0 else 1 + IndexOf(q[1..], x)
  }

  /** q without its first occurrence of x; q itself when there is none. */
  function Without<T(==)>(q: seq<T>, x: T): (r: seq<T>)
    ensures x !in q ==> r == q
    ensures x in q ==> |r| == |q| - 1
    ensures forall y :: y in r ==> y in q
    ensures forall y :: y in q && y != x ==> y in r
    ensures NoDup(q) ==> NoDup(r) && x !in r
  {
    if x in q then
      var k := IndexOf(q, x);
      assert q == q[..k] + [x] + q[k + 1..];
      q[..k] + q[k + 1..]
    else q
  }

  lemma WithoutAt<T>(q: seq<T>, k: nat)
    requires k < |q| && NoDup(q)
    ensures Without(q, q[k]) == q[..k] + q[k + 1..]
  {
  }
}
