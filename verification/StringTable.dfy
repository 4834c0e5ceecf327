/** The table of all strings: every content is stored once
    (src/lstring.c:22-106, src/lgc.c:531-537, src/lgc.c:931-943). */
module StringTable {
  import opened Bits
  import opened Seqs
  import opened LinkedLists

  type Ref = nat
  type Byte = x: int | 0 <= x < 256
  type Bytes = seq<Byte>

  const MINSTRTABSIZE := 32
  const MAX_INT := 0x7fff_fffd

  // ------------------------------------------------------------------------- hash

  const WORD_LIMIT := 0x1_0000_0000

  type Word = x: int | 0 <= x < WORD_LIMIT

  /** One character into the hash value; sums wrap around. */
  function Mix(h: Word, c: Byte): Word {
    Xor(h, (h * 32 + h / 4 + c) % WORD_LIMIT, 32) % WORD_LIMIT
  }

  /** The hash value when the characters at l1 - 1, l1 - 1 - step, ... are still to be
      mixed in. */
  function HashFrom(str: Bytes, h: Word, l1: nat, step: nat): Word
    requires l1 <= |str| && step > 0
    decreases l1
  {
    if l1 < step then h else HashFrom(str, Mix(h, str[l1 - 1]), l1 - step, step)
  }

  /** The length, and a step that takes in at most 32 characters or so. */
  function Hash(str: Bytes): Word {
    HashFrom(str, |str| % WORD_LIMIT, |str|, |str| / 32 + 1)
  }

  lemma XorSmall(b: nat, n: nat)
    requires b < 128 && n >= 7
    ensures Xor(0, b, n) == b
  {
    assert Pow2(7) == 128 by { assert Pow2(4) == 16; }
    Pow2Grows(7, n);
    XorNone(b, n);
  }

  lemma ShortXors()
    ensures Xor(1, 129, 32) == 128 && Xor(2, 162, 32) == 160
  {
    hide Xor, Pow2;
    XorSmall(64, 31);
    XorStep(1, 129, 32);
    XorSmall(40, 30);
    XorStep(1, 81, 31);
    XorStep(2, 162, 32);
  }

  lemma LongerXor()
    ensures Xor(160, 5257, 32) == 5161
  {
    hide Xor, Pow2;
    XorSmall(20, 24);
    XorStep(1, 41, 25);
    XorStep(2, 82, 26);
    XorStep(5, 164, 27);
    XorStep(10, 328, 28);
    XorStep(20, 657, 29);
    XorStep(40, 1314, 30);
    XorStep(80, 2628, 31);
    XorStep(160, 5257, 32);
  }

  /** The hash values of "", "a" and "ab". */
  lemma HashExamples()
    ensures Hash([]) == 0 && Hash([97]) == 128 && Hash([97, 98]) == 5161
  {
    hide Xor, HashFrom;
    ShortXors();
    LongerXor();
    MixedIn([], 0, 0);
    MixedIn([97], 1, 1);
    MixedIn([97], 128, 0);
    MixedIn([97, 98], 2, 2);
    MixedIn([97, 98], 160, 1);
    MixedIn([97, 98], 5161, 0);
  }

  lemma MixedIn(str: Bytes, h: Word, l1: nat)
    requires l1 <= |str|
    ensures HashFrom(str, h, l1, 1) == if l1 == 0 then h else HashFrom(str, Mix(h, str[l1 - 1]), l1 - 1, 1)
  {
    hide Mix;
  }

  /** Strings of one length have one hash value if they agree at the last character
      and at every one that lies a whole number of steps before it; a step is 1 for
      each 32 characters, and 1 more. */
  lemma HashSamples(a: Bytes, b: Bytes)
    requires |a| == |b|
    requires forall i :: 0 <= i < |a| && (|a| - 1 - i) % (|a| / 32 + 1) == 0 ==> a[i] == b[i]
    ensures Hash(a) == Hash(b)
  {
    SamplesFrom(a, b, |a| % WORD_LIMIT, |a|, |a| / 32 + 1);
  }

  lemma {:induction false} SamplesFrom(a: Bytes, b: Bytes, h: Word, l1: nat, step: nat)
    requires |a| == |b| && l1 <= |a| && step > 0
    requires forall i :: 0 <= i < l1 && (l1 - 1 - i) % step == 0 ==> a[i] == b[i]
    ensures HashFrom(a, h, l1, step) == HashFrom(b, h, l1, step)
    decreases l1
  {
    hide Mix;
    if l1 >= step {
      assert (l1 - 1 - (l1 - 1)) % step == 0;
      forall i | 0 <= i < l1 - step && (l1 - step - 1 - i) % step == 0
        ensures a[i] == b[i]
      {
        ModStep(l1 - step - 1 - i, step);
      }
      SamplesFrom(a, b, Mix(h, a[l1 - 1]), l1 - step, step);
    }
  }

  lemma ModStep(n: nat, step: nat)
    requires step > 0
    ensures (n + step) % step == n % step
  {
    Remainder(n + step, step, n / step + 1, n % step);
  }

  /** lmod of the hash: where a string is in a table of the given size. */
  function Bucket(str: Bytes, size: nat): (b: nat)
    requires size > 0
    ensures b < size
  {
    Lmod(Hash(str), size)
  }

  lemma BucketIs(str: Bytes, size: nat)
    requires size > 0
    ensures Bucket(str, size) == Lmod(Hash(str), size)
  {
  }

  /** The loop of luaS_newlstr that computes the hash value. */
  method HashString(str: Bytes) returns (h: Word)
    ensures h == Hash(str)
  {
    hide Mix;
    h := |str| % WORD_LIMIT;
    var step, l1: nat := |str| / 32 + 1, |str|;
    while l1 >= step
      invariant l1 <= |str| && HashFrom(str, h, l1, step) == Hash(str)
      decreases l1
    {
      h := Mix(h, str[l1 - 1]);
      l1 := l1 - step;
    }
  }

  // -------------------------------------------------------------------- invariants

  /** Every bucket is a doubly linked list. */
  ghost predicate Linked(next: Links, prev: Links, hash: seq<Option<Ref>>, chains: seq<seq<Ref>>) {
    && |hash| == |chains|
    && (forall b {:trigger chains[b]} :: 0 <= b < |chains| ==>
          Chain(next, hash[b], chains[b]) && Backs(prev, chains[b]) && NoDup(chains[b]))
  }

  /** What is in a bucket belongs there. */
  ghost predicate Placed(text: map<Ref, Bytes>, chains: seq<seq<Ref>>) {
    forall b, x {:trigger x in chains[b]} :: 0 <= b < |chains| && x in chains[b] ==> x in text && Bucket(text[x], |chains|) == b
  }

  /** Every string is in its bucket. */
  ghost predicate Complete(text: map<Ref, Bytes>, chains: seq<seq<Ref>>) {
    |chains| > 0 && forall x :: x in text ==> x in chains[Bucket(text[x], |chains|)]
  }

  /** No two strings have equal contents. */
  ghost predicate Unique(text: map<Ref, Bytes>) {
    forall x, y :: x in text && y in text && text[x] == text[y] ==> x == y
  }

  // ---------------------------------------------------------------- bucket lemmas

  function PushNext(next: Links, head: Option<Ref>, x: Ref): Links {
    next[x := head]
  }

  function PushPrev(prev: Links, head: Option<Ref>, x: Ref): Links {
    if head.Some? then prev[x := None][head.value := Some(x)] else prev[x := None]
  }

  /** A string is in one bucket only. */
  lemma Apart(text: map<Ref, Bytes>, chains: seq<seq<Ref>>, b: nat, c: nat, y: Ref)
    requires Placed(text, chains) && b < |chains| && c < |chains| && b != c && y in chains[b]
    ensures y !in chains[c]
  {
    hide Bucket;
  }

  /** Chaining x in front of its bucket. */
  lemma PushBucket(text: map<Ref, Bytes>, next: Links, prev: Links, hash: seq<Option<Ref>>, chains: seq<seq<Ref>>, x: Ref)
    requires Linked(next, prev, hash, chains) && Placed(text, chains) && |chains| > 0
    requires x in text && x !in chains[Bucket(text[x], |chains|)]
    ensures var b := Bucket(text[x], |chains|); var chains' := chains[b := [x] + chains[b]];
      Linked(PushNext(next, hash[b], x), PushPrev(prev, hash[b], x), hash[b := Some(x)], chains') && Placed(text, chains')
  {
    hide Bucket, Chain, Backs;
    var b := Bucket(text[x], |chains|);
    var n, p := PushNext(next, hash[b], x), PushPrev(prev, hash[b], x);
    var chains' := chains[b := [x] + chains[b]];
    forall c {:trigger chains'[c]} | 0 <= c < |chains'|
      ensures Chain(n, hash[b := Some(x)][c], chains'[c]) && Backs(p, chains'[c]) && NoDup(chains'[c])
    {
      HeadOfChain(next, hash[b], chains[b]);
      if c == b {
        PushChain(next, hash[b], chains[b], x);
        PushBacks(prev, chains[b], x);
      } else {
        assert x !in chains[c];
        if hash[b].Some? {
          Apart(text, chains, b, c, hash[b].value);
        }
        ChainOther(next, hash[c], chains[c], x, hash[b]);
        BacksOther(prev, chains[c], x, hash[b]);
      }
    }
  }

  lemma HeadOfChain(next: Links, head: Option<Ref>, q: seq<Ref>)
    requires Chain(next, head, q)
    ensures head == First(q) && (head.Some? ==> head.value in q)
  {
  }

  lemma ChainOther(next: Links, head: Option<Ref>, q: seq<Ref>, x: Ref, v: Option<Ref>)
    requires Chain(next, head, q) && x !in q
    ensures Chain(next[x := v], head, q)
  {
    ChainFrame(next, next[x := v], head, q);
  }

  lemma BacksOther(prev: Links, q: seq<Ref>, x: Ref, y: Option<Ref>)
    requires Backs(prev, q) && x !in q && (y.Some? ==> y.value !in q)
    ensures Backs(PushPrev(prev, y, x), q)
  {
    BacksFrame(prev, PushPrev(prev, y, x), q);
  }

  lemma CutOther(next: Links, prev: Links, head: Option<Ref>, q: seq<Ref>, x: Ref)
    requires Chain(next, head, q) && Backs(prev, q) && x in next && x in prev
    requires (prev[x].Some? ==> prev[x].value !in q) && (next[x].Some? ==> next[x].value !in q)
    ensures Chain(CutNext(next, prev, x), head, q) && Backs(CutPrev(next, prev, x), q)
  {
    assert forall y :: y in q ==> y in next && y in prev;
    ChainFrame(next, CutNext(next, prev, x), head, q);
    BacksFrame(prev, CutPrev(next, prev, x), q);
  }

  /** Taking x out of its bucket. */
  lemma CutBucket(text: map<Ref, Bytes>, next: Links, prev: Links, hash: seq<Option<Ref>>, chains: seq<seq<Ref>>, x: Ref)
    requires Linked(next, prev, hash, chains) && Placed(text, chains) && Complete(text, chains) && x in text
    ensures x in next && x in prev && (prev[x].None? ==> hash[Bucket(text[x], |chains|)] == Some(x))
    ensures var b := Bucket(text[x], |chains|); var chains' := chains[b := Without(chains[b], x)];
      && Linked(CutNext(next, prev, x), CutPrev(next, prev, x), if prev[x].Some? then hash else hash[b := next[x]], chains')
      && Placed(text, chains') && x !in chains'[b] && (forall y :: y in chains[b] && y != x ==> y in chains'[b])
  {
    hide Bucket, Chain, Backs, Without;
    var b := Bucket(text[x], |chains|);
    var q := chains[b];
    assert x in q && Chain(next, hash[b], q) && Backs(prev, q) && NoDup(q);
    var k := IndexOf(q, x);
    WithoutAt(q, k);
    Neighbours(next, prev, hash[b], q, k);
    var n, p := CutNext(next, prev, x), CutPrev(next, prev, x);
    var hash' := if prev[x].Some? then hash else hash[b := next[x]];
    var chains' := chains[b := Without(q, x)];
    forall c {:trigger chains'[c]} | 0 <= c < |chains'|
      ensures Chain(n, hash'[c], chains'[c]) && Backs(p, chains'[c]) && NoDup(chains'[c])
    {
      if c == b {
        UnlinkChain(next, hash[b], q, k);
        UnlinkBacks(prev, q, k);
      } else {
        if prev[x].Some? {
          Apart(text, chains, b, c, prev[x].value);
        }
        if next[x].Some? {
          Apart(text, chains, b, c, next[x].value);
        }
        CutOther(next, prev, hash[c], chains[c], x);
      }
    }
  }

  lemma Neighbours(next: Links, prev: Links, head: Option<Ref>, q: seq<Ref>, k: nat)
    requires Chain(next, head, q) && Backs(prev, q) && k < |q|
    ensures q[k] in next && q[k] in prev && next[q[k]] == After(q, k) && prev[q[k]] == Before(q, k)
    ensures next[q[k]].Some? ==> next[q[k]].value in q
    ensures prev[q[k]].Some? ==> prev[q[k]].value in q
    ensures prev[q[k]].None? ==> k == 0 && head == Some(q[k])
  {
  }

  // ---------------------------------------------------------------------- resizing

  lemma EmptyBuckets(text: map<Ref, Bytes>, next: Links, prev: Links, size: nat)
    ensures Linked(next, prev, seq(size, _ => None), seq(size, _ => []))
    ensures Placed(text, seq(size, _ => []))
  {
  }

  /** While strings move: the first i old buckets and k strings of the next one are in
      the new table, and the links of the others are as they were. */
  ghost predicate MovedFrom(text: map<Ref, Bytes>, next0: Links, next: Links, chains: seq<seq<Ref>>, i: nat, k: nat, newchains: seq<seq<Ref>>) {
    && |newchains| > 0 && i <= |chains| && (k > 0 ==> i < |chains| && k <= |chains[i]|)
    && (forall c, j :: 0 <= c < |chains| && 0 <= j < |chains[c]| ==>
          var x := chains[c][j];
          && x in text
          && (x in newchains[Bucket(text[x], |newchains|)] <==> c < i || (c == i && j < k))
          && (x !in newchains[Bucket(text[x], |newchains|)] ==> x in next && x in next0 && next[x] == next0[x]))
  }

  /** The next string to move. */
  lemma MoveReady(text: map<Ref, Bytes>, next0: Links, next: Links, prev0: Links, hash: seq<Option<Ref>>, chains: seq<seq<Ref>>, i: nat, k: nat,
                  newchains: seq<seq<Ref>>)
    requires MovedFrom(text, next0, next, chains, i, k, newchains) && i < |chains| && k < |chains[i]|
    requires Linked(next0, prev0, hash, chains)
    ensures var x := chains[i][k];
      x in text && x !in newchains[Bucket(text[x], |newchains|)] && x in next && next[x] == After(chains[i], k)
  {
    hide Bucket;
  }

  /** Where a string stands is unique. */
  lemma SamePlace(text: map<Ref, Bytes>, next: Links, prev: Links, hash: seq<Option<Ref>>, chains: seq<seq<Ref>>, c: nat, j: nat, i: nat, k: nat)
    requires Linked(next, prev, hash, chains) && Placed(text, chains)
    requires c < |chains| && j < |chains[c]| && i < |chains| && k < |chains[i]| && chains[c][j] == chains[i][k]
    ensures c == i && j == k
  {
    hide Bucket, Placed, Chain, Backs;
    if c != i {
      assert chains[c][j] in chains[c];
      Apart(text, chains, c, i, chains[c][j]);
    }
    assert NoDup(chains[i]);
  }

  lemma OnePlace(text: map<Ref, Bytes>, next: Links, prev: Links, hash: seq<Option<Ref>>, chains: seq<seq<Ref>>, i: nat, k: nat)
    requires Linked(next, prev, hash, chains) && Placed(text, chains) && i < |chains| && k < |chains[i]|
    ensures forall c, j :: 0 <= c < |chains| && 0 <= j < |chains[c]| && chains[c][j] == chains[i][k] ==> c == i && j == k
  {
    hide Bucket, Linked, Placed;
    forall c, j | 0 <= c < |chains| && 0 <= j < |chains[c]| && chains[c][j] == chains[i][k]
      ensures c == i && j == k
    {
      SamePlace(text, next, prev, hash, chains, c, j, i, k);
    }
  }

  lemma MoveStep(text: map<Ref, Bytes>, next0: Links, next: Links, chains: seq<seq<Ref>>, i: nat, k: nat, newchains: seq<seq<Ref>>, head: Option<Ref>)
    requires MovedFrom(text, next0, next, chains, i, k, newchains) && i < |chains| && k < |chains[i]|
    requires forall c, j :: 0 <= c < |chains| && 0 <= j < |chains[c]| && chains[c][j] == chains[i][k] ==> c == i && j == k
    ensures chains[i][k] in text
    ensures var x := chains[i][k];
      var b := Bucket(text[x], |newchains|);
      MovedFrom(text, next0, PushNext(next, head, x), chains, i, k + 1, newchains[b := [x] + newchains[b]])
  {
    hide Bucket;
    var x := chains[i][k];
    var b := Bucket(text[x], |newchains|);
    var more := newchains[b := [x] + newchains[b]];
    forall c, j | 0 <= c < |chains| && 0 <= j < |chains[c]|
      ensures var y := chains[c][j];
        && y in text
        && (y in more[Bucket(text[y], |more|)] <==> c < i || (c == i && j < k + 1))
        && (y !in more[Bucket(text[y], |more|)] ==> y in PushNext(next, head, x) && y in next0 && PushNext(next, head, x)[y] == next0[y])
    {
      var y := chains[c][j];
      var d := Bucket(text[y], |newchains|);
      assert y in more[d] <==> y in newchains[d] || y == x;
    }
  }

  lemma MoveRow(text: map<Ref, Bytes>, next0: Links, next: Links, chains: seq<seq<Ref>>, i: nat, newchains: seq<seq<Ref>>)
    requires i < |chains| && MovedFrom(text, next0, next, chains, i, |chains[i]|, newchains)
    ensures MovedFrom(text, next0, next, chains, i + 1, 0, newchains)
  {
    hide Bucket;
  }

  lemma MovedAll(text: map<Ref, Bytes>, next0: Links, next: Links, chains: seq<seq<Ref>>, newchains: seq<seq<Ref>>)
    requires MovedFrom(text, next0, next, chains, |chains|, 0, newchains) && Complete(text, chains)
    ensures Complete(text, newchains)
  {
    hide Bucket;
    forall x | x in text
      ensures x in newchains[Bucket(text[x], |newchains|)]
    {
      var c := Bucket(text[x], |chains|);
      var j :| 0 <= j < |chains[c]| && chains[c][j] == x;
    }
  }

  lemma MovedNone(text: map<Ref, Bytes>, next: Links, prev: Links, hash: seq<Option<Ref>>, chains: seq<seq<Ref>>, size: nat)
    requires Linked(next, prev, hash, chains) && Placed(text, chains) && size > 0
    ensures MovedFrom(text, next, next, chains, 0, 0, seq(size, _ => []))
  {
    hide Bucket;
    forall c, j | 0 <= c < |chains| && 0 <= j < |chains[c]|
      ensures chains[c][j] in text && chains[c][j] in next
    {
      assert chains[c][j] in chains[c];
      assert Chain(next, hash[c], chains[c]);
    }
  }

  // ------------------------------------------------------------- adding and freeing

  /** x with a new content is in no bucket yet. */
  lemma NewText(text: map<Ref, Bytes>, next: Links, prev: Links, hash: seq<Option<Ref>>, chains: seq<seq<Ref>>, x: Ref, str: Bytes)
    requires Placed(text, chains) && Unique(text) && x !in text && |chains| > 0 && forall y :: y in text ==> text[y] != str
    ensures Placed(text[x := str], chains) && Unique(text[x := str])
    ensures forall b :: 0 <= b < |chains| ==> x !in chains[b]
    ensures |text[x := str]| == |text| + 1
  {
    hide Bucket;
    assert text[x := str].Keys == text.Keys + {x};
    assert |text[x := str]| == |text[x := str].Keys| && |text| == |text.Keys|;
  }

  lemma NewComplete(text: map<Ref, Bytes>, chains: seq<seq<Ref>>, x: Ref, str: Bytes)
    requires Complete(text, chains) && x !in text
    ensures var b := Bucket(str, |chains|); Complete(text[x := str], chains[b := [x] + chains[b]])
  {
    hide Bucket;
  }

  /** The string at place k of one bucket. */
  lemma BucketList(text: map<Ref, Bytes>, next: Links, prev: Links, hash: seq<Option<Ref>>, chains: seq<seq<Ref>>, b: nat, k: nat)
    requires Linked(next, prev, hash, chains) && Placed(text, chains) && b < |chains|
    ensures |hash| == |chains| && hash[b] == First(chains[b])
    ensures k < |chains[b]| ==> chains[b][k] in text && chains[b][k] in next && next[chains[b][k]] == After(chains[b], k)
  {
    hide Bucket;
    assert Chain(next, hash[b], chains[b]);
    assert k < |chains[b]| ==> chains[b][k] in chains[b];
  }

  lemma NotThere(text: map<Ref, Bytes>, chains: seq<seq<Ref>>, str: Bytes)
    requires Complete(text, chains)
    requires var q := chains[Bucket(str, |chains|)]; forall j :: 0 <= j < |q| ==> q[j] in text && text[q[j]] != str
    ensures forall y :: y in text ==> text[y] != str
  {
    hide Bucket;
  }

  lemma FreedText(text: map<Ref, Bytes>, next: Links, prev: Links, hash: seq<Option<Ref>>, chains: seq<seq<Ref>>, chains': seq<seq<Ref>>, x: Ref)
    requires Complete(text, chains) && Unique(text) && Placed(text, chains') && x in text && |chains'| == |chains|
    requires var b := Bucket(text[x], |chains|);
      && x !in chains'[b] && (forall y :: y in chains[b] && y != x ==> y in chains'[b])
      && (forall c :: 0 <= c < |chains| && c != b ==> chains'[c] == chains[c])
    ensures Complete(text - {x}, chains') && Unique(text - {x}) && Placed(text - {x}, chains') && |text - {x}| == |text| - 1
  {
    hide Bucket;
    assert (text - {x}).Keys == text.Keys - {x};
    assert |text - {x}| == |(text - {x}).Keys| && |text| == |text.Keys|;
  }

  // -------------------------------------------------------------------- the table

  class Table {
    var text: map<Ref, Bytes>
    var next: Links
    var prev: Links
    var hash: seq<Option<Ref>>
    var nuse: nat
    var dead: set<Ref>
    var sweeping: bool
    ghost var chains: seq<seq<Ref>>

    constructor (size: nat)
      requires IsPow2(size) && size <= MAX_INT
      ensures Valid() && text == map[] && |hash| == size
    {
      text, next, prev := map[], map[], map[];
      hash, nuse, dead, sweeping := seq(size, _ => None), 0, {}, false;
      chains := seq(size, _ => []);
    }

    ghost predicate Valid()
      reads this
    {
      && IsPow2(|hash|) && 0 < |hash| == |chains| <= MAX_INT && Linked(next, prev, hash, chains)
      && Placed(text, chains) && Complete(text, chains) && Unique(text) && nuse == |text|
    }

    /** luaS_resize: every string moves to its bucket in the new table; none is lost, and
        no content changes. */
    method Resize(newsize: nat)
      requires Valid() && IsPow2(newsize) && newsize <= MAX_INT
      modifies this`next, this`prev, this`hash, this`chains
      ensures Valid() && (!sweeping ==> |hash| == newsize) && (sweeping ==> hash == old(hash))
    {
      hide Bucket, Chain, Backs, Linked, Placed, Complete, Unique, MovedFrom, Lmod, Hash, IsPow2;
      LmodRemainder(0, newsize);
      if sweeping {
        return;
      }
      var newhash := seq(newsize, _ => None);
      ghost var newchains: seq<seq<Ref>> := seq(newsize, _ => []);
      EmptyBuckets(text, next, prev, newsize);
      MovedNone(text, next, prev, hash, chains, newsize);
      ghost var size := |hash|;
      var i := 0;
      while i < |hash|
        invariant hash == old(hash) && chains == old(chains)
        invariant 0 <= i <= |hash| == size && |newhash| == |newchains| == newsize
        invariant Linked(next, prev, newhash, newchains) && Placed(text, newchains)
        invariant MovedFrom(text, old(next), next, chains, i, 0, newchains)
      {
        var p := hash[i];
        ghost var k := 0;
        BucketList(text, old(next), old(prev), hash, chains, i, 0);
        while p.Some?
          invariant hash == old(hash) && chains == old(chains)
          invariant 0 <= k <= |chains[i]| && p == (if k < |chains[i]| then Some(chains[i][k]) else None)
          invariant |newhash| == |newchains| == newsize
          invariant Linked(next, prev, newhash, newchains) && Placed(text, newchains)
          invariant MovedFrom(text, old(next), next, chains, i, k, newchains)
          decreases |chains[i]| - k
        {
          var x := p.value;
          MoveReady(text, old(next), next, old(prev), hash, chains, i, k, newchains);
          var following := next[x];
          var h1 := Lmod(Hash(text[x]), newsize);
          BucketIs(text[x], newsize);
          LmodRemainder(Hash(text[x]), newsize);
          assert Hash(text[x]) % newsize == h1;
          PushBucket(text, next, prev, newhash, newchains, x);
          OnePlace(text, old(next), old(prev), hash, chains, i, k);
          MoveStep(text, old(next), next, chains, i, k, newchains, newhash[h1]);
          var head := newhash[h1];
          next := next[x := head];
          prev := prev[x := None];
          if head.Some? {
            prev := prev[head.value := Some(x)];
          }
          newhash := newhash[h1 := Some(x)];
          newchains := newchains[h1 := [x] + newchains[h1]];
          p := following;
          k := k + 1;
        }
        MoveRow(text, old(next), next, chains, i, newchains);
        i := i + 1;
      }
      MovedAll(text, old(next), next, chains, newchains);
      hash := newhash;
      chains := newchains;
    }

    /** newlstr: a string object x for a content that is not in the table yet.  A
        table with more strings than buckets doubles, unless it is swept or too large. */
    method NewLStr(x: Ref, str: Bytes)
      requires Valid() && x !in text && forall y :: y in text ==> text[y] != str
      modifies this`text, this`next, this`prev, this`hash, this`nuse, this`chains
      ensures Valid() && text == old(text)[x := str] && nuse == old(nuse) + 1
      ensures |hash| == if !sweeping && nuse > |old(hash)| && |old(hash)| <= MAX_INT / 2 then 2 * |old(hash)| else |old(hash)|
    {
      hide Bucket, Chain, Backs, Linked, Placed, Complete, Unique, IsPow2;
      Pow2Steps(|hash|);
      ghost var before := text;
      NewText(before, next, prev, hash, chains, x, str);
      text := text[x := str];
      var h := Bucket(str, |hash|);
      PushBucket(text, next, prev, hash, chains, x);
      NewComplete(before, chains, x, str);
      var head := hash[h];
      prev := prev[x := None];
      if head.Some? {
        prev := prev[head.value := Some(x)];
      }
      next := next[x := head];
      hash := hash[h := Some(x)];
      chains := chains[h := [x] + chains[h]];
      nuse := nuse + 1;
      if nuse > |hash| && |hash| <= MAX_INT / 2 {
        Resize(|hash| * 2);
      }
    }

    /** The search of luaS_newlstr through one bucket. */
    method Search(str: Bytes) returns (o: Option<Ref>)
      requires Valid()
      ensures o.Some? ==> o.value in text && text[o.value] == str
      ensures o.None? ==> forall y :: y in text ==> text[y] != str
    {
      hide Bucket, Chain, Backs, Linked, Placed, Complete, Unique, Hash, Lmod, IsPow2;
      var h := HashString(str);
      var b := Lmod(h, |hash|);
      BucketIs(str, |hash|);
      ghost var q, k := chains[b], 0;
      BucketList(text, next, prev, hash, chains, b, 0);
      o := hash[b];
      while o.Some?
        invariant 0 <= k <= |q| && o == (if k < |q| then Some(q[k]) else None)
        invariant forall j :: 0 <= j < k ==> q[j] in text && text[q[j]] != str
        decreases |q| - k
      {
        BucketList(text, next, prev, hash, chains, b, k);
        if text[o.value] == str {
          return;
        }
        o := next[o.value];
        k := k + 1;
      }
      NotThere(text, chains, str);
    }

    /** luaS_newlstr: the one string with this content, brought back to life when it was
        dead.  `unused` is the object that is allocated when there is none. */
    method Intern(str: Bytes, unused: Ref) returns (s: Ref)
      requires Valid() && unused !in text
      modifies this
      ensures Valid() && s in text && text[s] == str && s !in dead
      ensures s in old(text) ==> text == old(text) && dead == old(dead) - {s}
      ensures s !in old(text) ==> s == unused && text == old(text)[s := str] && forall y :: y in old(text) ==> old(text)[y] != str
    {
      hide Bucket, Chain, Backs, Linked, Placed, Complete, Unique, IsPow2;
      var o := Search(str);
      if o.Some? {
        dead := dead - {o.value};
        return o.value;
      }
      dead := dead - {unused};
      NewLStr(unused, str);
      s := unused;
    }

    /** luarc_freestring, and the same removal by the sweep. */
    method FreeString(x: Ref)
      requires Valid() && x in text
      modifies this
      ensures Valid() && text == old(text) - {x} && |hash| == |old(hash)|
    {
      hide Bucket, Chain, Backs, Linked, Placed, Complete, Unique, IsPow2;
      var b := Bucket(text[x], |hash|);
      CutBucket(text, next, prev, hash, chains, x);
      ghost var chains' := chains[b := Without(chains[b], x)];
      FreedText(text, next, prev, hash, chains, chains', x);
      var n := next[x];
      if prev[x].Some? {
        next := next[prev[x].value := next[x]];
      } else {
        hash := hash[b := next[x]];
      }
      if n.Some? {
        prev := prev[n.value := prev[x]];
      }
      nuse := nuse - 1;
      dead := dead - {x};
      text := text - {x};
      chains := chains';
    }

    /** The part of checkSizes that looks at the string table. */
    method CheckSizes()
      requires Valid()
      modifies this`next, this`prev, this`hash, this`chains
      ensures Valid()
      ensures |hash| == if !sweeping && nuse < |old(hash)| / 4 && |old(hash)| > MINSTRTABSIZE * 2 then |old(hash)| / 2 else |old(hash)|
    {
      hide Linked, Placed, Complete, Unique, IsPow2;
      Pow2Steps(|hash|);
      if nuse < |hash| / 4 && |hash| > MINSTRTABSIZE * 2 {
        Resize(|hash| / 2);
      }
    }

    /** Equal contents are the same object. */
    lemma PointerIsContent(x: Ref, y: Ref)
      requires Valid() && x in text && y in text
      ensures x == y <==> text[x] == text[y]
    {
    }
  }
}
