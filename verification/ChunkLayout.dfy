/** Precompiled chunks by their bytes and offsets: which bytes a dump consists of,
    and what is read from given ones (src/ldump.c:30-163, src/lundump.c:36-230,
    src/lundump.h:27-34, src/lua.h:72-82). */
module ChunkLayout {
  import opened Seqs
  import opened ChunkFormat
  import opened ChunkTrip

  // ------------------------------------------------------------- numbers in place

  /** The four bytes at i, the lowest first. */
  function Int32At(bs: Bytes, i: nat): nat
    requires i + 4 <= |bs|
  {
    var b0: int, b1: int, b2: int, b3: int := bs[i], bs[i + 1], bs[i + 2], bs[i + 3];
    b0 + 0x100 * b1 + 0x1_0000 * b2 + 0x100_0000 * b3
  }

  /** The eight bytes at i, the lowest first. */
  function Int64At(bs: Bytes, i: nat): nat
    requires i + 8 <= |bs|
  {
    Int32At(bs, i) + 0x1_0000_0000 * Int32At(bs, i + 4)
  }

  lemma Decode4(bs: Bytes, i: nat)
    requires i + 4 <= |bs|
    ensures Decode(bs[i..i + 4]) == Int32At(bs, i)
  {
    var b := bs[i..i + 4];
    assert b[1..][0] == bs[i + 1] && b[1..][1..][0] == bs[i + 2] && b[1..][1..][1..][0] == bs[i + 3];
    assert Decode(b[1..][1..][1..][1..]) == 0;
    assert Decode(b[1..][1..][1..]) == bs[i + 3];
    assert Decode(b[1..][1..]) == (bs[i + 2] as int) + 0x100 * (bs[i + 3] as int);
  }

  lemma {:induction false} DecodeSplit(a: Bytes, b: Bytes)
    ensures Decode(a + b) == Decode(a) + Pow256(|a|) * Decode(b)
  {
    if a == [] {
      assert a + b == b;
    } else {
      DecodeSplit(a[1..], b);
      assert (a + b)[1..] == a[1..] + b;
      assert Pow256(|a|) * Decode(b) == 256 * (Pow256(|a| - 1) * Decode(b));
    }
  }

  lemma Decode8(bs: Bytes, i: nat)
    requires i + 8 <= |bs|
    ensures Decode(bs[i..i + 8]) == Int64At(bs, i)
  {
    hide Decode;
    Limits();
    Decode4(bs, i);
    Decode4(bs, i + 4);
    DecodeSplit(bs[i..i + 4], bs[i + 4..i + 8]);
    assert bs[i..i + 8] == bs[i..i + 4] + bs[i + 4..i + 8];
  }

  // ------------------------------------------------------------- parts in place

  /** The bytes of `part` stand at i. */
  predicate Has(bs: Bytes, i: nat, part: Bytes) {
    i + |part| <= |bs| && bs[i..i + |part|] == part
  }

  lemma HasBoth(bs: Bytes, i: nat, a: Bytes, b: Bytes)
    ensures Has(bs, i, a + b) <==> Has(bs, i, a) && Has(bs, i + |a|, b)
  {
    if i + |a + b| <= |bs| {
      var c := bs[i..i + |a + b|];
      assert c == bs[i..i + |a|] + bs[i + |a|..i + |a| + |b|];
      if Has(bs, i, a + b) {
        assert bs[i..i + |a|] == (a + b)[..|a|];
        assert bs[i + |a|..i + |a| + |b|] == (a + b)[|a|..];
      }
    }
  }

  lemma HasInt(bs: Bytes, i: nat, x: nat)
    requires x < WORD_LIMIT
    ensures |Encode(x, 4)| == 4
    ensures Has(bs, i, Encode(x, 4)) <==> i + 4 <= |bs| && Int32At(bs, i) == x
  {
    hide Encode, Decode, Pow256;
    Limits();
    EncodeDecode(x, 4);
    if i + 4 <= |bs| {
      Decode4(bs, i);
      DecodeEncode(bs[i..i + 4]);
    }
  }

  lemma HasLong(bs: Bytes, i: nat, x: nat)
    requires x < SIZE_LIMIT
    ensures |Encode(x, 8)| == 8
    ensures Has(bs, i, Encode(x, 8)) <==> i + 8 <= |bs| && Int64At(bs, i) == x
  {
    hide Encode, Decode, Pow256;
    Limits();
    EncodeDecode(x, 8);
    if i + 8 <= |bs| {
      Decode8(bs, i);
      DecodeEncode(bs[i..i + 8]);
    }
  }

  // --------------------------------------------------------------------- strings

  function NameSize(s: Name): nat {
    if s.None? then 8 else 8 + |s.value| + 1
  }

  /** A null pointer is a size of zero; any other string is its size, with the
      final zero, its bytes, and the zero. */
  predicate NameAt(bs: Bytes, i: nat, s: Name) {
    && i + NameSize(s) <= |bs|
    && if s.None? then Int64At(bs, i) == 0
       else
         && Int64At(bs, i) == |s.value| + 1
         && bs[i + 8..i + 8 + |s.value|] == s.value
         && bs[i + 8 + |s.value|] == 0
  }

  lemma NameExact(bs: Bytes, i: nat, s: Name)
    requires NameFits(s)
    ensures |DumpString(s)| == NameSize(s)
    ensures NameAt(bs, i, s) <==> Has(bs, i, DumpString(s))
  {
    hide Encode, Int64At;
    if s.None? {
      HasLong(bs, i, 0);
    } else {
      var t := s.value;
      HasLong(bs, i, |t| + 1);
      HasBoth(bs, i, Encode(|t| + 1, 8), t + [0]);
      HasBoth(bs, i + 8, t, [0]);
    }
  }

  // ------------------------------------------------------------------- constants

  function ConstantSize(k: Constant): nat {
    match k
    case NilConstant => 1
    case Boolean(_) => 2
    case Number(_) => 9
    case Str(s) => 1 + NameSize(s)
  }

  /** The tag of a constant is that of its type: nil 0, boolean 1, number 3,
      string 4. */
  predicate ConstantAt(bs: Bytes, i: nat, k: Constant) {
    && i + ConstantSize(k) <= |bs|
    && match k
       case NilConstant => bs[i] == 0
       case Boolean(b) => bs[i] == 1 && bs[i + 1] == if b then 1 else 0
       case Number(n) => bs[i] == 3 && Int64At(bs, i + 1) == n
       case Str(s) => bs[i] == 4 && NameAt(bs, i + 1, s)
  }

  lemma HasByte(bs: Bytes, i: nat, b: Byte)
    ensures Has(bs, i, [b]) <==> i < |bs| && bs[i] == b
  {
  }

  lemma ConstantExact(bs: Bytes, i: nat, k: Constant)
    requires ConstantFits(k)
    ensures |DumpConstant(k)| == ConstantSize(k)
    ensures ConstantAt(bs, i, k) <==> Has(bs, i, DumpConstant(k))
  {
    hide Encode, Int64At, Has, NameAt, DumpString, NameSize;
    match k
    case NilConstant => HasByte(bs, i, 0);
    case Boolean(b) =>
      HasBoth(bs, i, [1], [DumpBool(b)]);
      HasByte(bs, i, 1);
      HasByte(bs, i + 1, DumpBool(b));
      assert [1, DumpBool(b)] == [1] + [DumpBool(b)];
    case Number(n) =>
      HasBoth(bs, i, [3], Encode(n, 8));
      HasByte(bs, i, 3);
      HasLong(bs, i + 1, n);
    case Str(s) =>
      HasBoth(bs, i, [4], DumpString(s));
      HasByte(bs, i, 4);
      NameExact(bs, i + 1, s);
      NameInside(bs, i + 1, s);
  }

  lemma NameInside(bs: Bytes, i: nat, s: Name)
    ensures NameAt(bs, i, s) ==> i + NameSize(s) <= |bs|
  {
  }

  // ----------------------------------------------------------------------- lists

  /** A vector is its length and its words. */
  predicate WordsAt(bs: Bytes, i: nat, ws: seq<Word>) {
    && i + 4 + 4 * |ws| <= |bs|
    && Int32At(bs, i) == |ws|
    && (forall n :: 0 <= n < |ws| ==> Int32At(bs, i + 4 + 4 * n) == ws[n])
  }

  lemma {:induction false} WordsExact(bs: Bytes, i: nat, ws: seq<Word>)
    ensures Has(bs, i, DumpWords(ws)) <==>
              i + 4 * |ws| <= |bs| && forall n :: 0 <= n < |ws| ==> Int32At(bs, i + 4 * n) == ws[n]
    decreases |ws|
  {
    hide Encode, Int32At;
    if ws != [] {
      HasBoth(bs, i, Encode(ws[0], 4), DumpWords(ws[1..]));
      HasInt(bs, i, ws[0]);
      WordsExact(bs, i + 4, ws[1..]);
      if i + 4 * |ws| <= |bs| {
        WordsSplit(bs, i, ws);
      }
    }
  }

  lemma WordsSplit(bs: Bytes, i: nat, ws: seq<Word>)
    requires ws != [] && i + 4 * |ws| <= |bs|
    ensures (forall n :: 0 <= n < |ws| ==> Int32At(bs, i + 4 * n) == ws[n]) <==>
              Int32At(bs, i) == ws[0] && forall n :: 0 <= n < |ws| - 1 ==> Int32At(bs, i + 4 + 4 * n) == ws[1..][n]
  {
    hide Int32At;
    if Int32At(bs, i) == ws[0] && forall n :: 0 <= n < |ws| - 1 ==> Int32At(bs, i + 4 + 4 * n) == ws[1..][n] {
      forall n | 0 <= n < |ws|
        ensures Int32At(bs, i + 4 * n) == ws[n]
      {
        if n > 0 {
          assert i + 4 + 4 * (n - 1) == i + 4 * n;
        }
      }
    }
    if forall n :: 0 <= n < |ws| ==> Int32At(bs, i + 4 * n) == ws[n] {
      assert Int32At(bs, i + 4 * 0) == ws[0];
      forall n | 0 <= n < |ws| - 1
        ensures Int32At(bs, i + 4 + 4 * n) == ws[1..][n]
      {
        assert i + 4 + 4 * n == i + 4 * (n + 1);
      }
    }
  }

  lemma VectorExact(bs: Bytes, i: nat, ws: seq<Word>)
    requires |ws| < INT_LIMIT
    ensures |DumpVector(ws)| == 4 + 4 * |ws|
    ensures WordsAt(bs, i, ws) <==> Has(bs, i, DumpVector(ws))
  {
    hide Encode, Int32At, Has;
    HasBoth(bs, i, DumpInt(|ws|), DumpWords(ws));
    HasInt(bs, i, |ws|);
    WordsExact(bs, i + 4, ws);
  }

  function ItemsSize<T>(size: T -> nat, ts: seq<T>): nat {
    if ts == [] then 0 else ItemsSize(size, ts[..|ts| - 1]) + size(ts[|ts| - 1])
  }

  /** Items one behind the other. */
  predicate ItemsAt<T>(at: (Bytes, nat, T) -> bool, size: T -> nat, bs: Bytes, i: nat, ts: seq<T>) {
    ts == [] ||
    (var init := ts[..|ts| - 1];
     ItemsAt(at, size, bs, i, init) && at(bs, i + ItemsSize(size, init), ts[|ts| - 1]))
  }

  /** A list is its length and its items. */
  predicate ListAt<T>(at: (Bytes, nat, T) -> bool, size: T -> nat, bs: Bytes, i: nat, ts: seq<T>) {
    i + 4 <= |bs| && Int32At(bs, i) == |ts| && ItemsAt(at, size, bs, i + 4, ts)
  }

  function ListSize<T>(size: T -> nat, ts: seq<T>): nat {
    4 + ItemsSize(size, ts)
  }

  ghost predicate Exact<T>(at: (Bytes, nat, T) -> bool, size: T -> nat, dump: T -> Bytes, t: T) {
    |dump(t)| == size(t) && forall bs: Bytes, i: nat :: at(bs, i, t) <==> Has(bs, i, dump(t))
  }

  lemma {:induction false} ItemsExact<T>(at: (Bytes, nat, T) -> bool, size: T -> nat, dump: T -> Bytes, bs: Bytes, i: nat, ts: seq<T>)
    requires i <= |bs| && forall t :: t in ts ==> Exact(at, size, dump, t)
    ensures |DumpItems(dump, ts)| == ItemsSize(size, ts)
    ensures ItemsAt(at, size, bs, i, ts) <==> Has(bs, i, DumpItems(dump, ts))
  {
    hide Has;
    if ts == [] {
      HasNothing(bs, i);
    } else {
      var init, last := ts[..|ts| - 1], ts[|ts| - 1];
      ItemsExact(at, size, dump, bs, i, init);
      HasBoth(bs, i, DumpItems(dump, init), dump(last));
      assert Exact(at, size, dump, last);
    }
  }

  lemma HasNothing(bs: Bytes, i: nat)
    ensures Has(bs, i, []) <==> i <= |bs|
  {
  }

  lemma ListExact<T>(at: (Bytes, nat, T) -> bool, size: T -> nat, dump: T -> Bytes, bs: Bytes, i: nat, ts: seq<T>)
    requires |ts| < INT_LIMIT && forall t :: t in ts ==> Exact(at, size, dump, t)
    ensures |DumpList(dump, ts)| == ListSize(size, ts)
    ensures ListAt(at, size, bs, i, ts) <==> Has(bs, i, DumpList(dump, ts))
  {
    hide Encode, Int32At, Has, DumpItems, ItemsAt, ItemsSize, Exact;
    HasBoth(bs, i, DumpInt(|ts|), DumpItems(dump, ts));
    HasInt(bs, i, |ts|);
    if i + 4 <= |bs| {
      ItemsExact(at, size, dump, bs, i + 4, ts);
    } else {
      ItemsExact(at, size, dump, [], 0, ts);
    }
  }

  lemma ConstantsExact(bs: Bytes, i: nat, ks: seq<Constant>)
    requires |ks| < INT_LIMIT && forall n :: 0 <= n < |ks| ==> ConstantFits(ks[n])
    ensures |DumpList(DumpConstant, ks)| == ListSize(ConstantSize, ks)
    ensures ListAt(ConstantAt, ConstantSize, bs, i, ks) <==> Has(bs, i, DumpList(DumpConstant, ks))
  {
    hide Has, DumpConstant, ConstantAt, ConstantSize, DumpList, ListAt, ListSize, ConstantFits;
    forall k | k in ks
      ensures Exact(ConstantAt, ConstantSize, DumpConstant, k)
    {
      assert ConstantFits(k);
      forall b: Bytes, j: nat
        ensures |DumpConstant(k)| == ConstantSize(k) && (ConstantAt(b, j, k) <==> Has(b, j, DumpConstant(k)))
      {
        ConstantExact(b, j, k);
      }
      ConstantExact([], 0, k);
    }
    ListExact(ConstantAt, ConstantSize, DumpConstant, bs, i, ks);
  }

  // ------------------------------------------------------------------ debug data

  function LocVarSize(v: LocVar): nat {
    NameSize(v.varname) + 8
  }

  predicate LocVarAt(bs: Bytes, i: nat, v: LocVar) {
    var j := i + NameSize(v.varname);
    && NameAt(bs, i, v.varname)
    && j + 8 <= |bs| && Int32At(bs, j) == v.startpc && Int32At(bs, j + 4) == v.endpc
  }

  lemma LocVarExact(bs: Bytes, i: nat, v: LocVar)
    requires LocVarFits(v)
    ensures |DumpLocVar(v)| == LocVarSize(v)
    ensures LocVarAt(bs, i, v) <==> Has(bs, i, DumpLocVar(v))
  {
    hide Encode, Int32At, Has, NameAt, DumpString, NameSize;
    var j := i + NameSize(v.varname);
    NameExact(bs, i, v.varname);
    HasBoth(bs, i, DumpString(v.varname), DumpInt(v.startpc) + DumpInt(v.endpc));
    HasBoth(bs, j, DumpInt(v.startpc), DumpInt(v.endpc));
    HasInt(bs, j, v.startpc);
    HasInt(bs, j + 4, v.endpc);
  }

  lemma LocVarsExact(bs: Bytes, i: nat, vs: seq<LocVar>)
    requires |vs| < INT_LIMIT && forall n :: 0 <= n < |vs| ==> LocVarFits(vs[n])
    ensures |DumpList(DumpLocVar, vs)| == ListSize(LocVarSize, vs)
    ensures ListAt(LocVarAt, LocVarSize, bs, i, vs) <==> Has(bs, i, DumpList(DumpLocVar, vs))
  {
    hide Has, DumpLocVar, LocVarAt, LocVarSize, DumpList, ListAt, ListSize, LocVarFits;
    forall v | v in vs
      ensures Exact(LocVarAt, LocVarSize, DumpLocVar, v)
    {
      assert LocVarFits(v);
      forall b: Bytes, j: nat
        ensures |DumpLocVar(v)| == LocVarSize(v) && (LocVarAt(b, j, v) <==> Has(b, j, DumpLocVar(v)))
      {
        LocVarExact(b, j, v);
      }
      LocVarExact([], 0, v);
    }
    ListExact(LocVarAt, LocVarSize, DumpLocVar, bs, i, vs);
  }

  lemma NamesExact(bs: Bytes, i: nat, ns: seq<Name>)
    requires |ns| < INT_LIMIT && forall n :: 0 <= n < |ns| ==> NameFits(ns[n])
    ensures |DumpList(DumpString, ns)| == ListSize(NameSize, ns)
    ensures ListAt(NameAt, NameSize, bs, i, ns) <==> Has(bs, i, DumpList(DumpString, ns))
  {
    hide Has, DumpString, NameAt, NameSize, DumpList, ListAt, ListSize, NameFits;
    forall s | s in ns
      ensures Exact(NameAt, NameSize, DumpString, s)
    {
      assert NameFits(s);
      forall b: Bytes, j: nat
        ensures |DumpString(s)| == NameSize(s) && (NameAt(b, j, s) <==> Has(b, j, DumpString(s)))
      {
        NameExact(b, j, s);
      }
      NameExact([], 0, s);
    }
    ListExact(NameAt, NameSize, DumpString, bs, i, ns);
  }

  function DebugSize(f: Proto, strip: bool): nat {
    if strip then 12 else 4 + 4 * |f.lineinfo| + ListSize(LocVarSize, f.locvars) + ListSize(NameSize, f.upvalues)
  }

  /** Lines, local variables and names of upvalues; three empty lists when they
      are stripped. */
  predicate DebugAt(bs: Bytes, i: nat, f: Proto, strip: bool) {
    if strip then i + 12 <= |bs| && forall j :: i <= j < i + 12 ==> bs[j] == 0
    else
      var j := i + 4 + 4 * |f.lineinfo|;
      && WordsAt(bs, i, f.lineinfo)
      && ListAt(LocVarAt, LocVarSize, bs, j, f.locvars)
      && ListAt(NameAt, NameSize, bs, j + ListSize(LocVarSize, f.locvars), f.upvalues)
  }

  lemma ZeroInt(bs: Bytes, i: nat)
    requires i + 4 <= |bs|
    ensures Int32At(bs, i) == 0 <==> bs[i] == 0 && bs[i + 1] == 0 && bs[i + 2] == 0 && bs[i + 3] == 0
  {
  }

  lemma ZeroesExact(bs: Bytes, i: nat, f: Proto)
    ensures DebugAt(bs, i, f, true) <==>
              WordsAt(bs, i, []) && ListAt(LocVarAt, LocVarSize, bs, i + 4, []) && ListAt(NameAt, NameSize, bs, i + 8, [])
  {
    hide Int32At;
    if i + 12 <= |bs| {
      ZeroInt(bs, i);
      ZeroInt(bs, i + 4);
      ZeroInt(bs, i + 8);
    }
  }

  lemma DebugExact(bs: Bytes, i: nat, f: Proto, strip: bool)
    requires Sized(f)
    ensures |DumpDebug(f, strip)| == DebugSize(f, strip)
    ensures DebugAt(bs, i, f, strip) <==> Has(bs, i, DumpDebug(f, strip))
  {
    hide Has, WordsAt, ListAt, ItemsSize, DumpVector, DumpList;
    var lineinfo, locvars, upvalues := if strip then [] else f.lineinfo, if strip then [] else f.locvars, if strip then [] else f.upvalues;
    var j := i + 4 + 4 * |lineinfo|;
    var k := j + ListSize(LocVarSize, locvars);
    VectorExact(bs, i, lineinfo);
    LocVarsExact(bs, j, locvars);
    NamesExact(bs, k, upvalues);
    HasBoth(bs, i, DumpVector(lineinfo), DumpList(DumpLocVar, locvars) + DumpList(DumpString, upvalues));
    HasBoth(bs, j, DumpList(DumpLocVar, locvars), DumpList(DumpString, upvalues));
    if strip {
      ZeroesExact(bs, i, f);
      NoItems(LocVarSize);
      NoItems(NameSize);
    }
  }

  lemma NoItems<T>(size: T -> nat)
    ensures ItemsSize(size, []) == 0
  {
  }

  // ------------------------------------------------------------------- functions

  /** The source of a function is left out where it is stripped or the parent's. */
  function SourceOf(f: Proto, parent: Name, strip: bool): Name {
    if strip || parent == Some(f.source) then None else Some(f.source)
  }

  /** Source, lines, and the four bytes of sizes and flags. */
  predicate HeadAt(bs: Bytes, i: nat, f: Proto, source: Name) {
    var a := i + NameSize(source);
    && NameAt(bs, i, source)
    && a + 12 <= |bs|
    && Int32At(bs, a) == f.linedefined && Int32At(bs, a + 4) == f.lastlinedefined
    && bs[a + 8] == f.nups && bs[a + 9] == f.numparams && bs[a + 10] == f.isVararg && bs[a + 11] == f.maxstacksize
  }

  function FunctionSize(f: Proto, parent: Name, strip: bool): nat
    decreases f, 1
  {
    NameSize(SourceOf(f, parent, strip)) + 12 + (4 + 4 * |f.code|) + ListSize(ConstantSize, f.k)
    + (4 + ProtosSize(f, |f.p|, strip)) + DebugSize(f, strip)
  }

  function ProtosSize(f: Proto, n: nat, strip: bool): nat
    requires n <= |f.p|
    decreases f, 0, n
  {
    if n == 0 then 0 else ProtosSize(f, n - 1, strip) + FunctionSize(f.p[n - 1], Some(f.source), strip)
  }

  /** A function: head, code, constants, nested functions, debug data. */
  predicate FunctionAt(bs: Bytes, i: nat, f: Proto, parent: Name, strip: bool)
    decreases f, 1
  {
    var source := SourceOf(f, parent, strip);
    var code := i + NameSize(source) + 12;
    var constants := code + 4 + 4 * |f.code|;
    var nested := constants + ListSize(ConstantSize, f.k);
    var debug := nested + 4 + ProtosSize(f, |f.p|, strip);
    && HeadAt(bs, i, f, source)
    && WordsAt(bs, code, f.code)
    && ListAt(ConstantAt, ConstantSize, bs, constants, f.k)
    && nested + 4 <= |bs| && Int32At(bs, nested) == |f.p| && ProtosAt(bs, nested + 4, f, |f.p|, strip)
    && DebugAt(bs, debug, f, strip)
  }

  /** The first n nested functions of f. */
  predicate ProtosAt(bs: Bytes, i: nat, f: Proto, n: nat, strip: bool)
    requires n <= |f.p|
    decreases f, 0, n
  {
    n == 0 ||
    (ProtosAt(bs, i, f, n - 1, strip) &&
     FunctionAt(bs, i + ProtosSize(f, n - 1, strip), f.p[n - 1], Some(f.source), strip))
  }

  lemma HeadExact(bs: Bytes, i: nat, f: Proto, parent: Name, strip: bool)
    requires Sized(f)
    ensures |DumpHead(f, parent, strip)| == NameSize(SourceOf(f, parent, strip)) + 12
    ensures HeadAt(bs, i, f, SourceOf(f, parent, strip)) <==> Has(bs, i, DumpHead(f, parent, strip))
  {
    hide Encode, Int32At, Has, NameAt, DumpString, NameSize;
    var source := SourceOf(f, parent, strip);
    var a := i + NameSize(source);
    var sizes := [f.nups, f.numparams, f.isVararg, f.maxstacksize];
    NameExact(bs, i, source);
    HasBoth(bs, i, DumpString(source), DumpInt(f.linedefined) + (DumpInt(f.lastlinedefined) + sizes));
    HasBoth(bs, a, DumpInt(f.linedefined), DumpInt(f.lastlinedefined) + sizes);
    HasBoth(bs, a + 4, DumpInt(f.lastlinedefined), sizes);
    HasInt(bs, a, f.linedefined);
    HasInt(bs, a + 4, f.lastlinedefined);
    HasFour(bs, a + 8, f.nups, f.numparams, f.isVararg, f.maxstacksize);
  }

  lemma HasFour(bs: Bytes, i: nat, b0: Byte, b1: Byte, b2: Byte, b3: Byte)
    ensures Has(bs, i, [b0, b1, b2, b3]) <==>
              i + 4 <= |bs| && bs[i] == b0 && bs[i + 1] == b1 && bs[i + 2] == b2 && bs[i + 3] == b3
  {
    if i + 4 <= |bs| {
      var c := bs[i..i + 4];
      assert c[0] == bs[i] && c[1] == bs[i + 1] && c[2] == bs[i + 2] && c[3] == bs[i + 3];
    }
  }

  /** The bytes of a function stand at i exactly if its parts do, each at its place. */
  lemma {:induction false} FunctionExact(bs: Bytes, i: nat, f: Proto, parent: Name, strip: bool)
    requires Sized(f)
    ensures |DumpFunction(f, parent, strip)| == FunctionSize(f, parent, strip)
    ensures FunctionAt(bs, i, f, parent, strip) <==> Has(bs, i, DumpFunction(f, parent, strip))
    decreases f, 1
  {
    hide Encode, Int32At, Has, HeadAt, WordsAt, ListAt, ProtosAt, DebugAt, ListSize, NameSize, DebugSize, ProtosSize,
      DumpHead, DumpVector, DumpList, DumpProtos, DumpDebug, Sized;
    SizedParts(f);
    var code := i + NameSize(SourceOf(f, parent, strip)) + 12;
    var constants := code + 4 + 4 * |f.code|;
    var nested := constants + ListSize(ConstantSize, f.k);
    var debug := nested + 4 + ProtosSize(f, |f.p|, strip);
    var protos := DumpInt(|f.p|) + DumpProtos(f, |f.p|, strip);
    HeadExact(bs, i, f, parent, strip);
    VectorExact(bs, code, f.code);
    ConstantsExact(bs, constants, f.k);
    HasInt(bs, nested, |f.p|);
    ProtosExact(bs, nested + 4, f, |f.p|, strip);
    HasBoth(bs, nested, DumpInt(|f.p|), DumpProtos(f, |f.p|, strip));
    DebugExact(bs, debug, f, strip);
    HasBoth(bs, i, DumpHead(f, parent, strip),
      DumpVector(f.code) + (DumpList(DumpConstant, f.k) + (protos + DumpDebug(f, strip))));
    HasBoth(bs, code, DumpVector(f.code), DumpList(DumpConstant, f.k) + (protos + DumpDebug(f, strip)));
    HasBoth(bs, constants, DumpList(DumpConstant, f.k), protos + DumpDebug(f, strip));
    HasBoth(bs, nested, protos, DumpDebug(f, strip));
  }

  lemma SizedParts(f: Proto)
    requires Sized(f)
    ensures |f.code| < INT_LIMIT && |f.k| < INT_LIMIT && |f.p| < INT_LIMIT
    ensures forall n :: 0 <= n < |f.k| ==> ConstantFits(f.k[n])
    ensures forall n :: 0 <= n < |f.p| ==> Sized(f.p[n])
  {
  }

  lemma {:induction false} ProtosExact(bs: Bytes, i: nat, f: Proto, n: nat, strip: bool)
    requires Sized(f) && n <= |f.p|
    ensures |DumpProtos(f, n, strip)| == ProtosSize(f, n, strip)
    ensures i <= |bs| ==> (ProtosAt(bs, i, f, n, strip) <==> Has(bs, i, DumpProtos(f, n, strip)))
    decreases f, 0, n
  {
    hide Has, DumpFunction, FunctionAt, FunctionSize, Sized;
    SizedParts(f);
    if n == 0 {
      HasNothing(bs, i);
    } else {
      ProtosExact(bs, i, f, n - 1, strip);
      FunctionExact(bs, i + ProtosSize(f, n - 1, strip), f.p[n - 1], Some(f.source), strip);
      HasBoth(bs, i, DumpProtos(f, n - 1, strip), DumpFunction(f.p[n - 1], Some(f.source), strip));
    }
  }

  // ---------------------------------------------------------------------- chunks

  /** A chunk for a little-endian machine with ints of four bytes, sizes of eight,
      instructions of four and numbers of eight that are not integral: "\033Lua",
      version 5.1, the official format; and a function behind it. */
  predicate IsChunk(bs: Bytes, f: Proto, strip: bool) {
    && |bs| == 12 + FunctionSize(f, None, strip)
    && bs[..12] == [0x1B, 0x4C, 0x75, 0x61, 0x51, 0x00, 0x01, 0x04, 0x08, 0x04, 0x08, 0x00]
    && FunctionAt(bs, 12, f, None, strip)
  }

  /** The bytes that are dumped are those, and no others. */
  lemma DumpLayout(bs: Bytes, f: Proto, strip: bool)
    requires Sized(f)
    ensures bs == Dump(f, strip) <==> IsChunk(bs, f, strip)
  {
    hide FunctionAt, DumpFunction, FunctionSize, Sized;
    var body := DumpFunction(f, None, strip);
    FunctionExact(bs, 12, f, None, strip);
    HasBoth(bs, 0, HEADER, body);
    if IsChunk(bs, f, strip) {
      assert bs == bs[..12] + bs[12..12 + |body|];
    }
  }

  /** And the function that they spell is what is loaded from them, as long as no
      more than 200 C calls are active; the source of a stripped one is "=?". */
  lemma UndumpLayout(bs: Bytes, f: Proto, strip: bool, level: nat, check: Checker)
    requires Sized(f) && IsChunk(bs, f, strip)
    requires level <= 200 && Accepted(Expected(f, strip, [0x3D, 0x3F]), check)
    ensures Undump(bs, level, check) ==
            if Nested(f, 200 - level) then Ok(Expected(f, strip, [0x3D, 0x3F])) else Fail(TooDeep)
  {
    hide IsChunk, Dump, Undump, Sized, Expected, Accepted, Nested;
    DumpLayout(bs, f, strip);
    UndumpDump(f, strip, level, check);
  }

  // --------------------------------------------------------- whatever the bytes are

  /** An integer is four bytes and not negative. */
  lemma IntRead(bs: Bytes)
    ensures LoadInt(bs) ==
            if |bs| < 4 then Fail(UnexpectedEnd)
            else if bs[3] >= 128 then Fail(BadInteger)
            else Ok((Int32At(bs, 0), bs[4..]))
  {
    if |bs| >= 4 {
      Decode4(bs, 0);
      assert bs[0..4] == bs[..4];
    }
  }

  /** A string is what precedes its last byte, which may be any; size zero is the
      null pointer. */
  lemma StringRead(bs: Bytes)
    ensures LoadString(bs) ==
            if |bs| < 8 then Fail(UnexpectedEnd)
            else if Int64At(bs, 0) == 0 then Ok((None, bs[8..]))
            else if |bs| - 8 < Int64At(bs, 0) then Fail(UnexpectedEnd)
            else Ok((Some(bs[8..8 + Int64At(bs, 0) - 1]), bs[8 + Int64At(bs, 0)..]))
  {
    hide Decode, Int64At;
    if |bs| >= 8 {
      Decode8(bs, 0);
      assert bs[0..8] == bs[..8];
      var n := Int64At(bs, 0);
      if 0 < n <= |bs| - 8 {
        var b := bs[8..][..n];
        assert b == bs[8..8 + n];
        assert b[..n - 1] == bs[8..8 + n - 1];
        assert bs[8..][n..] == bs[8 + n..];
      }
    }
  }

  /** What a constant is read as, by its first byte; any byte but zero is true. */
  lemma ConstantRead(bs: Bytes)
    ensures |bs| == 0 ==> LoadConstant(bs) == Fail(UnexpectedEnd)
    ensures |bs| > 0 && bs[0] == 0 ==> LoadConstant(bs) == Ok((NilConstant, bs[1..]))
    ensures |bs| > 0 && bs[0] == 1 ==>
              LoadConstant(bs) == if |bs| < 2 then Fail(UnexpectedEnd) else Ok((Boolean(bs[1] != 0), bs[2..]))
    ensures |bs| > 0 && bs[0] == 3 && |bs| < 9 ==> LoadConstant(bs) == Fail(UnexpectedEnd)
    ensures |bs| > 0 && bs[0] == 3 && |bs| >= 9 ==>
              var r := LoadConstant(bs); r.Ok? && r.value.0.Number? && r.value.0.n == Int64At(bs, 1) && r.value.1 == bs[9..]
    ensures |bs| > 0 && bs[0] == 4 ==>
              LoadConstant(bs) ==
              if |bs| < 9 then Fail(UnexpectedEnd)
              else if Int64At(bs, 1) == 0 then Ok((Str(None), bs[9..]))
              else if |bs| - 9 < Int64At(bs, 1) then Fail(UnexpectedEnd)
              else Ok((Str(Some(bs[9..9 + Int64At(bs, 1) - 1])), bs[9 + Int64At(bs, 1)..]))
    ensures |bs| > 0 && bs[0] !in {0, 1, 3, 4} ==> LoadConstant(bs) == Fail(BadConstant)
  {
    hide Decode, LoadString;
    if |bs| > 0 {
      var rest := bs[1..];
      assert LoadByte(bs) == Ok((bs[0], rest));
      if bs[0] == 1 && |bs| > 1 {
        assert LoadByte(rest) == Ok((rest[0], rest[1..]));
        assert rest[1..] == bs[2..];
      }
      if |bs| >= 9 {
        assert Int64At(rest, 0) == Int64At(bs, 1);
        assert rest[8..] == bs[9..];
        Decode8(rest, 0);
        assert rest[0..8] == rest[..8];
      }
      if bs[0] == 4 {
        StringRead(rest);
        if |bs| >= 9 && 0 < Int64At(bs, 1) <= |bs| - 9 {
          var n := Int64At(bs, 1);
          assert rest[8..8 + n - 1] == bs[9..9 + n - 1];
          assert rest[8 + n..] == bs[9 + n..];
        }
      }
    }
  }
}
