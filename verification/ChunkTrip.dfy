/** Loading a dumped function gives the function back (src/ldump.c, src/lundump.c). */
module ChunkTrip {
  import opened Seqs
  import opened ChunkFormat

  // ------------------------------------------------- what can be dumped and loaded

  /** Lengths fit into the types that hold them. */
  predicate NameFits(s: Name) {
    s.Some? ==> |s.value| + 1 < SIZE_LIMIT
  }

  predicate ConstantFits(k: Constant) {
    k.Str? ==> NameFits(k.s)
  }

  predicate LocVarFits(v: LocVar) {
    NameFits(v.varname) && v.startpc < INT_LIMIT && v.endpc < INT_LIMIT
  }

  predicate Sized(f: Proto)
    decreases f
  {
    && NameFits(Some(f.source)) && f.linedefined < INT_LIMIT && f.lastlinedefined < INT_LIMIT
    && |f.code| < INT_LIMIT && |f.k| < INT_LIMIT && |f.p| < INT_LIMIT
    && |f.lineinfo| < INT_LIMIT && |f.locvars| < INT_LIMIT && |f.upvalues| < INT_LIMIT
    && (forall i :: 0 <= i < |f.k| ==> ConstantFits(f.k[i]))
    && (forall i :: 0 <= i < |f.locvars| ==> LocVarFits(f.locvars[i]))
    && (forall i :: 0 <= i < |f.upvalues| ==> NameFits(f.upvalues[i]))
    && (forall i :: 0 <= i < |f.p| ==> Sized(f.p[i]))
  }

  /** f is nested at most d deep. */
  predicate Nested(f: Proto, d: int)
    decreases f
  {
    d > 0 && forall i :: 0 <= i < |f.p| ==> Nested(f.p[i], d - 1)
  }

  /** The function without its debug data, and every source the given one. */
  function Stripped(f: Proto, source: Bytes): (g: Proto)
    decreases f
  {
    f.(source := source, p := seq(|f.p|, i requires 0 <= i < |f.p| => Stripped(f.p[i], source)),
       lineinfo := [], locvars := [], upvalues := [])
  }

  /** What is loaded for f when its parent has the given source. */
  function Expected(f: Proto, strip: bool, parent: Bytes): Proto {
    if strip then Stripped(f, parent) else f
  }

  /** The bytecode checker accepts every function loaded. */
  ghost predicate Accepted(f: Proto, check: Checker)
    decreases f
  {
    check(f) && forall i :: 0 <= i < |f.p| ==> Accepted(f.p[i], check)
  }

  // ------------------------------------------------------------------ small pieces

  lemma BlockTrip(b: Bytes, rest: Bytes)
    ensures LoadBlock(b + rest, |b|) == Ok((b, rest))
  {
  }

  lemma ByteTrip(b: Byte, rest: Bytes)
    ensures LoadByte([b] + rest) == Ok((b, rest))
  {
    BlockTrip([b], rest);
  }

  lemma IntTrip(x: nat, rest: Bytes)
    requires x < INT_LIMIT
    ensures LoadInt(DumpInt(x) + rest) == Ok((x, rest))
  {
    hide Encode, Decode, LoadBlock, Pow256;
    Limits();
    BlockTrip(Encode(x, 4), rest);
    EncodeDecode(x, 4);
  }

  lemma LongTrip(x: nat, rest: Bytes)
    requires x < SIZE_LIMIT
    ensures LoadLong(Encode(x, 8) + rest) == Ok((x, rest))
  {
    hide Encode, Decode, LoadBlock, Pow256;
    Limits();
    BlockTrip(Encode(x, 8), rest);
    EncodeDecode(x, 8);
  }

  lemma StringTrip(s: Name, rest: Bytes)
    requires NameFits(s)
    ensures LoadString(DumpString(s) + rest) == Ok((s, rest))
  {
    hide Encode, LoadBlock, LoadLong;
    match s
    case None => LongTrip(0, rest);
    case Some(t) =>
      LongTrip(|t| + 1, (t + [0]) + rest);
      BlockTrip(t + [0], rest);
      assert Encode(|t| + 1, 8) + (t + [0]) + rest == Encode(|t| + 1, 8) + ((t + [0]) + rest);
      assert (t + [0])[..|t|] == t;
  }

  lemma {:induction false} WordsTrip(ws: seq<Word>)
    ensures WordsOf(DumpWords(ws)) == ws
  {
    hide Encode, Decode, Pow256;
    if ws != [] {
      Limits();
      EncodeDecode(ws[0], 4);
      WordsTrip(ws[1..]);
      assert DumpWords(ws)[..4] == Encode(ws[0], 4) && DumpWords(ws)[4..] == DumpWords(ws[1..]);
    }
  }

  lemma VectorTrip(ws: seq<Word>, rest: Bytes)
    requires |ws| < INT_LIMIT
    ensures LoadWords(DumpVector(ws) + rest) == Ok((ws, rest))
  {
    hide DumpWords, WordsOf, LoadInt, DumpInt, LoadBlock;
    IntTrip(|ws|, DumpWords(ws) + rest);
    BlockTrip(DumpWords(ws), rest);
    WordsTrip(ws);
    assert DumpVector(ws) + rest == DumpInt(|ws|) + (DumpWords(ws) + rest);
  }

  lemma ConstantTrip(k: Constant, rest: Bytes)
    requires ConstantFits(k)
    ensures LoadConstant(DumpConstant(k) + rest) == Ok((k, rest))
  {
    hide LoadByte, LoadLong, LoadString, DumpString, Encode;
    match k
    case NilConstant => ByteTrip(0, rest);
    case Boolean(b) =>
      ByteTrip(1, [DumpBool(b)] + rest);
      ByteTrip(DumpBool(b), rest);
      assert [1, DumpBool(b)] + rest == [1] + ([DumpBool(b)] + rest);
    case Number(n) =>
      ByteTrip(3, Encode(n, 8) + rest);
      LongTrip(n, rest);
      assert [3] + Encode(n, 8) + rest == [3] + (Encode(n, 8) + rest);
    case Str(s) =>
      ByteTrip(4, DumpString(s) + rest);
      StringTrip(s, rest);
      assert [4] + DumpString(s) + rest == [4] + (DumpString(s) + rest);
  }

  lemma LocVarTrip(v: LocVar, rest: Bytes)
    requires LocVarFits(v)
    ensures LoadLocVar(DumpLocVar(v) + rest) == Ok((v, rest))
  {
    hide LoadString, DumpString, LoadInt, DumpInt;
    var r2 := DumpInt(v.endpc) + rest;
    var r1 := DumpInt(v.startpc) + r2;
    StringTrip(v.varname, r1);
    IntTrip(v.startpc, r2);
    IntTrip(v.endpc, rest);
    assert DumpLocVar(v) + rest == DumpString(v.varname) + r1;
  }

  // ------------------------------------------------------------------------- lists

  ghost predicate Trips<T(!new)>(load: Bytes -> Outcome<(T, Bytes)>, dump: T -> Bytes, t: T) {
    forall rest: Bytes :: load(dump(t) + rest) == Ok((t, rest))
  }

  lemma {:induction false} ItemsTrip<T(!new)>(load: Bytes -> Outcome<(T, Bytes)>, dump: T -> Bytes, ts: seq<T>, rest: Bytes)
    requires forall i :: 0 <= i < |ts| ==> Trips(load, dump, ts[i])
    ensures LoadItems(load, DumpItems(dump, ts) + rest, |ts|) == Ok((ts, rest))
  {
    var n := |ts|;
    if n > 0 {
      var init := ts[..n - 1];
      var rest' := dump(ts[n - 1]) + rest;
      ItemsTrip(load, dump, init, rest');
      assert Trips(load, dump, ts[n - 1]);
      assert DumpItems(dump, ts) + rest == DumpItems(dump, init) + rest';
      assert init + [ts[n - 1]] == ts;
    } else {
      assert ts == [] && DumpItems(dump, ts) + rest == rest;
    }
  }

  lemma ListTrip<T(!new)>(load: Bytes -> Outcome<(T, Bytes)>, dump: T -> Bytes, ts: seq<T>, rest: Bytes)
    requires |ts| < INT_LIMIT && forall i :: 0 <= i < |ts| ==> Trips(load, dump, ts[i])
    ensures LoadList(load, DumpList(dump, ts) + rest) == Ok((ts, rest))
  {
    hide LoadInt, DumpInt, LoadItems, DumpItems;
    IntTrip(|ts|, DumpItems(dump, ts) + rest);
    ItemsTrip(load, dump, ts, rest);
    assert DumpList(dump, ts) + rest == DumpInt(|ts|) + (DumpItems(dump, ts) + rest);
  }

  lemma ConstantsTrip(ks: seq<Constant>, rest: Bytes)
    requires |ks| < INT_LIMIT && forall i :: 0 <= i < |ks| ==> ConstantFits(ks[i])
    ensures LoadList(LoadConstant, DumpList(DumpConstant, ks) + rest) == Ok((ks, rest))
  {
    hide LoadList, DumpList, LoadConstant, DumpConstant, ConstantFits;
    forall i | 0 <= i < |ks|
      ensures Trips(LoadConstant, DumpConstant, ks[i])
    {
      forall r: Bytes
        ensures LoadConstant(DumpConstant(ks[i]) + r) == Ok((ks[i], r))
      {
        ConstantTrip(ks[i], r);
      }
    }
    ListTrip(LoadConstant, DumpConstant, ks, rest);
  }

  lemma LocVarsTrip(vs: seq<LocVar>, rest: Bytes)
    requires |vs| < INT_LIMIT && forall i :: 0 <= i < |vs| ==> LocVarFits(vs[i])
    ensures LoadList(LoadLocVar, DumpList(DumpLocVar, vs) + rest) == Ok((vs, rest))
  {
    hide LoadList, DumpList, LoadLocVar, DumpLocVar, LocVarFits;
    forall i | 0 <= i < |vs|
      ensures Trips(LoadLocVar, DumpLocVar, vs[i])
    {
      forall r: Bytes
        ensures LoadLocVar(DumpLocVar(vs[i]) + r) == Ok((vs[i], r))
      {
        LocVarTrip(vs[i], r);
      }
    }
    ListTrip(LoadLocVar, DumpLocVar, vs, rest);
  }

  lemma NamesTrip(ns: seq<Name>, rest: Bytes)
    requires |ns| < INT_LIMIT && forall i :: 0 <= i < |ns| ==> NameFits(ns[i])
    ensures LoadList(LoadString, DumpList(DumpString, ns) + rest) == Ok((ns, rest))
  {
    hide LoadList, DumpList, LoadString, DumpString, NameFits;
    forall i | 0 <= i < |ns|
      ensures Trips(LoadString, DumpString, ns[i])
    {
      forall r: Bytes
        ensures LoadString(DumpString(ns[i]) + r) == Ok((ns[i], r))
      {
        StringTrip(ns[i], r);
      }
    }
    ListTrip(LoadString, DumpString, ns, rest);
  }

  lemma DebugTrip(f: Proto, strip: bool, rest: Bytes)
    requires Sized(f)
    ensures LoadDebug(DumpDebug(f, strip) + rest) ==
            Ok((if strip then ([], [], []) else (f.lineinfo, f.locvars, f.upvalues), rest))
  {
    hide LoadWords, DumpVector, LoadList, DumpList;
    var lineinfo, locvars, upvalues := if strip then [] else f.lineinfo, if strip then [] else f.locvars, if strip then [] else f.upvalues;
    var r2 := DumpList(DumpString, upvalues) + rest;
    var r1 := DumpList(DumpLocVar, locvars) + r2;
    VectorTrip(lineinfo, r1);
    LocVarsTrip(locvars, r2);
    NamesTrip(upvalues, rest);
    assert DumpDebug(f, strip) + rest == DumpVector(lineinfo) + r1;
  }

  lemma HeadTrip(f: Proto, parent: Name, strip: bool, rest: Bytes)
    requires Sized(f)
    ensures LoadHead(DumpHead(f, parent, strip) + rest) ==
            Ok((Head(DumpSource(f, parent, strip), f.linedefined, f.lastlinedefined, f.nups, f.numparams, f.isVararg, f.maxstacksize), rest))
  {
    hide LoadString, DumpString, LoadInt, DumpInt, LoadBlock;
    var b := [f.nups, f.numparams, f.isVararg, f.maxstacksize];
    var r3 := b + rest;
    var r2 := DumpInt(f.lastlinedefined) + r3;
    var r1 := DumpInt(f.linedefined) + r2;
    StringTrip(DumpSource(f, parent, strip), r1);
    IntTrip(f.linedefined, r2);
    IntTrip(f.lastlinedefined, r3);
    BlockTrip(b, rest);
    assert DumpHead(f, parent, strip) + rest == DumpString(DumpSource(f, parent, strip)) + r1;
  }

  // ---------------------------------------------------------------------- functions

  /** What loading gives when the calls left allow for `d` levels. */
  function Loaded(f: Proto, d: int, strip: bool, parent: Bytes, rest: Bytes): Outcome<(Proto, Bytes)> {
    if Nested(f, d) then Ok((Expected(f, strip, parent), rest)) else Fail(TooDeep)
  }

  lemma {:induction false} FunctionTrip(f: Proto, parent: Name, strip: bool, source: Bytes, level: nat, check: Checker, rest: Bytes)
    requires Sized(f) && level <= MAXCCALLS && (!strip && parent == Some(f.source) ==> source == f.source)
    requires Accepted(Expected(f, strip, source), check)
    ensures LoadFunction(DumpFunction(f, parent, strip) + rest, source, level, check) ==
            Loaded(f, MAXCCALLS - level, strip, source, rest)
    decreases f, 1
  {
    hide LoadHead, DumpHead, LoadWords, DumpVector, LoadList, DumpList, LoadDebug, DumpDebug, DumpInt, DumpProtos, Loader;
    if level < MAXCCALLS {
      var r4 := DumpDebug(f, strip) + rest;
      var r3 := (DumpInt(|f.p|) + DumpProtos(f, |f.p|, strip)) + r4;
      var r2 := DumpList(DumpConstant, f.k) + r3;
      var r1 := DumpVector(f.code) + r2;
      HeadTrip(f, parent, strip, r1);
      VectorTrip(f.code, r2);
      ConstantsTrip(f.k, r3);
      var own := if strip then source else f.source;
      ProtoListTrip(f, strip, own, level + 1, check, r4);
      DebugTrip(f, strip, rest);
      assert DumpFunction(f, parent, strip) + rest == DumpHead(f, parent, strip) + r1;
    }
  }

  /** The functions nested in f. */
  function Nests(f: Proto, n: nat, strip: bool, source: Bytes): (ps: seq<Proto>)
    requires n <= |f.p|
  {
    seq(n, i requires 0 <= i < n => Expected(f.p[i], strip, source))
  }

  lemma {:induction false} ProtoListTrip(f: Proto, strip: bool, source: Bytes, level: nat, check: Checker, rest: Bytes)
    requires Sized(f) && level <= MAXCCALLS && (!strip ==> source == f.source)
    requires Accepted(Expected(f, strip, source), check)
    ensures LoadList(Loader(source, level, check), (DumpInt(|f.p|) + DumpProtos(f, |f.p|, strip)) + rest) ==
            if Nested(f, MAXCCALLS - level + 1) then Ok((Expected(f, strip, source).p, rest)) else Fail(TooDeep)
    decreases f, 0, |f.p| + 1
  {
    hide LoadInt, DumpInt, LoadItems, DumpProtos, Loader;
    IntTrip(|f.p|, DumpProtos(f, |f.p|, strip) + rest);
    ProtosTrip(f, |f.p|, strip, source, level, check, rest);
    assert (DumpInt(|f.p|) + DumpProtos(f, |f.p|, strip)) + rest == DumpInt(|f.p|) + (DumpProtos(f, |f.p|, strip) + rest);
    assert Nests(f, |f.p|, strip, source) == Expected(f, strip, source).p;
  }

  /** The first n functions nested in f are themselves nested at most d deep. */
  predicate AllNested(f: Proto, n: nat, d: int)
    requires n <= |f.p|
  {
    forall i :: 0 <= i < n ==> Nested(f.p[i], d)
  }

  /** What holds of f holds of a function nested in it. */
  lemma ChildOk(f: Proto, i: nat, strip: bool, source: Bytes, check: Checker)
    requires Sized(f) && i < |f.p| && Accepted(Expected(f, strip, source), check)
    ensures Sized(f.p[i]) && Accepted(Expected(f.p[i], strip, source), check)
  {
    assert Expected(f, strip, source).p[i] == Expected(f.p[i], strip, source);
  }

  lemma NestsStep(f: Proto, n: nat, strip: bool, source: Bytes, d: int)
    requires n < |f.p|
    ensures Nests(f, n + 1, strip, source) == Nests(f, n, strip, source) + [Expected(f.p[n], strip, source)]
    ensures AllNested(f, n + 1, d) <==> AllNested(f, n, d) && Nested(f.p[n], d)
  {
    hide Expected, Nested;
  }

  lemma ProtosStep(f: Proto, n: nat, strip: bool, rest: Bytes)
    requires n < |f.p|
    ensures DumpProtos(f, n + 1, strip) + rest == DumpProtos(f, n, strip) + (DumpFunction(f.p[n], Some(f.source), strip) + rest)
    ensures DumpProtos(f, 0, strip) + rest == rest
  {
    hide DumpFunction;
  }

  lemma ItemsStep<T>(load: Bytes -> Outcome<(T, Bytes)>, bs: Bytes, n: nat)
    ensures LoadItems(load, bs, n + 1) ==
            var r := LoadItems(load, bs, n);
            if r.Fail? then Fail(r.why)
            else var t := load(r.value.1); if t.Fail? then Fail(t.why) else Ok((r.value.0 + [t.value.0], t.value.1))
  {
  }

  lemma {:induction false} ProtosTrip(f: Proto, n: nat, strip: bool, source: Bytes, level: nat, check: Checker, rest: Bytes)
    requires Sized(f) && n <= |f.p| && level <= MAXCCALLS && (!strip ==> source == f.source)
    requires Accepted(Expected(f, strip, source), check)
    ensures LoadItems(Loader(source, level, check), DumpProtos(f, n, strip) + rest, n) ==
            if AllNested(f, n, MAXCCALLS - level) then Ok((Nests(f, n, strip, source), rest)) else Fail(TooDeep)
    decreases f, 0, n
  {
    hide LoadFunction, DumpFunction, Sized, Accepted, Nested, Expected, Nests, AllNested, DumpProtos, LoadItems;
    if n > 0 {
      var c := f.p[n - 1];
      var rest' := DumpFunction(c, Some(f.source), strip) + rest;
      ChildOk(f, n - 1, strip, source, check);
      ProtosTrip(f, n - 1, strip, source, level, check, rest');
      FunctionTrip(c, Some(f.source), strip, source, level, check, rest);
      ProtosStep(f, n - 1, strip, rest);
      NestsStep(f, n - 1, strip, source, MAXCCALLS - level);
      ItemsStep(Loader(source, level, check), DumpProtos(f, n, strip) + rest, n - 1);
    } else {
      NoProtos(f, strip, source, level, check, rest);
    }
  }

  lemma NoProtos(f: Proto, strip: bool, source: Bytes, level: nat, check: Checker, rest: Bytes)
    ensures LoadItems(Loader(source, level, check), DumpProtos(f, 0, strip) + rest, 0) == Ok(([], rest))
    ensures Nests(f, 0, strip, source) == [] && AllNested(f, 0, MAXCCALLS - level)
  {
    assert DumpProtos(f, 0, strip) + rest == rest;
  }

  /** Loading a dump gives the same tree back, or, when it was stripped, the tree
      without debug data and with the source "=?"; unless the tree is nested deeper
      than the calls left allow, which the dump does not look at. */
  lemma UndumpDump(f: Proto, strip: bool, level: nat, check: Checker)
    requires Sized(f) && level <= MAXCCALLS && Accepted(Expected(f, strip, UNKNOWN), check)
    ensures Undump(Dump(f, strip), level, check) ==
            if Nested(f, MAXCCALLS - level) then Ok(Expected(f, strip, UNKNOWN)) else Fail(TooDeep)
  {
    hide LoadFunction, DumpFunction;
    var body := DumpFunction(f, None, strip);
    BlockTrip(HEADER, body);
    FunctionTrip(f, None, strip, UNKNOWN, level, check, []);
    assert body + [] == body;
  }
}
