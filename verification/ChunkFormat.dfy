/** Precompiled chunks: the bytes of a function prototype and back
    (src/ldump.c:61-163, src/lundump.c:48-230).  The sizes are those of a 64-bit
    little-endian machine. */
module ChunkFormat {
  import opened Seqs

  type Byte = x: int | 0 <= x < 256
  type Bytes = seq<Byte>

  /** A string, or the null pointer. */
  type Name = Option<Bytes>

  const INT_LIMIT := 0x8000_0000
  const WORD_LIMIT := 0x1_0000_0000
  const SIZE_LIMIT := 0x1_0000_0000_0000_0000

  type Word = x: int | 0 <= x < WORD_LIMIT
  type Bits64 = x: int | 0 <= x < SIZE_LIMIT

  /** Numbers are opaque: their eight bytes. */
  datatype Constant = NilConstant | Boolean(b: bool) | Number(n: Bits64) | Str(s: Name)

  datatype LocVar = LocVar(varname: Name, startpc: nat, endpc: nat)

  datatype Proto = Proto(
    source: Bytes, linedefined: nat, lastlinedefined: nat,
    nups: Byte, numparams: Byte, isVararg: Byte, maxstacksize: Byte,
    code: seq<Word>, k: seq<Constant>, p: seq<Proto>,
    lineinfo: seq<Word>, locvars: seq<LocVar>, upvalues: seq<Name>)

  // --------------------------------------------------------------------- numbers

  /** x in n bytes, the lowest first. */
  function Encode(x: nat, n: nat): (bs: Bytes)
    ensures |bs| == n
  {
    if n == 0 then [] else [x % 256] + Encode(x / 256, n - 1)
  }

  function Decode(bs: Bytes): (x: nat)
  {
    if bs == [] then 0 else bs[0] + 256 * Decode(bs[1..])
  }

  function Pow256(n: nat): (p: nat)
    ensures p > 0
  {
    if n == 0 then 1 else 256 * Pow256(n - 1)
  }

  lemma Limits()
    ensures Pow256(4) == WORD_LIMIT && Pow256(8) == SIZE_LIMIT && Pow256(1) == 256
  {
    assert Pow256(2) == 65536 && Pow256(4) == 65536 * 65536;
    assert Pow256(6) == 65536 * Pow256(4) && Pow256(8) == 65536 * Pow256(6);
  }

  lemma {:induction false} EncodeDecode(x: nat, n: nat)
    requires x < Pow256(n)
    ensures Decode(Encode(x, n)) == x
  {
    if n > 0 {
      assert x / 256 < Pow256(n - 1);
      EncodeDecode(x / 256, n - 1);
      assert Encode(x, n)[1..] == Encode(x / 256, n - 1);
    }
  }

  /** And the bytes read for a number are the bytes written for it. */
  lemma {:induction false} DecodeEncode(bs: Bytes)
    ensures Encode(Decode(bs), |bs|) == bs
  {
    if bs != [] {
      DecodeEncode(bs[1..]);
    }
  }

  lemma {:induction false} DecodeBound(bs: Bytes)
    ensures Decode(bs) < Pow256(|bs|)
  {
    if bs != [] {
      DecodeBound(bs[1..]);
    }
  }

  // --------------------------------------------------------------------- results

  datatype Fault = UnexpectedEnd | BadInteger | BadConstant | BadHeader | BadCode | TooDeep

  datatype Outcome<T> = Ok(value: T) | Fail(why: Fault) {
    predicate IsFailure() {
      Fail?
    }

    function PropagateFailure<U>(): Outcome<U>
      requires Fail?
    {
      Fail(why)
    }

    function Extract(): T
      requires Ok?
    {
      value
    }
  }

  // ---------------------------------------------------------------- small pieces

  function LoadBlock(bs: Bytes, n: nat): (r: Outcome<(Bytes, Bytes)>)
    ensures r.Ok? ==> |r.value.0| == n && r.value.0 + r.value.1 == bs
  {
    if |bs| < n then Fail(UnexpectedEnd) else Ok((bs[..n], bs[n..]))
  }

  function LoadByte(bs: Bytes): (r: Outcome<(Byte, Bytes)>) {
    var (b, rest) :- LoadBlock(bs, 1);
    Ok((b[0], rest))
  }

  function WordOf(b: Bytes): (w: Word)
    requires |b| == 4
    ensures w == Decode(b)
  {
    Limits();
    DecodeBound(b);
    Decode(b)
  }

  function LongOf(b: Bytes): (w: Bits64)
    requires |b| == 8
    ensures w == Decode(b)
  {
    Limits();
    DecodeBound(b);
    Decode(b)
  }

  /** Integers are signed, and no negative one is accepted. */
  function LoadInt(bs: Bytes): (r: Outcome<(nat, Bytes)>)
    ensures r.Ok? ==> r.value.0 < INT_LIMIT && bs == DumpInt(r.value.0) + r.value.1
  {
    var (b, rest) :- LoadBlock(bs, 4);
    DecodeEncode(b);
    if WordOf(b) < INT_LIMIT then Ok((WordOf(b), rest)) else Fail(BadInteger)
  }

  function DumpInt(x: nat): Bytes {
    Encode(x, 4)
  }

  function LoadLong(bs: Bytes): (r: Outcome<(Bits64, Bytes)>) {
    var (b, rest) :- LoadBlock(bs, 8);
    Ok((LongOf(b), rest))
  }

  /** A string is dumped with its final zero; size zero is the null pointer. */
  function DumpString(s: Name): Bytes {
    match s
    case None => Encode(0, 8)
    case Some(t) => Encode(|t| + 1, 8) + (t + [0])
  }

  function LoadString(bs: Bytes): (r: Outcome<(Name, Bytes)>) {
    var (size, rest) :- LoadLong(bs);
    if size == 0 then Ok((None, rest))
    else
      var (b, rest') :- LoadBlock(rest, size);
      Ok((Some(b[..size - 1]), rest'))
  }

  function DumpWords(ws: seq<Word>): (bs: Bytes)
    ensures |bs| == 4 * |ws|
  {
    if ws == [] then [] else Encode(ws[0], 4) + DumpWords(ws[1..])
  }

  function DumpVector(ws: seq<Word>): Bytes {
    DumpInt(|ws|) + DumpWords(ws)
  }

  function WordsOf(b: Bytes): (ws: seq<Word>)
    ensures |ws| == |b| / 4
  {
    if |b| < 4 then [] else [WordOf(b[..4])] + WordsOf(b[4..])
  }

  /** A vector is read in one block behind its length. */
  function LoadWords(bs: Bytes): (r: Outcome<(seq<Word>, Bytes)>) {
    var (n, rest) :- LoadInt(bs);
    var (b, rest') :- LoadBlock(rest, n * 4);
    Ok((WordsOf(b), rest'))
  }

  function DumpBool(b: bool): Byte {
    if b then 1 else 0
  }

  /** A constant is its type tag and its value. */
  function DumpConstant(k: Constant): Bytes {
    match k
    case NilConstant => [0]
    case Boolean(b) => [1, DumpBool(b)]
    case Number(n) => [3] + Encode(n, 8)
    case Str(s) => [4] + DumpString(s)
  }

  function LoadConstant(bs: Bytes): (r: Outcome<(Constant, Bytes)>) {
    var (t, rest) :- LoadByte(bs);
    if t == 0 then Ok((NilConstant, rest))
    else if t == 1 then
      var (b, rest') :- LoadByte(rest);
      Ok((Boolean(b != 0), rest'))
    else if t == 3 then
      var (n, rest') :- LoadLong(rest);
      Ok((Number(n), rest'))
    else if t == 4 then
      var (s, rest') :- LoadString(rest);
      Ok((Str(s), rest'))
    else Fail(BadConstant)
  }

  function DumpLocVar(v: LocVar): Bytes {
    DumpString(v.varname) + (DumpInt(v.startpc) + DumpInt(v.endpc))
  }

  function LoadLocVar(bs: Bytes): (r: Outcome<(LocVar, Bytes)>) {
    var (name, rest) :- LoadString(bs);
    var (startpc, rest') :- LoadInt(rest);
    var (endpc, rest'') :- LoadInt(rest');
    Ok((LocVar(name, startpc, endpc), rest''))
  }

  // ----------------------------------------------------------------------- lists

  /** n items, one behind the other. */
  function LoadItems<T>(load: Bytes -> Outcome<(T, Bytes)>, bs: Bytes, n: nat): (r: Outcome<(seq<T>, Bytes)>)
    ensures r.Ok? ==> |r.value.0| == n
  {
    if n == 0 then Ok(([], bs))
    else
      var (ts, rest) :- LoadItems(load, bs, n - 1);
      var (t, rest') :- load(rest);
      Ok((ts + [t], rest'))
  }

  function LoadList<T>(load: Bytes -> Outcome<(T, Bytes)>, bs: Bytes): (r: Outcome<(seq<T>, Bytes)>) {
    var (n, rest) :- LoadInt(bs);
    LoadItems(load, rest, n)
  }

  function DumpItems<T>(dump: T -> Bytes, ts: seq<T>): Bytes {
    if ts == [] then [] else DumpItems(dump, ts[..|ts| - 1]) + dump(ts[|ts| - 1])
  }

  function DumpList<T>(dump: T -> Bytes, ts: seq<T>): Bytes {
    DumpInt(|ts|) + DumpItems(dump, ts)
  }

  /** A fault stays. */
  lemma {:induction false} LoadItemsFails<T>(load: Bytes -> Outcome<(T, Bytes)>, bs: Bytes, n: nat, m: nat)
    requires n <= m && LoadItems(load, bs, n).Fail?
    ensures LoadItems(load, bs, m) == Fail(LoadItems(load, bs, n).why)
    decreases m
  {
    if n < m {
      LoadItemsFails(load, bs, n, m - 1);
    }
  }

  // ------------------------------------------------------------------- prototypes

  const MAXCCALLS := 200

  /** The unstripped names of a function; a source like the parent's is left out. */
  function DumpSource(f: Proto, parent: Name, strip: bool): Name {
    if strip || parent == Some(f.source) then None else Some(f.source)
  }

  function DumpDebug(f: Proto, strip: bool): Bytes {
    var lineinfo, locvars, upvalues := if strip then [] else f.lineinfo, if strip then [] else f.locvars, if strip then [] else f.upvalues;
    DumpVector(lineinfo) + (DumpList(DumpLocVar, locvars) + DumpList(DumpString, upvalues))
  }

  function DumpHead(f: Proto, parent: Name, strip: bool): Bytes {
    DumpString(DumpSource(f, parent, strip)) + (DumpInt(f.linedefined) + (DumpInt(f.lastlinedefined)
    + [f.nups, f.numparams, f.isVararg, f.maxstacksize]))
  }

  function DumpFunction(f: Proto, parent: Name, strip: bool): Bytes
    decreases f, 1
  {
    DumpHead(f, parent, strip) + (DumpVector(f.code)
    + (DumpList(DumpConstant, f.k) + ((DumpInt(|f.p|) + DumpProtos(f, |f.p|, strip)) + DumpDebug(f, strip))))
  }

  /** The first n nested functions of f. */
  function DumpProtos(f: Proto, n: nat, strip: bool): Bytes
    requires n <= |f.p|
    decreases f, 0, n
  {
    if n == 0 then [] else DumpProtos(f, n - 1, strip) + DumpFunction(f.p[n - 1], Some(f.source), strip)
  }

  /** The verdict of the bytecode checker, which is not part of this model. */
  type Checker = Proto -> bool

  function LoadDebug(bs: Bytes): (r: Outcome<((seq<Word>, seq<LocVar>, seq<Name>), Bytes)>) {
    var (lineinfo, rest) :- LoadWords(bs);
    var (locvars, rest') :- LoadList(LoadLocVar, rest);
    var (upvalues, rest'') :- LoadList(LoadString, rest');
    Ok(((lineinfo, locvars, upvalues), rest''))
  }

  datatype Head = Head(source: Name, linedefined: nat, lastlinedefined: nat, nups: Byte, numparams: Byte, isVararg: Byte, maxstacksize: Byte)

  function LoadHead(bs: Bytes): (r: Outcome<(Head, Bytes)>) {
    var (source, r1) :- LoadString(bs);
    var (linedefined, r2) :- LoadInt(r1);
    var (lastlinedefined, r3) :- LoadInt(r2);
    var (b, r4) :- LoadBlock(r3, 4);
    Ok((Head(source, linedefined, lastlinedefined, b[0], b[1], b[2], b[3]), r4))
  }

  /** LoadFunction; `level` C calls are active. */
  function LoadFunction(bs: Bytes, parent: Bytes, level: nat, check: Checker): (r: Outcome<(Proto, Bytes)>)
    decreases MAXCCALLS + 1 - level, 0
  {
    if level >= MAXCCALLS then Fail(TooDeep)
    else
      var (h, r1) :- LoadHead(bs);
      var source := if h.source == None then parent else h.source.value;
      var (code, r2) :- LoadWords(r1);
      var (k, r3) :- LoadList(LoadConstant, r2);
      var (p, r4) :- LoadList(Loader(source, level + 1, check), r3);
      var (debug, r5) :- LoadDebug(r4);
      var f := Proto(source, h.linedefined, h.lastlinedefined, h.nups, h.numparams, h.isVararg, h.maxstacksize,
                     code, k, p, debug.0, debug.1, debug.2);
      if check(f) then Ok((f, r5)) else Fail(BadCode)
  }

  function Loader(parent: Bytes, level: nat, check: Checker): Bytes -> Outcome<(Proto, Bytes)>
    decreases MAXCCALLS + 1 - level, 1
  {
    bs => LoadFunction(bs, parent, level, check)
  }

  /** The header: signature, version, format, byte order and the sizes of the types. */
  const HEADER: Bytes := [27, 76, 117, 97, 0x51, 0, 1, 4, 8, 4, 8, 0]

  function Dump(f: Proto, strip: bool): Bytes {
    HEADER + DumpFunction(f, None, strip)
  }

  /** "=?" */
  const UNKNOWN: Bytes := [61, 63]

  function Undump(bs: Bytes, level: nat, check: Checker): (r: Outcome<Proto>) {
    var (h, rest) :- LoadBlock(bs, 12);
    if h != HEADER then Fail(BadHeader)
    else
      var (f, _) :- LoadFunction(rest, UNKNOWN, level, check);
      Ok(f)
  }
}
