/** The buffered stream a chunk is read from (src/lzio.c:21-71), and the writer side
    (src/ldump.c:17-163) and loader side (src/lundump.c:48-230) of chunks. */
module ChunkStream {
  import opened Seqs
  import opened ChunkFormat
  import opened ChunkTrip
  import opened ChunkLayout
  import F = ChunkFormat

  const EOZ := -1

  /** The bytes a reader delivers: an empty chunk ends the stream. */
  function Flat(chunks: seq<Bytes>): Bytes {
    if chunks == [] || chunks[0] == [] then [] else chunks[0] + Flat(chunks[1..])
  }

  lemma SliceHead(b: Bytes, i: nat, j: nat, rest: Bytes)
    requires i < j <= |b|
    ensures b[i..j] + rest == [b[i]] + (b[i + 1..j] + rest)
  {
    assert b[i..j] == [b[i]] + b[i + 1..j];
  }

  /** ZIO.  `chunks` is what the reader will deliver, one element a call; buff[pos..pos + n]
      is unread. */
  class Zio {
    var chunks: seq<Bytes>
    var buff: Bytes
    var pos: nat
    var n: nat

    constructor (chunks: seq<Bytes>)
      ensures Valid() && Unread() == Flat(chunks)
    {
      this.chunks := chunks;
      buff, pos, n := [], 0, 0;
    }

    ghost predicate Valid()
      reads this
    {
      pos + n <= |buff|
    }

    ghost function Unread(): Bytes
      requires Valid()
      reads this
    {
      buff[pos..pos + n] + Flat(chunks)
    }

    /** luaZ_fill: get the next chunk and take its first byte. */
    method Fill() returns (c: int)
      requires Valid() && n == 0
      modifies this
      ensures Valid()
      ensures old(Unread()) == [] ==> c == EOZ && n == 0
      ensures old(Unread()) != [] ==> c == old(Unread())[0] && pos > 0 && old(Unread()) == [buff[pos - 1]] + Unread()
    {
      var size := if chunks == [] then 0 else |chunks[0]|;
      if size == 0 {
        return EOZ;
      }
      buff, chunks := chunks[0], chunks[1..];
      n := size - 1;
      pos := 1;
      c := buff[0];
      SliceHead(buff, 0, 1 + n, Flat(chunks));
      assert buff[0..1 + n] == buff;
    }

    /** luaZ_lookahead: the next byte, which stays unread. */
    method Lookahead() returns (c: int)
      requires Valid()
      modifies this
      ensures Valid()
      ensures old(Unread()) == [] <==> c == EOZ
      ensures old(Unread()) != [] ==> c == old(Unread())[0] && n > 0 && Unread() == old(Unread())
    {
      if n == 0 {
        c := Fill();
        if c == EOZ {
          return EOZ;
        }
        n := n + 1;
        pos := pos - 1;
        SliceHead(buff, pos, pos + n, Flat(chunks));
      }
      c := buff[pos];
    }

    /** m bytes out of the buffer. */
    method Take(m: nat) returns (b: Bytes)
      requires Valid() && m <= n
      modifies this
      ensures Valid() && |b| == m && old(Unread()) == b + Unread()
    {
      hide Flat;
      assert buff[pos..pos + n] == buff[pos..pos + m] + buff[pos + m..pos + n];
      b := buff[pos..pos + m];
      n := n - m;
      pos := pos + m;
    }

    /** luaZ_read: the next k bytes, however the reader cuts them; the second result is
        the number of bytes that are missing. */
    method Read(k: nat) returns (b: Bytes, missing: nat)
      requires Valid()
      modifies this
      ensures Valid()
      ensures k <= |old(Unread())| ==> missing == 0 && b == old(Unread())[..k] && Unread() == old(Unread())[k..]
      ensures k > |old(Unread())| ==> missing == k - |old(Unread())| && b == old(Unread())
    {
      hide Unread, Valid, Flat;
      ghost var all := Unread();
      var left := k;
      b := [];
      while left > 0
        invariant Valid() && 0 <= left <= k && |b| == k - left && all == b + Unread()
        decreases left
      {
        var c := Lookahead();
        if c == EOZ {
          return b, left;
        }
        ghost var before := Unread();
        var m := if left <= n then left else n;
        var t := Take(m);
        assert b + before == (b + t) + Unread();
        b := b + t;
        left := left - m;
      }
      missing := 0;
    }
  }

  // ------------------------------------------------------------------------ dumping

  /** b has been sent: all of it, or, when the writer failed, the beginning of it. */
  ghost predicate Sent(data: Bytes, status: int, b: Bytes, data': Bytes, status': int) {
    if status != 0 then data' == data && status' == status
    else if status' == 0 then data' == data + b
    else data <= data' <= data + b
  }

  lemma SentThen(d0: Bytes, s0: int, b1: Bytes, d1: Bytes, s1: int, b2: Bytes, d2: Bytes, s2: int)
    requires Sent(d0, s0, b1, d1, s1) && Sent(d1, s1, b2, d2, s2)
    ensures Sent(d0, s0, b1 + b2, d2, s2)
  {
    assert d0 + b1 + b2 == d0 + (b1 + b2);
  }

  lemma SentNothing(d: Bytes, s: int)
    ensures Sent(d, s, [], d, s)
  {
  }

  /** The blocks one behind the other. */
  function Joined(blocks: seq<Bytes>): Bytes {
    if blocks == [] then [] else Joined(blocks[..|blocks| - 1]) + blocks[|blocks| - 1]
  }

  /** The writer is called block by block; `writer` gives the status of each call.
      `data` is what it has taken. */
  class DumpState {
    const strip: bool
    const writer: nat -> int
    var blocks: seq<Bytes>
    var status: int
    var data: Bytes

    constructor (strip: bool, writer: nat -> int)
      ensures this.strip == strip && this.writer == writer && Valid() && status == 0 && data == []
    {
      this.strip := strip;
      this.writer := writer;
      blocks, status, data := [], 0, [];
    }

    /** The status is that of the last call, and all calls before it went well. */
    ghost predicate Valid()
      reads this
    {
      && (blocks == [] ==> status == 0) && (blocks != [] ==> status == writer(|blocks| - 1))
      && (forall j: nat {:trigger writer(j)} :: j + 1 < |blocks| ==> writer(j) == 0)
      && data == Joined(if status == 0 then blocks else blocks[..|blocks| - 1])
    }

    method DumpBlock(b: Bytes)
      requires Valid()
      modifies this
      ensures Valid() && Sent(old(data), old(status), b, data, status)
    {
      if status == 0 {
        status := writer(|blocks|);
        blocks := blocks + [b];
        assert blocks[..|blocks| - 1] == old(blocks);
        if status == 0 {
          data := data + b;
        }
      }
    }

    method DumpInt(x: nat)
      requires Valid()
      modifies this
      ensures Valid() && Sent(old(data), old(status), F.DumpInt(x), data, status)
    {
      DumpBlock(Encode(x, 4));
    }

    method DumpString(s: Name)
      requires Valid()
      modifies this
      ensures Valid() && Sent(old(data), old(status), F.DumpString(s), data, status)
    {
      hide Sent, Encode;
      if s.None? {
        DumpBlock(Encode(0, 8));
      } else {
        ghost var d0, s0 := data, status;
        DumpBlock(Encode(|s.value| + 1, 8));
        ghost var d1, s1 := data, status;
        DumpBlock(s.value + [0]);
        SentThen(d0, s0, Encode(|s.value| + 1, 8), d1, s1, s.value + [0], data, status);
      }
    }

    method DumpVector(ws: seq<Word>)
      requires Valid()
      modifies this
      ensures Valid() && Sent(old(data), old(status), F.DumpVector(ws), data, status)
    {
      hide Sent, F.DumpInt, DumpWords;
      ghost var d0, s0 := data, status;
      DumpInt(|ws|);
      ghost var d1, s1 := data, status;
      DumpBlock(DumpWords(ws));
      SentThen(d0, s0, F.DumpInt(|ws|), d1, s1, DumpWords(ws), data, status);
    }

    method DumpConstant(k: Constant)
      requires Valid()
      modifies this
      ensures Valid() && Sent(old(data), old(status), F.DumpConstant(k), data, status)
    {
      hide Sent, Encode, F.DumpString;
      ghost var d0, s0 := data, status;
      match k
      case NilConstant => DumpBlock([0]);
      case Boolean(b) =>
        DumpBlock([1]);
        ghost var d1, s1 := data, status;
        DumpBlock([DumpBool(b)]);
        SentThen(d0, s0, [1], d1, s1, [DumpBool(b)], data, status);
        assert [1] + [DumpBool(b)] == [1, DumpBool(b)];
      case Number(n) =>
        DumpBlock([3]);
        ghost var d1, s1 := data, status;
        DumpBlock(Encode(n, 8));
        SentThen(d0, s0, [3], d1, s1, Encode(n, 8), data, status);
      case Str(s) =>
        DumpBlock([4]);
        ghost var d1, s1 := data, status;
        DumpString(s);
        SentThen(d0, s0, [4], d1, s1, F.DumpString(s), data, status);
    }

    method DumpConstantList(ks: seq<Constant>)
      requires Valid()
      modifies this
      ensures Valid() && Sent(old(data), old(status), DumpList(F.DumpConstant, ks), data, status)
    {
      hide Sent, F.DumpInt, F.DumpConstant;
      ghost var d0, s0 := data, status;
      DumpInt(|ks|);
      var i := 0;
      ItemsNone(F.DumpInt(|ks|), F.DumpConstant, ks);
      while i < |ks|
        invariant Valid() && 0 <= i <= |ks|
        invariant Sent(d0, s0, F.DumpInt(|ks|) + DumpItems(F.DumpConstant, ks[..i]), data, status)
      {
        ghost var d1, s1 := data, status;
        DumpConstant(ks[i]);
        SentThen(d0, s0, F.DumpInt(|ks|) + DumpItems(F.DumpConstant, ks[..i]), d1, s1, F.DumpConstant(ks[i]), data, status);
        ItemsMore(F.DumpInt(|ks|), F.DumpConstant, ks, i);
        i := i + 1;
      }
      assert ks[..|ks|] == ks;
    }

    method DumpNames(ns: seq<Name>)
      requires Valid()
      modifies this
      ensures Valid() && Sent(old(data), old(status), DumpList(F.DumpString, ns), data, status)
    {
      hide Sent, F.DumpInt, F.DumpString;
      ghost var d0, s0 := data, status;
      DumpInt(|ns|);
      var i := 0;
      ItemsNone(F.DumpInt(|ns|), F.DumpString, ns);
      while i < |ns|
        invariant Valid() && 0 <= i <= |ns|
        invariant Sent(d0, s0, F.DumpInt(|ns|) + DumpItems(F.DumpString, ns[..i]), data, status)
      {
        ghost var d1, s1 := data, status;
        DumpString(ns[i]);
        SentThen(d0, s0, F.DumpInt(|ns|) + DumpItems(F.DumpString, ns[..i]), d1, s1, F.DumpString(ns[i]), data, status);
        ItemsMore(F.DumpInt(|ns|), F.DumpString, ns, i);
        i := i + 1;
      }
      assert ns[..|ns|] == ns;
    }

    method DumpLocVars(vs: seq<LocVar>)
      requires Valid()
      modifies this
      ensures Valid() && Sent(old(data), old(status), DumpList(DumpLocVar, vs), data, status)
    {
      hide Sent, F.DumpInt, DumpLocVar;
      ghost var d0, s0 := data, status;
      DumpInt(|vs|);
      var i := 0;
      ItemsNone(F.DumpInt(|vs|), DumpLocVar, vs);
      while i < |vs|
        invariant Valid() && 0 <= i <= |vs|
        invariant Sent(d0, s0, F.DumpInt(|vs|) + DumpItems(DumpLocVar, vs[..i]), data, status)
      {
        ghost var d1, s1 := data, status;
        DumpOneLocVar(vs[i]);
        SentThen(d0, s0, F.DumpInt(|vs|) + DumpItems(DumpLocVar, vs[..i]), d1, s1, DumpLocVar(vs[i]), data, status);
        ItemsMore(F.DumpInt(|vs|), DumpLocVar, vs, i);
        i := i + 1;
      }
      assert vs[..|vs|] == vs;
    }

    method DumpOneLocVar(v: LocVar)
      requires Valid()
      modifies this
      ensures Valid() && Sent(old(data), old(status), DumpLocVar(v), data, status)
    {
      hide Sent, F.DumpInt, F.DumpString;
      ghost var d0, s0 := data, status;
      DumpString(v.varname);
      ghost var d1, s1 := data, status;
      DumpInt(v.startpc);
      ghost var d2, s2 := data, status;
      DumpInt(v.endpc);
      SentThen(d1, s1, F.DumpInt(v.startpc), d2, s2, F.DumpInt(v.endpc), data, status);
      SentThen(d0, s0, F.DumpString(v.varname), d1, s1, F.DumpInt(v.startpc) + F.DumpInt(v.endpc), data, status);
    }

    method DumpDebug(f: Proto)
      requires Valid()
      modifies this
      ensures Valid() && Sent(old(data), old(status), F.DumpDebug(f, strip), data, status)
    {
      hide Sent, F.DumpVector, DumpList;
      var lineinfo := if strip then [] else f.lineinfo;
      var locvars := if strip then [] else f.locvars;
      var upvalues := if strip then [] else f.upvalues;
      ghost var d0, s0 := data, status;
      DumpVector(lineinfo);
      ghost var d1, s1 := data, status;
      DumpLocVars(locvars);
      ghost var d2, s2 := data, status;
      DumpNames(upvalues);
      SentThen(d1, s1, DumpList(DumpLocVar, locvars), d2, s2, DumpList(F.DumpString, upvalues), data, status);
      SentThen(d0, s0, F.DumpVector(lineinfo), d1, s1, DumpList(DumpLocVar, locvars) + DumpList(F.DumpString, upvalues), data, status);
    }

    method DumpHead(f: Proto, p: Name)
      requires Valid()
      modifies this
      ensures Valid() && Sent(old(data), old(status), F.DumpHead(f, p, strip), data, status)
    {
      hide Sent, F.DumpInt, F.DumpString;
      var b := [f.nups, f.numparams, f.isVararg, f.maxstacksize];
      ghost var d0, s0 := data, status;
      DumpString(if p == Some(f.source) || strip then None else Some(f.source));
      ghost var d1, s1 := data, status;
      DumpInt(f.linedefined);
      ghost var d2, s2 := data, status;
      DumpInt(f.lastlinedefined);
      ghost var d3, s3 := data, status;
      DumpChars(b);
      SentThen(d2, s2, F.DumpInt(f.lastlinedefined), d3, s3, b, data, status);
      SentThen(d1, s1, F.DumpInt(f.linedefined), d2, s2, F.DumpInt(f.lastlinedefined) + b, data, status);
      SentThen(d0, s0, F.DumpString(DumpSource(f, p, strip)), d1, s1,
               F.DumpInt(f.linedefined) + (F.DumpInt(f.lastlinedefined) + b), data, status);
    }

    /** DumpChar for each of b. */
    method DumpChars(b: Bytes)
      requires Valid()
      modifies this
      ensures Valid() && Sent(old(data), old(status), b, data, status)
    {
      hide Sent;
      ghost var d0, s0 := data, status;
      var i := 0;
      SentNothing(data, status);
      assert b[..0] == [];
      while i < |b|
        invariant Valid() && 0 <= i <= |b| && Sent(d0, s0, b[..i], data, status)
      {
        ghost var d1, s1 := data, status;
        DumpBlock([b[i]]);
        SentThen(d0, s0, b[..i], d1, s1, [b[i]], data, status);
        assert b[..i] + [b[i]] == b[..i + 1];
        i := i + 1;
      }
      assert b[..|b|] == b;
    }

    /** The second half of DumpConstants: the nested functions. */
    method DumpNested(f: Proto)
      requires Valid()
      modifies this
      ensures Valid() && Sent(old(data), old(status), F.DumpInt(|f.p|) + DumpProtos(f, |f.p|, strip), data, status)
      decreases f, 0
    {
      hide Sent, F.DumpInt, F.DumpFunction;
      ghost var d0, s0 := data, status;
      DumpInt(|f.p|);
      var i := 0;
      assert F.DumpInt(|f.p|) + [] == F.DumpInt(|f.p|);
      while i < |f.p|
        invariant Valid() && 0 <= i <= |f.p|
        invariant Sent(d0, s0, F.DumpInt(|f.p|) + DumpProtos(f, i, strip), data, status)
      {
        ghost var d1, s1 := data, status;
        ghost var before := F.DumpInt(|f.p|) + DumpProtos(f, i, strip);
        DumpFunction(f.p[i], Some(f.source));
        ghost var one := F.DumpFunction(f.p[i], Some(f.source), strip);
        SentThen(d0, s0, before, d1, s1, one, data, status);
        assert before + one == F.DumpInt(|f.p|) + (DumpProtos(f, i, strip) + one);
        i := i + 1;
      }
    }

    method DumpFunction(f: Proto, p: Name)
      requires Valid()
      modifies this
      ensures Valid() && Sent(old(data), old(status), F.DumpFunction(f, p, strip), data, status)
      decreases f, 1
    {
      hide Sent, F.DumpHead, F.DumpVector, DumpList, F.DumpInt, DumpProtos, F.DumpDebug;
      ghost var protos := F.DumpInt(|f.p|) + DumpProtos(f, |f.p|, strip);
      ghost var d0, s0 := data, status;
      DumpHead(f, p);
      ghost var d1, s1 := data, status;
      DumpVector(f.code);
      ghost var d2, s2 := data, status;
      DumpConstantList(f.k);
      ghost var d3, s3 := data, status;
      DumpNested(f);
      ghost var d4, s4 := data, status;
      DumpDebug(f);
      SentThen(d3, s3, protos, d4, s4, F.DumpDebug(f, strip), data, status);
      SentThen(d2, s2, DumpList(F.DumpConstant, f.k), d3, s3, protos + F.DumpDebug(f, strip), data, status);
      SentThen(d1, s1, F.DumpVector(f.code), d2, s2, DumpList(F.DumpConstant, f.k) + (protos + F.DumpDebug(f, strip)), data, status);
      SentThen(d0, s0, F.DumpHead(f, p, strip), d1, s1,
               F.DumpVector(f.code) + (DumpList(F.DumpConstant, f.k) + (protos + F.DumpDebug(f, strip))), data, status);
    }
  }

  lemma ItemsNone<T>(head: Bytes, dump: T -> Bytes, ts: seq<T>)
    ensures head + DumpItems(dump, ts[..0]) == head
  {
  }

  lemma ItemsMore<T>(head: Bytes, dump: T -> Bytes, ts: seq<T>, i: nat)
    requires i < |ts|
    ensures head + DumpItems(dump, ts[..i + 1]) == head + DumpItems(dump, ts[..i]) + dump(ts[i])
  {
    assert ts[..i + 1][..i] == ts[..i];
  }

  lemma NothingJoined()
    ensures Joined([]) == []
  {
  }

  /** luaU_dump: the whole dump when no call of the writer failed, else the status of
      the call that did, and no call behind it. */
  method DumpChunk(f: Proto, strip: bool, writer: nat -> int) returns (data: Bytes, status: int, blocks: seq<Bytes>)
    ensures status == 0 ==> data == Dump(f, strip) && (Sized(f) ==> IsChunk(data, f, strip))
    ensures data <= Dump(f, strip)
    ensures blocks != [] && status == writer(|blocks| - 1)
    ensures forall j: nat {:trigger writer(j)} :: j + 1 < |blocks| ==> writer(j) == 0
    ensures data == Joined(if status == 0 then blocks else blocks[..|blocks| - 1])
  {
    hide F.DumpFunction, Joined, Sized, IsChunk;
    var d := new DumpState(strip, writer);
    ghost var d0, s0 := d.data, d.status;
    d.DumpBlock(HEADER);
    ghost var d1, s1 := d.data, d.status;
    d.DumpFunction(f, None);
    SentThen(d0, s0, HEADER, d1, s1, F.DumpFunction(f, None, strip), d.data, d.status);
    if d.status == 0 {
      NothingJoined();
    }
    if Sized(f) {
      DumpLayout(d.data, f, strip);
    }
    return d.data, d.status, d.blocks;
  }

  // ------------------------------------------------------------------------ loading

  /** r and the bytes still unread are what o says. */
  ghost predicate Agrees<T>(o: Outcome<(T, Bytes)>, r: Outcome<T>, unread: Bytes) {
    if o.Fail? then r == Fail(o.why) else r == Ok(o.value.0) && unread == o.value.1
  }

  lemma NextItem<T>(load: Bytes -> Outcome<(T, Bytes)>, bs: Bytes, i: nat, n: nat, ts: seq<T>, rest: Bytes)
    requires i < n && LoadItems(load, bs, i) == Ok((ts, rest))
    ensures load(rest).Fail? ==> LoadItems(load, bs, n) == Fail(load(rest).why)
    ensures load(rest).Ok? ==> LoadItems(load, bs, i + 1) == Ok((ts + [load(rest).value.0], load(rest).value.1))
  {
    if load(rest).Fail? {
      LoadItemsFails(load, bs, i + 1, n);
    }
  }

  /** LoadState; `level` counts the C calls that are active. */
  class LoadState {
    const z: Zio
    const check: Checker
    var level: nat

    constructor (z: Zio, level: nat, check: Checker)
      ensures this.z == z && this.check == check && this.level == level
    {
      this.z, this.check, this.level := z, check, level;
    }

    method LoadBlock(size: nat) returns (r: Outcome<Bytes>)
      requires z.Valid()
      modifies z
      ensures z.Valid() && Agrees(F.LoadBlock(old(z.Unread()), size), r, z.Unread())
    {
      var b, missing := z.Read(size);
      r := if missing != 0 then Fail(UnexpectedEnd) else Ok(b);
    }

    method LoadByte() returns (r: Outcome<Byte>)
      requires z.Valid()
      modifies z
      ensures z.Valid() && Agrees(F.LoadByte(old(z.Unread())), r, z.Unread())
    {
      var b :- LoadBlock(1);
      r := Ok(b[0]);
    }

    method LoadInt() returns (r: Outcome<nat>)
      requires z.Valid()
      modifies z
      ensures z.Valid() && Agrees(F.LoadInt(old(z.Unread())), r, z.Unread())
      ensures r.Ok? ==> r.value < INT_LIMIT
    {
      hide Decode;
      var b :- LoadBlock(4);
      r := if WordOf(b) >= INT_LIMIT then Fail(BadInteger) else Ok(WordOf(b));
    }

    method LoadLong() returns (r: Outcome<Bits64>)
      requires z.Valid()
      modifies z
      ensures z.Valid() && Agrees(F.LoadLong(old(z.Unread())), r, z.Unread())
    {
      hide Decode;
      var b :- LoadBlock(8);
      r := Ok(LongOf(b));
    }

    method LoadString() returns (r: Outcome<Name>)
      requires z.Valid()
      modifies z
      ensures z.Valid() && Agrees(F.LoadString(old(z.Unread())), r, z.Unread())
    {
      hide F.LoadLong;
      var size :- LoadLong();
      if size == 0 {
        return Ok(None);
      }
      var b :- LoadBlock(size);
      r := Ok(Some(b[..size - 1]));
    }

    method LoadVector() returns (r: Outcome<seq<Word>>)
      requires z.Valid()
      modifies z
      ensures z.Valid() && Agrees(LoadWords(old(z.Unread())), r, z.Unread())
    {
      hide F.LoadInt, WordsOf;
      var n :- LoadInt();
      var b :- LoadBlock(n * 4);
      r := Ok(WordsOf(b));
    }

    method LoadConstant() returns (r: Outcome<Constant>)
      requires z.Valid()
      modifies z
      ensures z.Valid() && Agrees(F.LoadConstant(old(z.Unread())), r, z.Unread())
    {
      hide F.LoadByte, F.LoadLong, F.LoadString;
      var t :- LoadByte();
      if t == 0 {
        r := Ok(NilConstant);
      } else if t == 1 {
        var b :- LoadByte();
        r := Ok(Boolean(b != 0));
      } else if t == 3 {
        var n :- LoadLong();
        r := Ok(Number(n));
      } else if t == 4 {
        var s :- LoadString();
        r := Ok(Str(s));
      } else {
        r := Fail(BadConstant);
      }
    }

    method LoadConstantList() returns (r: Outcome<seq<Constant>>)
      requires z.Valid()
      modifies z
      ensures z.Valid() && Agrees(LoadList(F.LoadConstant, old(z.Unread())), r, z.Unread())
    {
      hide F.LoadInt, F.LoadConstant;
      var n :- LoadInt();
      ghost var bs := z.Unread();
      var ks, i := [], 0;
      while i < n
        invariant z.Valid() && 0 <= i <= n && LoadItems(F.LoadConstant, bs, i) == Ok((ks, z.Unread()))
      {
        NextItem(F.LoadConstant, bs, i, n, ks, z.Unread());
        var k :- LoadConstant();
        ks := ks + [k];
        i := i + 1;
      }
      r := Ok(ks);
    }

    method LoadLocVar() returns (r: Outcome<LocVar>)
      requires z.Valid()
      modifies z
      ensures z.Valid() && Agrees(F.LoadLocVar(old(z.Unread())), r, z.Unread())
    {
      hide F.LoadInt, F.LoadString;
      var name :- LoadString();
      var startpc :- LoadInt();
      var endpc :- LoadInt();
      r := Ok(LocVar(name, startpc, endpc));
    }

    method LoadLocVars() returns (r: Outcome<seq<LocVar>>)
      requires z.Valid()
      modifies z
      ensures z.Valid() && Agrees(LoadList(F.LoadLocVar, old(z.Unread())), r, z.Unread())
    {
      hide F.LoadInt, F.LoadLocVar;
      var n :- LoadInt();
      ghost var bs := z.Unread();
      var vs, i := [], 0;
      while i < n
        invariant z.Valid() && 0 <= i <= n && LoadItems(F.LoadLocVar, bs, i) == Ok((vs, z.Unread()))
      {
        NextItem(F.LoadLocVar, bs, i, n, vs, z.Unread());
        var v :- LoadLocVar();
        vs := vs + [v];
        i := i + 1;
      }
      r := Ok(vs);
    }

    method LoadNames() returns (r: Outcome<seq<Name>>)
      requires z.Valid()
      modifies z
      ensures z.Valid() && Agrees(LoadList(F.LoadString, old(z.Unread())), r, z.Unread())
    {
      hide F.LoadInt, F.LoadString;
      var n :- LoadInt();
      ghost var bs := z.Unread();
      var ns, i := [], 0;
      while i < n
        invariant z.Valid() && 0 <= i <= n && LoadItems(F.LoadString, bs, i) == Ok((ns, z.Unread()))
      {
        NextItem(F.LoadString, bs, i, n, ns, z.Unread());
        var s :- LoadString();
        ns := ns + [s];
        i := i + 1;
      }
      r := Ok(ns);
    }

    method LoadDebug() returns (r: Outcome<(seq<Word>, seq<LocVar>, seq<Name>)>)
      requires z.Valid()
      modifies z
      ensures z.Valid() && Agrees(F.LoadDebug(old(z.Unread())), r, z.Unread())
    {
      hide LoadWords, LoadList;
      var lineinfo :- LoadVector();
      var locvars :- LoadLocVars();
      var upvalues :- LoadNames();
      r := Ok((lineinfo, locvars, upvalues));
    }

    method LoadHead() returns (r: Outcome<Head>)
      requires z.Valid()
      modifies z
      ensures z.Valid() && Agrees(F.LoadHead(old(z.Unread())), r, z.Unread())
    {
      hide F.LoadInt, F.LoadString;
      var source :- LoadString();
      var linedefined :- LoadInt();
      var lastlinedefined :- LoadInt();
      var b :- LoadBlock(4);
      r := Ok(Head(source, linedefined, lastlinedefined, b[0], b[1], b[2], b[3]));
    }

    /** The second half of LoadConstants: the nested functions. */
    method LoadNested(source: Bytes) returns (r: Outcome<seq<Proto>>)
      requires z.Valid()
      modifies z, this
      ensures z.Valid() && (r.Ok? ==> level == old(level))
      ensures Agrees(LoadList(Loader(source, old(level), check), old(z.Unread())), r, z.Unread())
      decreases MAXCCALLS + 1 - level, 1
    {
      hide F.LoadInt, F.LoadFunction;
      var n :- LoadInt();
      ghost var bs, l, load := z.Unread(), level, Loader(source, level, check);
      var ps, i := [], 0;
      while i < n
        invariant z.Valid() && level == l && 0 <= i <= n && LoadItems(load, bs, i) == Ok((ps, z.Unread()))
      {
        NextItem(load, bs, i, n, ps, z.Unread());
        var p :- LoadFunction(source);
        ps := ps + [p];
        i := i + 1;
      }
      r := Ok(ps);
    }

    method LoadFunction(p: Bytes) returns (r: Outcome<Proto>)
      requires z.Valid()
      modifies z, this
      ensures z.Valid() && (r.Ok? ==> level == old(level))
      ensures Agrees(F.LoadFunction(old(z.Unread()), p, old(level), check), r, z.Unread())
      decreases MAXCCALLS + 1 - level, 0
    {
      hide F.LoadHead, LoadWords, LoadList, F.LoadDebug, Loader;
      level := level + 1;
      if level > MAXCCALLS {
        return Fail(TooDeep);
      }
      var h :- LoadHead();
      var source := if h.source == None then p else h.source.value;
      var code :- LoadVector();
      var k :- LoadConstantList();
      var ps :- LoadNested(source);
      var debug :- LoadDebug();
      var f := Proto(source, h.linedefined, h.lastlinedefined, h.nups, h.numparams, h.isVararg, h.maxstacksize,
                     code, k, ps, debug.0, debug.1, debug.2);
      if !check(f) {
        return Fail(BadCode);
      }
      level := level - 1;
      r := Ok(f);
    }
  }

  /** luaU_undump: the result depends on the bytes only, not on how the reader cuts
      them into chunks. */
  method UndumpChunks(chunks: seq<Bytes>, level: nat, check: Checker) returns (r: Outcome<Proto>)
    ensures r == Undump(Flat(chunks), level, check)
    ensures forall f, strip ::
              Sized(f) && IsChunk(Flat(chunks), f, strip) && level <= 200 && Accepted(Expected(f, strip, [0x3D, 0x3F]), check) ==>
                r == if Nested(f, 200 - level) then Ok(Expected(f, strip, [0x3D, 0x3F])) else Fail(TooDeep)
  {
    hide F.LoadFunction, IsChunk, Sized, Accepted, Expected, Nested;
    forall f, strip | Sized(f) && IsChunk(Flat(chunks), f, strip) && level <= 200 && Accepted(Expected(f, strip, [0x3D, 0x3F]), check)
      ensures Undump(Flat(chunks), level, check) ==
              if Nested(f, 200 - level) then Ok(Expected(f, strip, [0x3D, 0x3F])) else Fail(TooDeep)
    {
      UndumpLayout(Flat(chunks), f, strip, level, check);
    }
    var z := new Zio(chunks);
    var s := new LoadState(z, level, check);
    var h :- s.LoadBlock(12);
    if h != HEADER {
      return Fail(BadHeader);
    }
    r := s.LoadFunction(UNKNOWN);
  }
}
