/** The steps of the code generator on the state of an unfinished expression: each
    leads from code that computes one expression to code that computes the next
    (src/lcode.c:310-658). */
module ExprSteps {
  import opened Seqs
  import opened Bytecode
  import opened JumpLists
  import opened Runs
  import opened Courses
  import opened ExprMeaning
  import opened ExprFinish

  // ------------------------------------------------------------------ longer code

  /** Only what follows c0 has changed. */
  lemma GrownPrefix(c0: Code, h0: set<nat>, code: Code, code': Code, p: set<nat>)
    requires Grown(c0, h0, code, p) && |c0| <= |code'| && forall i: nat :: i < |c0| ==> code'[i] == code[i]
    ensures Grown(c0, h0, code', p)
  {
    forall i: nat | i < |c0|
      ensures ExtendsAt(c0, h0, code', i)
    {
      assert ExtendsAt(c0, h0, code, i);
    }
    forall i: nat | i in h0
      ensures i < |c0|
    {
      assert Open(c0, i);
    }
  }

  /** Jumps to here have landed. */
  lemma GrownLands(c0: Code, h0: set<nat>, code: Code, x: set<nat>, here: set<nat>, code': Code, q: set<nat>)
    requires Grown(c0, h0, code, x + here) && Lands(code, here, code') && |c0| <= |code|
    requires forall i: nat :: i in q ==> i >= |code|
    ensures Grown(c0, h0, code', x + q)
  {
    LandsExtends(code, here, code');
    ExtendsTransitive(c0, h0, code, here, code');
    forall i: nat | i in h0 && i !in x + q
      ensures i < |code'| && code'[i].Jmp? && |c0| <= i + 1 + code'[i].sbx
    {
      assert Open(c0, i) && LandsAt(code, here, code', i) && ExtendsAt(c0, h0, code, i);
    }
  }

  lemma GrownTransitive(c0: Code, h0: set<nat>, ca: Code, q: set<nat>, ha: set<nat>, cb: Code, pb: set<nat>)
    requires Grown(c0, h0, ca, q + ha) && Grown(ca, ha, cb, pb) && q !! ha && |c0| <= |ca|
    ensures Grown(c0, h0, cb, pb + q)
  {
    ExtendsTransitive(c0, h0, ca, ha, cb);
    forall i: nat | i in h0 && i !in pb + q
      ensures i < |cb| && cb[i].Jmp? && |c0| <= i + 1 + cb[i].sbx
    {
      assert Open(c0, i) && ExtendsAt(c0, h0, ca, i) && ExtendsAt(ca, ha, cb, i);
    }
  }

  /** Without their values the jumps are where they were. */
  lemma GrownUnset(c0: Code, h0: set<nat>, code: Code, s: set<nat>, p: set<nat>)
    requires Grown(c0, h0, code, p) && s <= p && AllOpen(code, s)
    ensures Grown(c0, h0, Unset(code, s), p)
  {
    var c := Unset(code, s);
    forall i: nat | i < |c0|
      ensures ExtendsAt(c0, h0, c, i)
    {
      assert ExtendsAt(c0, h0, code, i);
      assert i + 1 in h0 ==> Open(c0, i + 1);
      assert i + 1 in s ==> i + 1 in p;
    }
    forall i: nat | i in h0
      ensures i < |c0| && (code[i].Jmp? ==> c[i] == code[i])
    {
      assert Open(c0, i);
    }
  }

  lemma GrownRelinked(c0: Code, h0: set<nat>, code: Code, code': Code, s: set<nat>, p: set<nat>)
    requires Grown(c0, h0, code, p) && Relinked(code, code', s) && s <= p
    ensures Grown(c0, h0, code', p)
  {
    RelinkExtends(c0, h0, code, code', s);
  }

  lemma GrownResolved(c0: Code, h0: set<nat>, c: Code, t: set<nat>, f: set<nat>, here: set<nat>, c': Code, over: set<nat>, reg: nat, pf: int, pt: int)
    requires Grown(c0, h0, c, t + f + here) && Loaded(c, t, f, c', reg, pf, pt) && |c0| <= |c| && t !! here && f !! here
    requires forall i: nat :: i in over ==> i >= |c|
    ensures Grown(c0, h0, c', here + over)
  {
    ResolvedExtends(c, t, f, c', reg, pf, pt);
    ExtendsTransitive(c0, h0, c, t + f, c');
    forall i: nat | i in h0 && i !in here + over
      ensures i < |c'| && c'[i].Jmp? && |c0| <= i + 1 + c'[i].sbx
    {
      assert Open(c0, i) && ExtendsAt(c0, h0, c, i) && ResolvedAt(c, t, f, c', reg, pf, pt, i);
    }
  }

  lemma GrownBasics(c0: Code, h0: set<nat>, code: Code, p: set<nat>)
    requires Grown(c0, h0, code, p)
    ensures Complete(c0) && AllOpen(c0, h0) && |c0| <= |code|
  {
  }

  // ------------------------------------------------------------------ beginnings

  /** Nothing emitted yet. */
  lemma Begin(code: Code, here: set<nat>, k: seq<Value>, d: Kind, g: Goal)
    requires AllOpen(code, here) && Complete(code) && !d.VJmp? && !d.VRelocable? && !d.VNonreloc? && (d.VK? ==> d.i < |k|)
    requires g.c0 == code && g.h0 == here && g.aim == Unfinished
    requires match d
             case VNil => g.x == Expr.Constant(Nil)
             case VTrue => g.x == Expr.Constant(Bool(true))
             case VFalse => g.x == Expr.Constant(Bool(false))
             case VK(i) => i < |k| && g.x == Expr.Constant(k[i])
             case VKNum(n) => g.x == Expr.Constant(Num(n))
             case VLocal(i) => g.x == Local(i)
             case VUpval(i) => g.x == Upvalue(i)
             case _ => false
    ensures Computed(code, here, k, d, {}, {}, g)
  {
    assert Extends(code, here, code) by {
      forall i: nat | i < |code|
        ensures ExtendsAt(code, here, code, i)
      {
        if i in here { assert Open(code, i); }
      }
    }
    var none: set<nat> := {};
    assert none + none + here == here;
    forall m, r, e | Fits(m, k) && |r| == NO_REG && Starts(g, e, r)
      ensures Good(m, code, d, {}, {}, here, |code|, g.f0, e, r, Meaning(m, g, r, EntryValue(code, e, r)))
    {
      assert Exec(m, code, here, |code|, r) == Fall(r);
      if e.Some? { assert Open(code, e.value); }
    }
  }

  /** More constants do no harm. */
  lemma MoreConstants(code: Code, here: set<nat>, k: seq<Value>, k': seq<Value>, d: Kind, t: set<nat>, f: set<nat>, g: Goal)
    requires Computed(code, here, k, d, t, f, g) && k <= k'
    ensures Computed(code, here, k', d, t, f, g)
  {
    hide Shape, Grown, Good, Meaning, Quiescent, EntryValue;
    forall m, r, e | Fits(m, k') && |r| == NO_REG && Starts(g, e, r)
      ensures Good(m, code, d, t, f, here, |g.c0|, g.f0, e, r, Meaning(m, g, r, EntryValue(g.c0, e, r)))
    {
      assert Fits(m, k);
    }
  }

  lemma LocalComputed(code: Code, here: set<nat>, k: seq<Value>, i: nat, t: set<nat>, f: set<nat>, g: Goal)
    requires Computed(code, here, k, VLocal(i), t, f, g) && i < g.f0
    ensures Computed(code, here, k, VNonreloc(i), t, f, g)
  {
    hide Grown, Apart, Meaning, EntryValue, Leaves, Enter;
    forall m, r, e | Fits(m, k) && |r| == NO_REG && Starts(g, e, r)
      ensures Good(m, code, VNonreloc(i), t, f, here, |g.c0|, g.f0, e, r, Meaning(m, g, r, EntryValue(g.c0, e, r)))
    {
      assert Good(m, code, VLocal(i), t, f, here, |g.c0|, g.f0, e, r, Meaning(m, g, r, EntryValue(g.c0, e, r)));
    }
  }

  /** A constant of the table is the constant. */
  lemma KeptConstant(code: Code, here: set<nat>, k: seq<Value>, d: Kind, i: nat, t: set<nat>, f: set<nat>, g: Goal)
    requires Computed(code, here, k, d, t, f, g) && i < |k|
    requires match d
             case VNil => k[i] == Nil
             case VTrue => k[i] == Bool(true)
             case VFalse => k[i] == Bool(false)
             case VKNum(n) => k[i] == Num(n)
             case _ => false
    ensures Computed(code, here, k, VK(i), t, f, g)
  {
    hide Grown, Apart, Meaning, EntryValue, Leaves, Enter;
    forall m, r, e | Fits(m, k) && |r| == NO_REG && Starts(g, e, r)
      ensures Good(m, code, VK(i), t, f, here, |g.c0|, g.f0, e, r, Meaning(m, g, r, EntryValue(g.c0, e, r)))
    {
      assert Good(m, code, d, t, f, here, |g.c0|, g.f0, e, r, Meaning(m, g, r, EntryValue(g.c0, e, r)));
    }
  }

  /** An expression without jumps is in its one place already. */
  lemma AloneFinished(code: Code, here: set<nat>, k: seq<Value>, d: Kind, g: Goal)
    requires Computed(code, here, k, d, {}, {}, g) && g.aim == Unfinished
    ensures Computed(code, here, k, d, {}, {}, g.(aim := Finished))
  {
    hide Grown, Shape, Course, EntryValue, Enter, Quiescent, FallValue;
    forall m, r, e | Fits(m, k) && |r| == NO_REG && Starts(g, e, r)
      ensures Good(m, code, d, {}, {}, here, |g.c0|, g.f0, e, r, Meaning(m, g.(aim := Finished), r, EntryValue(g.c0, e, r)))
    {
      assert Good(m, code, d, {}, {}, here, |g.c0|, g.f0, e, r, Meaning(m, g, r, EntryValue(g.c0, e, r)));
    }
  }

  // ------------------------------------------------------------ loading a register

  /** i loads the value of a finished expression. */
  ghost predicate Loads(k: seq<Value>, i: Instr, code: Code, d: Kind) {
    forall m, s :: Fits(m, k) ==> InstrValue(m, i, s) == FallValue(m, code, d, s)
  }

  /** Emitting an instruction that is no test keeps the shape. */
  lemma EmitShape(code: Code, d: Kind, t: set<nat>, f: set<nat>, here: set<nat>, c0: Code, h0: set<nat>, i: Instr, d': Kind)
    requires Shape(code, d, t, f, here, |c0|) && !d.VJmp? && !d.VRelocable? && !i.TMode() && !i.Jmp?
    requires Grown(c0, h0, code, t + f + here)
    requires d'.VNonreloc? || (d' == VRelocable(|code|) && (i.GetUpval? || i.Not?))
    ensures Shape(Emit(code, here, i), d', t, f, {}, |c0|) && Grown(c0, h0, Emit(code, here, i), t + f + {})
  {
    var c := Emit(code, here, i);
    EmitLands(code, here, i);
    LandsApart(code, t, f, here, c);
    GrownLands(c0, h0, code, t + f, here, c, {});
    PatchedLast(code, here, i);
    ApartParts(code, t, f, here);
  }

  lemma PatchedLast(code: Code, here: set<nat>, i: Instr)
    requires Complete(code)
    ensures Complete(Patched(code, here, |code|, NO_REG, |code|)) && Emit(code, here, i)[..|code|] == Patched(code, here, |code|, NO_REG, |code|)
    ensures !i.TMode() ==> Complete(Emit(code, here, i))
  {
    var b := Patched(code, here, |code|, NO_REG, |code|);
    if |code| > 0 {
      assert b[|code| - 1] == PatchAt(code, here, |code|, NO_REG, |code|, |code| - 1);
    }
  }

  lemma LoadComputed(code: Code, here: set<nat>, k: seq<Value>, d: Kind, t: set<nat>, f: set<nat>, g: Goal, i: Instr)
    requires Computed(code, here, k, d, t, f, g)
    requires !d.VJmp? && !d.VRelocable? && Plain(i) && g.f0 <= i.a < NO_REG && Loads(k, i, code, d)
    ensures Computed(Emit(code, here, i), {}, k, VNonreloc(i.a), t, f, g)
  {
    EmitShape(code, d, t, f, here, g.c0, g.h0, i, VNonreloc(i.a));
    hide Shape, Grown, Good, Meaning, EntryValue;
    forall m, r, e | Fits(m, k) && |r| == NO_REG && Starts(g, e, r)
      ensures Good(m, Emit(code, here, i), VNonreloc(i.a), t, f, {}, |g.c0|, g.f0, e, r, Meaning(m, g, r, EntryValue(g.c0, e, r)))
    {
      LoadGood(m, code, d, t, f, here, |g.c0|, g.f0, e, r, Meaning(m, g, r, EntryValue(g.c0, e, r)), i);
    }
  }

  lemma DelayComputed(code: Code, here: set<nat>, k: seq<Value>, u: nat, t: set<nat>, f: set<nat>, g: Goal)
    requires Computed(code, here, k, VUpval(u), t, f, g)
    ensures Computed(Emit(code, here, GetUpval(0, u)), {}, k, VRelocable(|code|), t, f, g)
  {
    EmitShape(code, VUpval(u), t, f, here, g.c0, g.h0, GetUpval(0, u), VRelocable(|code|));
    hide Shape, Grown, Good, Meaning, EntryValue;
    forall m, r, e | Fits(m, k) && |r| == NO_REG && Starts(g, e, r)
      ensures Good(m, Emit(code, here, GetUpval(0, u)), VRelocable(|code|), t, f, {}, |g.c0|, g.f0, e, r, Meaning(m, g, r, EntryValue(g.c0, e, r)))
    {
      DelayGood(m, code, VUpval(u), t, f, here, |g.c0|, g.f0, e, r, Meaning(m, g, r, EntryValue(g.c0, e, r)), GetUpval(0, u));
    }
  }

  lemma SettleComputed(code: Code, k: seq<Value>, i: nat, t: set<nat>, f: set<nat>, g: Goal, reg: nat)
    requires Computed(code, {}, k, VRelocable(i), t, f, g) && g.f0 <= reg < NO_REG
    ensures i < |code| && Computed(code[i := WithA(code[i], reg)], {}, k, VNonreloc(reg), t, f, g)
  {
    SettleShape(code, i, t, f, g.c0, g.h0, reg);
    hide Shape, Grown, Good, Meaning, EntryValue;
    forall m, r, e | Fits(m, k) && |r| == NO_REG && Starts(g, e, r)
      ensures Good(m, code[i := WithA(code[i], reg)], VNonreloc(reg), t, f, {}, |g.c0|, g.f0, e, r, Meaning(m, g, r, EntryValue(g.c0, e, r)))
    {
      SettleGood(m, code, i, t, f, |g.c0|, g.f0, e, r, Meaning(m, g, r, EntryValue(g.c0, e, r)), reg);
    }
  }

  lemma SettleShape(code: Code, i: nat, t: set<nat>, f: set<nat>, c0: Code, h0: set<nat>, reg: nat)
    requires Shape(code, VRelocable(i), t, f, {}, |c0|) && Grown(c0, h0, code, t + f + {})
    ensures i < |code|
    ensures var c := code[i := WithA(code[i], reg)]; Shape(c, VNonreloc(reg), t, f, {}, |c0|) && Grown(c0, h0, c, t + f + {})
  {
    var c := code[i := WithA(code[i], reg)];
    forall x: nat | x in t || x in f
      ensures Open(c, x)
    {
      assert Open(code, x);
    }
    GrownPrefix(c0, h0, code, c, t + f + {});
  }

  // ------------------------------------------------------------------ conditions

  /** A test that takes its jump exactly when the finished expression is `cond`. */
  ghost predicate DecidesFor(k: seq<Value>, i: Instr, code: Code, d: Kind, cond: bool, truth: bool) {
    i.TMode() && forall m, s :: Fits(m, k) && |s| == NO_REG ==> Decides(m, i, s, FallValue(m, code, d, s), cond, truth)
  }

  /** The kind of a condition that is as wanted, and its two lists. */
  function Truth(want: bool): Kind {
    if want then VTrue else VFalse
  }

  /** The code behind c0 goes on if the expression is as wanted, and leaves through q
      if it is not. */
  ghost predicate Conditional(code: Code, q: set<nat>, here: set<nat>, k: seq<Value>, g: Goal, want: bool) {
    if want then Computed(code, here, k, VTrue, {}, q, g.(aim := Tested(true)))
    else Computed(code, here, k, VFalse, q, {}, g.(aim := Tested(false)))
  }

  lemma TestShape(code: Code, d: Kind, t: set<nat>, f: set<nat>, here: set<nat>, c0: Code, h0: set<nat>, i: Instr, cond: bool)
    requires Shape(code, d, t, f, here, |c0|) && Grown(c0, h0, code, t + f + here) && i.TMode()
    requires i.TestSet? ==> i.a == NO_REG
    ensures var b := Body(code, d);
            var j, c := |b| + 1, TestCode(b, here, i);
            if cond then Shape(c, VFalse, t + {j}, {}, f, |c0|) && Grown(c0, h0, c, t + {j} + {} + f)
            else Shape(c, VTrue, {}, f + {j}, t, |c0|) && Grown(c0, h0, c, {} + (f + {j}) + t)
    ensures var c := TestCode(Body(code, d), here, i); |c| > 0 && c[|c| - 1].Jmp?
  {
    var b := Body(code, d);
    var j, c := |b| + 1, TestCode(b, here, i);
    BodyApart(code, d, t, f, here, |c0|);
    ApartParts(b, t, f, here);
    TestLands(b, here, i);
    LandsApart(b, t, f, here, c);
    GrownPrefix(c0, h0, code, b, t + f + here);
    GrownLands(c0, h0, b, t + f, here, c, {j});
    assert t + {j} + {} + f == t + f + {j} == {} + (f + {j}) + t;
    hide Shape, Lands, Grown, Extends, TestCode;
    TestApart(b, t, f, here, c, i, |c0|, cond);
  }

  lemma TestApart(b: Code, t: set<nat>, f: set<nat>, here: set<nat>, c: Code, i: Instr, start: nat, cond: bool)
    requires Apart(c, t, f, {}) && c == TestCode(b, here, i) && i.TMode() && (i.TestSet? ==> i.a == NO_REG) && start <= |b| && AllOpen(b, here)
    requires forall x: nat :: x in t || x in f ==> x < |b|
    ensures var j := |b| + 1;
            && (if cond then Shape(c, VFalse, t + {j}, {}, f, start) else Shape(c, VTrue, {}, f + {j}, t, start))
            && |c| > 0 && c[|c| - 1].Jmp?
  {
    TestLands(b, here, i);
    assert Open(c, |b| + 1) && Complete(c);
  }

  /** jumponcond and what follows it: the expression becomes a condition. */
  lemma TestComputed(code: Code, here: set<nat>, k: seq<Value>, d: Kind, t: set<nat>, f: set<nat>, g: Goal, i: Instr, cond: bool)
    requires Computed(code, here, k, d, t, f, g) && DecidesFor(k, i, code, d, cond, BoolTail(g.x)) && g.aim == Unfinished
    requires i.TestSet? ==> i.a == NO_REG
    requires Tail(g.x).Some? ==> Truthy(Tail(g.x).value) == cond && Tail(g.x).value != Bool(cond)
    ensures var b := Body(code, d);
            var stay, go := if cond then t else f, if cond then f else t;
            Conditional(TestCode(b, here, i), stay + {|b| + 1}, go, k, g, !cond)
  {
    hide Means, Shape, Grown, Decides, Tail, BoolTail, TestCode, Body;
    TestShape(code, d, t, f, here, g.c0, g.h0, i, cond);
    TestMeans(code, here, k, d, t, f, g, i, cond);
  }

  lemma TestMeans(code: Code, here: set<nat>, k: seq<Value>, d: Kind, t: set<nat>, f: set<nat>, g: Goal, i: Instr, cond: bool)
    requires Means(code, here, k, d, t, f, g) && Shape(code, d, t, f, here, |g.c0|) && g.aim == Unfinished
    requires DecidesFor(k, i, code, d, cond, BoolTail(g.x))
    requires Tail(g.x).Some? ==> Truthy(Tail(g.x).value) == cond && Tail(g.x).value != Bool(cond)
    ensures var b := Body(code, d);
            var j, c := |b| + 1, TestCode(b, here, i);
            if cond then Means(c, f, k, VFalse, t + {j}, {}, g.(aim := Tested(false)))
            else Means(c, t, k, VTrue, {}, f + {j}, g.(aim := Tested(true)))
  {
    hide Shape, Good, DecidesFor, EntryValue, Course, Branch, Tail, BoolTail, TestCode, Body;
    var b := Body(code, d);
    var j, c := |b| + 1, TestCode(b, here, i);
    forall m, r, e | Fits(m, k) && |r| == NO_REG && Starts(g, e, r)
      ensures if cond then Good(m, c, VFalse, t + {j}, {}, f, |g.c0|, g.f0, e, r, Meaning(m, g.(aim := Tested(false)), r, EntryValue(g.c0, e, r)))
              else Good(m, c, VTrue, {}, f + {j}, t, |g.c0|, g.f0, e, r, Meaning(m, g.(aim := Tested(true)), r, EntryValue(g.c0, e, r)))
    {
      var w := EntryValue(g.c0, e, r);
      EndsIn(m, g.k0, g.x, r, w);
      assert Good(m, code, d, t, f, here, |g.c0|, g.f0, e, r, Meaning(m, g, r, w));
      TestAt(m, code, d, t, f, here, k, |g.c0|, g.f0, e, r, Course(m, g.k0, g.x, r, w), i, g.x, cond);
    }
  }

  lemma TestAt(m: Machine, code: Code, d: Kind, t: set<nat>, f: set<nat>, here: set<nat>, k: seq<Value>, start: nat, f0: nat, e: Option<nat>, r: Regs, flow: Flow, i: Instr, a: Expr, cond: bool)
    requires Shape(code, d, t, f, here, start) && Good(m, code, d, t, f, here, start, f0, e, r, flow) && |r| == NO_REG && Fits(m, k)
    requires DecidesFor(k, i, code, d, cond, BoolTail(a))
    requires Tail(a).Some? && flow.End? ==> Truthy(flow.v) == cond && flow.v != Bool(cond)
    ensures var b := Body(code, d);
            var j, c := |b| + 1, TestCode(b, here, i);
            if cond then Good(m, c, VFalse, t + {j}, {}, f, start, f0, e, r, Branch(a, flow, false))
            else Good(m, c, VTrue, {}, f + {j}, t, start, f0, e, r, Branch(a, flow, true))
  {
    hide Shape, Apart, Enter, Decides, Branch, FallValue, Leaves, Tail, BoolTail, TestCode, Carried;
    var b := Body(code, d);
    BodyApart(code, d, t, f, here, start);
    EnterPending(m, b, t + f + here, e, start, r);
    TestGood(m, b, t, f, here, start, f0, e, r, flow, i, a, cond);
  }

  /** A constant that decides its operator: an unconditional jump, which takes along
      what waits there. */
  lemma AlwaysComputed(code: Code, here: set<nat>, k: seq<Value>, t: set<nat>, f: set<nat>, g: Goal, cond: bool, link: int)
    requires Computed(code, here, k, Truth(cond), t, f, g) && Tail(g.x).Some? && g.aim == Unfinished
    ensures var stay, go := if cond then t else f, if cond then f else t;
            Conditional(code + [Jmp(link)], stay + ({|code|} + here), go, k, g, !cond)
  {
    var j, c := |code|, code + [Jmp(link)];
    AlwaysShape(code, here, t, f, g.c0, g.h0, cond, link);
    assert Apart(code, t, f, here) && Complete(code) && |g.c0| <= |code|;
    hide Shape, Grown, Apart, Good, EntryValue, Course, Branch, Tail;
    forall m, r, e | Fits(m, k) && |r| == NO_REG && Starts(g, e, r)
      ensures if cond then Good(m, c, VFalse, t + ({j} + here), {}, f, |g.c0|, g.f0, e, r, Meaning(m, g.(aim := Tested(false)), r, EntryValue(g.c0, e, r)))
              else Good(m, c, VTrue, {}, f + ({j} + here), t, |g.c0|, g.f0, e, r, Meaning(m, g.(aim := Tested(true)), r, EntryValue(g.c0, e, r)))
    {
      var w := EntryValue(g.c0, e, r);
      assert Good(m, code, Truth(cond), t, f, here, |g.c0|, g.f0, e, r, Meaning(m, g, r, w));
      AlwaysGood(m, code, t, f, here, |g.c0|, g.f0, e, r, Course(m, g.k0, g.x, r, w), g.x, cond, link);
    }
  }

  lemma AlwaysShape(code: Code, here: set<nat>, t: set<nat>, f: set<nat>, c0: Code, h0: set<nat>, cond: bool, link: int)
    requires Shape(code, Truth(cond), t, f, here, |c0|) && Grown(c0, h0, code, t + f + here)
    ensures var j, c := |code|, code + [Jmp(link)];
            if cond then Shape(c, VFalse, t + ({j} + here), {}, f, |c0|) && Grown(c0, h0, c, t + ({j} + here) + {} + f)
            else Shape(c, VTrue, {}, f + ({j} + here), t, |c0|) && Grown(c0, h0, c, {} + (f + ({j} + here)) + t)
  {
    var j, c := |code|, code + [Jmp(link)];
    ApartParts(code, t, f, here);
    assert Lands(code, {}, c) by { SettleLands(code, c); }
    assert t + f + here + {} == t + f + here;
    GrownLands(c0, h0, code, t + f + here, {}, c, {j});
    forall x: nat | x in t || x in f || x in here || x == j
      ensures Open(c, x)
    {
      if x != j { assert Open(code, x); }
    }
    assert t + ({j} + here) + {} + f == t + f + here + {j} == {} + (f + ({j} + here)) + t;
  }

  /** A constant as wanted needs no test. */
  lemma ConstantComputed(code: Code, here: set<nat>, k: seq<Value>, d: Kind, t: set<nat>, f: set<nat>, g: Goal, want: bool)
    requires Computed(code, here, k, d, t, f, g) && d.Const() && Constantly(g.x, want) && g.aim == Unfinished
    ensures var stay, go := if want then f else t, if want then t else f;
            Conditional(code, stay, here + go, k, g, want)
  {
    hide Means, Tail, Grown, Complete, Open;
    ApartParts(code, t, f, here);
    assert {} + f + (here + t) == t + f + here == t + {} + (here + f);
    ConstantMeans(code, here, k, d, t, f, g, want);
  }

  lemma ConstantMeans(code: Code, here: set<nat>, k: seq<Value>, d: Kind, t: set<nat>, f: set<nat>, g: Goal, want: bool)
    requires Means(code, here, k, d, t, f, g) && d.Const() && Constantly(g.x, want) && g.aim == Unfinished && t !! f && t !! here && f !! here
    ensures if want then Means(code, here + t, k, VTrue, {}, f, g.(aim := Tested(true)))
            else Means(code, here + f, k, VFalse, t, {}, g.(aim := Tested(false)))
  {
    hide Good, EntryValue, Course, Branch, Clears;
    forall m, r, e | Fits(m, k) && |r| == NO_REG && Starts(g, e, r)
      ensures if want then Good(m, code, VTrue, {}, f, here + t, |g.c0|, g.f0, e, r, Meaning(m, g.(aim := Tested(true)), r, EntryValue(g.c0, e, r)))
              else Good(m, code, VFalse, t, {}, here + f, |g.c0|, g.f0, e, r, Meaning(m, g.(aim := Tested(false)), r, EntryValue(g.c0, e, r)))
    {
      var w := EntryValue(g.c0, e, r);
      EndsIn(m, g.k0, g.x, r, w);
      assert Good(m, code, d, t, f, here, |g.c0|, g.f0, e, r, Meaning(m, g, r, w));
      ConstantGood(m, code, d, t, f, here, |g.c0|, g.f0, e, r, Course(m, g.k0, g.x, r, w), g.x, want);
    }
  }

  /** What a second operand may rely on where it starts. */
  ghost predicate Follows(ga: Goal, ca: Code, relies: bool) {
    relies ==> Sealed(ca) && (|ca| > |ga.c0| || (ca == ga.c0 && ga.relies && ga.h0 == {}))
  }

  lemma ClearsBehind(m: Machine, ca: Code, p: set<nat>, ga: Goal, e: Option<nat>, r: Regs, s: Regs)
    requires Follows(ga, ca, true) && Starts(ga, e, r) && Grown(ga.c0, ga.h0, ca, p)
    requires Enter(m, ca, p, e, |ga.c0|, r) == Fall(s)
    ensures Clears(ca, ga.n, s)
  {
    hide Extends, Complete, AllOpen;
    if |ca| > |ga.c0| && ca[|ca| - 1].LoadNil? {
      match e
      case None => ExecWiden(m, ca, ca, p, |ga.c0|, r);
      case Some(j) => ExecWiden(m, ca, ca, p, j + 1 + ca[j].sbx, if j > 0 then AfterTest(ca[j - 1], r) else r);
    }
  }

  lemma SecondQuiescent(ca: Code, q: set<nat>, ha: set<nat>, k: seq<Value>, ga: Goal, want: bool, cb: Code, hb: set<nat>, k': seq<Value>, d: Kind, t: set<nat>, f: set<nat>, gb: Goal)
    requires Conditional(ca, q, ha, k, ga, want) && Computed(cb, hb, k', d, t, f, gb) && gb.c0 == ca && gb.h0 == ha && gb.f0 == ga.f0
    ensures Quiescent(cb, d, hb, ga.f0, |ga.c0|)
  {
    hide Means, Shape;
    if |ca| > 0 { assert ExtendsAt(ca, ha, cb, |ca| - 1); }
  }

  /** The second operand of `and` and `or`, where ga is the goal of the first one. */
  lemma SecondComputed(ca: Code, q: set<nat>, ha: set<nat>, k: seq<Value>, ga: Goal, cb: Code, hb: set<nat>, k': seq<Value>, d: Kind, t: set<nat>, f: set<nat>, b: Expr, want: bool, relies: bool, n: nat)
    requires Conditional(ca, q, ha, k, ga, want) && ga.aim == Unfinished && k <= k' && Scoped(b, n) && n <= ga.f0
    requires Computed(cb, hb, k', d, t, f, Goal(ca, ha, ga.f0, KTested(ga.x, ga.k0, want), ga.n, relies, b, Unfinished)) && Follows(ga, ca, relies)
    ensures var t', f' := if want then t else t + q, if want then f + q else f;
            Computed(cb, hb, k', d, t', f', ga.(x := if want then And(ga.x, b) else Or(ga.x, b)))
  {
    hide Means, Shape, Grown, Follows, Scoped, KTested;
    var gb := Goal(ca, ha, ga.f0, KTested(ga.x, ga.k0, want), ga.n, relies, b, Unfinished);
    SecondShape(ca, q, ha, cb, hb, d, t, f, ga.c0, ga.h0, want);
    SecondQuiescent(ca, q, ha, k, ga, want, cb, hb, k', d, t, f, gb);
    SecondMeans(ca, q, ha, k, ga, cb, hb, k', d, t, f, b, want, relies, n);
  }

  lemma SecondMeans(ca: Code, q: set<nat>, ha: set<nat>, k: seq<Value>, ga: Goal, cb: Code, hb: set<nat>, k': seq<Value>, d: Kind, t: set<nat>, f: set<nat>, b: Expr, want: bool, relies: bool, n: nat)
    requires Conditional(ca, q, ha, k, ga, want) && ga.aim == Unfinished && k <= k' && Scoped(b, n) && n <= ga.f0
    requires Means(cb, hb, k', d, t, f, Goal(ca, ha, ga.f0, KTested(ga.x, ga.k0, want), ga.n, relies, b, Unfinished)) && Follows(ga, ca, relies)
    requires AllOpen(ca, q) && q !! ha && |ga.c0| <= |ca| && Grown(ca, ha, Body(cb, d), t + f + hb) && t !! f && t !! hb && f !! hb
    ensures var t', f' := if want then t else t + q, if want then f + q else f;
            Means(cb, hb, k', d, t', f', ga.(x := if want then And(ga.x, b) else Or(ga.x, b)))
  {
    var t', f' := if want then t else t + q, if want then f + q else f;
    var gb := Goal(ca, ha, ga.f0, KTested(ga.x, ga.k0, want), ga.n, relies, b, Unfinished);
    var g := ga.(x := if want then And(ga.x, b) else Or(ga.x, b));
    assert Grown(ga.c0, ga.h0, ca, q + ha) by { assert {} + q + ha == q + {} + ha == q + ha; }
    hide Follows, Shape, Grown, AllOpen, Good, EntryValue, KTested, Branch, Course;
    forall m, r, e | Fits(m, k') && |r| == NO_REG && Starts(ga, e, r)
      ensures Good(m, cb, d, t', f', hb, |ga.c0|, ga.f0, e, r, Meaning(m, g, r, EntryValue(ga.c0, e, r)))
    {
      assert Fits(m, k);
      var w := EntryValue(ga.c0, e, r);
      var fa := Branch(ga.x, Course(m, ga.k0, ga.x, r, w), want);
      assert if want then Good(m, ca, VTrue, {}, q, ha, |ga.c0|, ga.f0, e, r, Meaning(m, ga.(aim := Tested(true)), r, w))
             else Good(m, ca, VFalse, q, {}, ha, |ga.c0|, ga.f0, e, r, Meaning(m, ga.(aim := Tested(false)), r, w));
      forall s, e' | |s| == NO_REG && Entry(ha, e') && (e'.None? ==> Enter(m, ca, q + ha, e, |ga.c0|, r) == Fall(s))
        ensures Good(m, cb, d, t, f, hb, |ca|, ga.f0, e', s, Course(m, gb.k0, b, s, EntryValue(ca, e', s)))
      {
        if e'.None? && relies { ClearsBehind(m, ca, q + ha, ga, e, r, s); }
        assert Good(m, cb, d, t, f, hb, |ca|, ga.f0, e', s, Meaning(m, gb, s, EntryValue(ca, e', s)));
      }
      SecondAt(m, ca, q, ha, cb, d, t, f, hb, |ga.c0|, ga.f0, e, r, fa, gb.k0, b, n, want);
      CourseSecond(m, ga, b, r, w, want);
    }
  }

  lemma CourseSecond(m: Machine, ga: Goal, b: Expr, r: Regs, w: Option<Value>, want: bool)
    ensures var fa := Branch(ga.x, Course(m, ga.k0, ga.x, r, w), want);
            Course(m, ga.k0, if want then And(ga.x, b) else Or(ga.x, b), r, w) ==
            if fa.Out? then fa else Course(m, KTested(ga.x, ga.k0, want), b, r, fa.w)
  {
  }

  lemma SecondAt(m: Machine, ca: Code, q: set<nat>, ha: set<nat>, cb: Code, d: Kind, t: set<nat>, f: set<nat>, hb: set<nat>, start: nat, f0: nat, e: Option<nat>, r: Regs, fa: Flow, k: seq<Value>, b: Expr, n: nat, want: bool)
    requires if want then Good(m, ca, VTrue, {}, q, ha, start, f0, e, r, fa) else Good(m, ca, VFalse, q, {}, ha, start, f0, e, r, fa)
    requires |r| == NO_REG && start <= |ca| && AllOpen(ca, q) && q !! ha && Grown(ca, ha, Body(cb, d), t + f + hb)
    requires t !! f && t !! hb && f !! hb && Scoped(b, n) && n <= f0
    requires forall s, e' :: |s| == NO_REG && Entry(ha, e') && (e'.None? ==> Enter(m, ca, q + ha, e, start, r) == Fall(s)) ==>
               Good(m, cb, d, t, f, hb, |ca|, f0, e', s, Course(m, k, b, s, EntryValue(ca, e', s)))
    ensures var t', f' := if want then t else t + q, if want then f + q else f;
            Good(m, cb, d, t', f', hb, start, f0, e, r, if fa.Out? then fa else Course(m, k, b, r, fa.w))
  {
    hide Grown, AllOpen, Good, EntryValue, Course, Body, Enter;
    var course := u => Course(m, k, b, r, u);
    forall s, e' | Same(r, s, f0) && Entry(ha, e') && (e'.None? ==> Enter(m, ca, q + ha, e, start, r) == Fall(s))
      ensures Good(m, cb, d, t, f, hb, |ca|, f0, e', s, course(EntryValue(ca, e', s)))
    {
      CourseSame(m, k, b, r, s, n, EntryValue(ca, e', s));
    }
    SecondGood(m, ca, q, ha, cb, d, t, f, hb, start, f0, e, r, fa, course, want);
  }

  lemma SecondShape(ca: Code, q: set<nat>, ha: set<nat>, cb: Code, hb: set<nat>, d: Kind, t: set<nat>, f: set<nat>, c0: Code, h0: set<nat>, want: bool)
    requires if want then Shape(ca, VTrue, {}, q, ha, |c0|) && Grown(c0, h0, ca, {} + q + ha)
             else Shape(ca, VFalse, q, {}, ha, |c0|) && Grown(c0, h0, ca, q + {} + ha)
    requires Shape(cb, d, t, f, hb, |ca|) && Grown(ca, ha, cb, t + f + hb)
    ensures AllOpen(ca, q) && q !! ha && |c0| <= |ca| && Grown(ca, ha, Body(cb, d), t + f + hb) && t !! f && t !! hb && f !! hb
    ensures var t', f' := if want then t else t + q, if want then f + q else f;
            Shape(cb, d, t', f', hb, |c0|) && Grown(c0, h0, cb, t' + f' + hb)
  {
    var t', f' := if want then t else t + q, if want then f + q else f;
    assert {} + q + ha == q + {} + ha == q + ha;
    assert t' + f' + hb == t + f + hb + q;
    BodyApart(cb, d, t, f, hb, |ca|);
    GrownPrefix(ca, ha, cb, Body(cb, d), t + f + hb);
    GrownLists(ca, ha, cb, t + f + hb, q);
    GrownTransitive(c0, h0, ca, q, ha, cb, t + f + hb);
    assert forall x: nat :: x in q ==> x < |ca| by { ApartParts(ca, q, {}, ha); }
  }

  // ------------------------------------------------------------------- negation

  lemma NotShape(code: Code, b: nat, t: set<nat>, f: set<nat>, here: set<nat>, c0: Code, h0: set<nat>)
    requires Shape(code, VNonreloc(b), t, f, here, |c0|) && Grown(c0, h0, code, t + f + here)
    ensures var c := Unset(Emit(code, here, Not(0, b)), t + f);
            Shape(c, VRelocable(|code|), f, t, {}, |c0|) && Grown(c0, h0, c, f + t + {})
  {
    var c1 := Emit(code, here, Not(0, b));
    EmitShape(code, VNonreloc(b), t, f, here, c0, h0, Not(0, b), VRelocable(|code|));
    UnsetShape(c1, VRelocable(|code|), t, f, {}, c0, h0);
  }

  lemma UnsetShape(code: Code, d: Kind, t: set<nat>, f: set<nat>, here: set<nat>, c0: Code, h0: set<nat>)
    requires Shape(code, d, t, f, here, |c0|) && Grown(c0, h0, code, t + f + here)
    ensures Shape(Unset(code, t + f), d, f, t, here, |c0|) && Grown(c0, h0, Unset(code, t + f), f + t + here)
  {
    var c := Unset(code, t + f);
    assert f + t + here == t + f + here;
    GrownUnset(c0, h0, code, t + f, t + f + here);
    assert forall x: nat :: x < |code| && code[x].TMode() ==> c[x].TMode();
    assert forall x: nat :: x < |code| && !code[x].TMode() ==> c[x] == code[x];
    forall x: nat | x in t || x in f || x in here
      ensures Open(c, x)
    {
      assert Open(code, x);
      UnsetAt(code, t + f, x);
    }
    UnsetBody(code, d, t, f, here, |c0|);
  }

  lemma UnsetBody(code: Code, d: Kind, t: set<nat>, f: set<nat>, here: set<nat>, start: nat)
    requires Shape(code, d, t, f, here, start)
    ensures Complete(Body(Unset(code, t + f), d)) && |Body(Unset(code, t + f), d)| == |Body(code, d)| && Complete(Unset(code, t + f))
    ensures Last(Unset(code, t + f), d, here, start)
  {
  }

  lemma NotComputed(code: Code, here: set<nat>, k: seq<Value>, b: nat, t: set<nat>, f: set<nat>, g: Goal)
    requires Computed(code, here, k, VNonreloc(b), t, f, g) && g.aim == Unfinished
    ensures Computed(Unset(Emit(code, here, Not(0, b)), t + f), {}, k, VRelocable(|code|), f, t, g.(x := NotExp(g.x)))
  {
    NotShape(code, b, t, f, here, g.c0, g.h0);
    hide Shape, Grown, Good, EntryValue, Negate;
    forall m, r, e | Fits(m, k) && |r| == NO_REG && Starts(g, e, r)
      ensures Good(m, Unset(Emit(code, here, Not(0, b)), t + f), VRelocable(|code|), f, t, {}, |g.c0|, g.f0, e, r, Meaning(m, g.(x := NotExp(g.x)), r, EntryValue(g.c0, e, r)))
    {
      NotGood(m, code, b, t, f, here, |g.c0|, g.f0, e, r, Meaning(m, g, r, EntryValue(g.c0, e, r)), g.x);
    }
  }

  lemma NotJmpComputed(code: Code, k: seq<Value>, i: nat, t: set<nat>, f: set<nat>, g: Goal)
    requires Computed(code, {}, k, VJmp(i), t, f, g) && g.aim == Unfinished
    ensures 1 <= i < |code|
    ensures Computed(Unset(code[i - 1 := Inverted(code[i - 1])], t + f), {}, k, VJmp(i), f, t, g.(x := NotExp(g.x)))
  {
    InvertShape(code, i, t, f, g.c0, g.h0);
    UnsetShape(code[i - 1 := Inverted(code[i - 1])], VJmp(i), t, f, {}, g.c0, g.h0);
    hide Shape, Grown, Good, EntryValue, Negate;
    forall m, r, e | Fits(m, k) && |r| == NO_REG && Starts(g, e, r)
      ensures Good(m, Unset(code[i - 1 := Inverted(code[i - 1])], t + f), VJmp(i), f, t, {}, |g.c0|, g.f0, e, r, Meaning(m, g.(x := NotExp(g.x)), r, EntryValue(g.c0, e, r)))
    {
      NotJmpGood(m, code, i, t, f, |g.c0|, g.f0, e, r, Meaning(m, g, r, EntryValue(g.c0, e, r)), g.x);
    }
  }

  lemma InvertShape(code: Code, i: nat, t: set<nat>, f: set<nat>, c0: Code, h0: set<nat>)
    requires Shape(code, VJmp(i), t, f, {}, |c0|) && Grown(c0, h0, code, t + f + {})
    ensures 1 <= i < |code|
    ensures var c := code[i - 1 := Inverted(code[i - 1])]; Shape(c, VJmp(i), t, f, {}, |c0|) && Grown(c0, h0, c, t + f + {})
  {
    var c := code[i - 1 := Inverted(code[i - 1])];
    assert Body(c, VJmp(i)) == Body(code, VJmp(i));
    forall x: nat | x in t || x in f
      ensures Open(c, x)
    {
      assert Open(code, x);
    }
    GrownPrefix(c0, h0, code, c, t + f + {});
  }

  /** codenot on a constant. */
  lemma NotConstantComputed(code: Code, here: set<nat>, k: seq<Value>, d: Kind, t: set<nat>, f: set<nat>, g: Goal, v: bool)
    requires Computed(code, here, k, d, t, f, g) && g.aim == Unfinished && d.Const() && Constantly(g.x, v)
    ensures Computed(Unset(code, t + f), here, k, Truth(!v), f, t, g.(x := NotExp(g.x)))
  {
    hide Means, Shape, Grown, Tail, Apart;
    UnsetShape(code, d, t, f, here, g.c0, g.h0);
    BodyApart(code, d, t, f, here, |g.c0|);
    ConstShape(Unset(code, t + f), d, Truth(!v), f, t, here, |g.c0|);
    assert Quiescent(Unset(code, t + f), Truth(!v), here, g.f0, |g.c0|);
    NotConstantMeans(code, here, k, d, t, f, g, v);
  }

  lemma ConstShape(code: Code, d: Kind, d': Kind, t: set<nat>, f: set<nat>, here: set<nat>, start: nat)
    requires Shape(code, d, t, f, here, start) && d.Const() && d'.Const()
    ensures Shape(code, d', t, f, here, start)
  {
  }

  lemma NotConstantMeans(code: Code, here: set<nat>, k: seq<Value>, d: Kind, t: set<nat>, f: set<nat>, g: Goal, v: bool)
    requires Means(code, here, k, d, t, f, g) && g.aim == Unfinished && d.Const() && Constantly(g.x, v) && Apart(code, t, f, here)
    ensures Means(Unset(code, t + f), here, k, Truth(!v), f, t, g.(x := NotExp(g.x)))
  {
    hide Apart, EntryValue, Good, Course, Negate, FallValue, Clears;
    forall m, r, e | Fits(m, k) && |r| == NO_REG && Starts(g, e, r)
      ensures Good(m, Unset(code, t + f), Truth(!v), f, t, here, |g.c0|, g.f0, e, r, Meaning(m, g.(x := NotExp(g.x)), r, EntryValue(g.c0, e, r)))
    {
      var w := EntryValue(g.c0, e, r);
      EndsIn(m, g.k0, g.x, r, w);
      CourseNot(m, g.k0, g.x, r, w);
      assert Good(m, code, d, t, f, here, |g.c0|, g.f0, e, r, Meaning(m, g, r, w));
      NotConstantGood(m, code, d, t, f, here, |g.c0|, g.f0, e, r, Course(m, g.k0, g.x, r, w), g.x, v);
    }
  }

  lemma CourseNot(m: Machine, k: seq<Value>, x: Expr, r: Regs, w: Option<Value>)
    ensures Course(m, k, NotExp(x), r, w) == Negate(x, Course(m, k, x, r, w))
  {
  }

  lemma NotConstantGood(m: Machine, code: Code, d: Kind, t: set<nat>, f: set<nat>, here: set<nat>, start: nat, f0: nat, e: Option<nat>, r: Regs, flow: Flow, a: Expr, v: bool)
    requires Apart(code, t, f, here) && Good(m, code, d, t, f, here, start, f0, e, r, flow) && |r| == NO_REG
    requires d.Const() && Tail(a).Some? && (flow.End? ==> Truthy(flow.v) == v)
    ensures Good(m, Unset(code, t + f), Truth(!v), f, t, here, start, f0, e, r, Negate(a, flow))
  {
    hide Apart, Enter, Leaves;
    NegateLeaves(m, code, t, f, here, start, f0, e, r, flow, a);
  }

  // ----------------------------------------------------------------- comparisons

  /** The code behind c0 leaves the value of an expression in operand o; a jump that
      waits at its end carries what the course says, if `quiet`. */
  ghost predicate Operand(code: Code, here: set<nat>, k: seq<Value>, o: nat, quiet: bool, g: Goal) {
    && AllOpen(code, here) && Complete(code) && Grown(g.c0, g.h0, code, here)
    && forall m, r, e :: Fits(m, k) && |r| == NO_REG && Starts(g, e, r) ==>
         OperandAt(m, code, here, o, quiet, g, e, r, Course(m, g.k0, g.x, r, EntryValue(g.c0, e, r)))
  }

  ghost predicate OperandAt(m: Machine, code: Code, here: set<nat>, o: nat, quiet: bool, g: Goal, e: Option<nat>, r: Regs, flow: Flow) {
    OperandGood(m, code, here, o, |g.c0|, g.f0, e, r, Final(flow), if quiet && flow.End? then flow.w else None)
  }

  lemma OperandOf(code: Code, here: set<nat>, k: seq<Value>, d: Kind, o: nat, g: Goal)
    requires Computed(code, here, k, d, {}, {}, g) && g.aim == Finished
    requires (d == VNonreloc(o) && o < BITRK) || (d.VK? && o == BITRK + d.i)
    ensures Operand(code, here, k, o, Carries(d, g.f0), g)
  {
    var none: set<nat> := {};
    assert none + none + here == here;
    hide Grown, Good, EntryValue, Enter, Quiescent, OperandGood, Course;
    forall m, r, e | Fits(m, k) && |r| == NO_REG && Starts(g, e, r)
      ensures OperandAt(m, code, here, o, Carries(d, g.f0), g, e, r, Course(m, g.k0, g.x, r, EntryValue(g.c0, e, r)))
    {
      OperandOfGood(m, code, d, here, o, |g.c0|, g.f0, e, r, Meaning(m, g, r, EntryValue(g.c0, e, r)));
    }
  }

  /** The test of a comparison: `>` and `>=` exchange their operands. */
  function CmpInstr(op: BinOp, o1: nat, o2: nat): Instr {
    match op
    case OpEq => Cmp(EQ, true, o1, o2)
    case OpNe => Cmp(EQ, false, o1, o2)
    case OpLt => Cmp(LT, true, o1, o2)
    case OpLe => Cmp(LE, true, o1, o2)
    case OpGt => Cmp(LT, true, o2, o1)
    case OpGe => Cmp(LE, true, o2, o1)
  }

  lemma CompareShape(cb: Code, hb: set<nat>, c0: Code, h0: set<nat>, i: Instr)
    requires AllOpen(cb, hb) && Complete(cb) && Grown(c0, h0, cb, hb) && i.Cmp?
    ensures Shape(TestCode(cb, hb, i), VJmp(|cb| + 1), {}, {}, {}, |c0|) && Grown(c0, h0, TestCode(cb, hb, i), {})
  {
    var c := TestCode(cb, hb, i);
    TestLands(cb, hb, i);
    var none: set<nat> := {};
    assert none + hb == hb && none + none == none;
    GrownLands(c0, h0, cb, {}, hb, c, {});
    PatchedLast(cb, hb, i);
    assert Body(c, VJmp(|cb| + 1)) == Patched(cb, hb, |cb|, NO_REG, |cb|);
  }

  lemma CompareComputed(ca: Code, ha: set<nat>, k: seq<Value>, o1: nat, ga: Goal, cb: Code, hb: set<nat>, k': seq<Value>, o2: nat, q2: bool, b: Expr, op: BinOp, f1: nat, relies: bool, n: nat)
    requires Operand(ca, ha, k, o1, Quiet(ga.x, ga.k0), ga) && k <= k' && ga.aim == Finished
    requires Operand(cb, hb, k', o2, q2, Goal(ca, ha, f1, KOperand(ga.x, ga.k0), ga.n, relies, b, Finished)) && Follows(ga, ca, relies)
    requires ga.f0 <= f1 && (o1 < BITRK ==> o1 < f1) && Scoped(b, n) && n <= ga.f0
    ensures Computed(TestCode(cb, hb, CmpInstr(op, o1, o2)), {}, k', VJmp(|cb| + 1), {}, {}, ga.(x := Relation(op, ga.x, b), aim := Unfinished))
  {
    var i := CmpInstr(op, o1, o2);
    var g := ga.(x := Relation(op, ga.x, b), aim := Unfinished);
    var none: set<nat> := {};
    assert none + ha == ha && hb + none == hb && none + none + none == none;
    GrownTransitive(ga.c0, ga.h0, ca, {}, ha, cb, hb);
    CompareShape(cb, hb, ga.c0, ga.h0, i);
    hide Shape, Grown, Good, Operand, EntryValue, Quiet, KOperand, Course, Follows;
    forall m, r, e | Fits(m, k') && |r| == NO_REG && Starts(ga, e, r)
      ensures Good(m, TestCode(cb, hb, i), VJmp(|cb| + 1), {}, {}, {}, |ga.c0|, ga.f0, e, r, Meaning(m, g, r, EntryValue(ga.c0, e, r)))
    {
      assert Fits(m, k);
      CompareAt(m, ca, ha, k, o1, ga, cb, hb, k', o2, q2, b, op, f1, relies, n, e, r);
    }
  }

  lemma CompareAt(m: Machine, ca: Code, ha: set<nat>, k: seq<Value>, o1: nat, ga: Goal, cb: Code, hb: set<nat>, k': seq<Value>, o2: nat, q2: bool, b: Expr, op: BinOp, f1: nat, relies: bool, n: nat, e: Option<nat>, r: Regs)
    requires Operand(ca, ha, k, o1, Quiet(ga.x, ga.k0), ga) && Fits(m, k) && Fits(m, k') && |r| == NO_REG && Starts(ga, e, r)
    requires Operand(cb, hb, k', o2, q2, Goal(ca, ha, f1, KOperand(ga.x, ga.k0), ga.n, relies, b, Finished)) && Follows(ga, ca, relies)
    requires ga.f0 <= f1 && (o1 < BITRK ==> o1 < f1) && Scoped(b, n) && n <= ga.f0
    ensures Good(m, TestCode(cb, hb, CmpInstr(op, o1, o2)), VJmp(|cb| + 1), {}, {}, {}, |ga.c0|, ga.f0, e, r,
                 Course(m, ga.k0, Relation(op, ga.x, b), r, EntryValue(ga.c0, e, r)))
  {
    hide Grown, Good, AllOpen, OperandGood, Complete, EntryValue, Quiet, KOperand, TestCode, Follows, Enter;
    var gb := Goal(ca, ha, f1, KOperand(ga.x, ga.k0), ga.n, relies, b, Finished);
    var fa := Course(m, ga.k0, ga.x, r, EntryValue(ga.c0, e, r));
    var w1 := Passed(ga.x, ga.k0, fa);
    var fb := Course(m, gb.k0, b, r, w1);
    GrownLength(ga.c0, ga.h0, ca, ha);
    assert OperandAt(m, ca, ha, o1, Quiet(ga.x, ga.k0), ga, e, r, fa);
    RightOperand(m, cb, hb, k', o2, q2, gb, r, ga.f0, n, w1);
    forall s, e' | Same(r, s, ga.f0) && Entry(ha, e') && (e'.None? ==> Enter(m, ca, ha, e, |ga.c0|, r) == Fall(s)) && EntryValue(ca, e', s) == w1
      ensures Starts(gb, e', s)
    {
      if e'.None? && relies { ClearsBehind(m, ca, ha, ga, e, r, s); }
    }
    CmpGood(m, ca, ha, o1, cb, hb, o2, if op.OpEq? || op.OpNe? then EQ else if op.OpLt? || op.OpGt? then LT else LE,
            !op.OpNe?, op.OpGt? || op.OpGe?, |ga.c0|, ga.f0, f1, e, r, Final(fa), Final(fb), w1, if q2 && fb.End? then fb.w else None);
  }

  lemma RightOperand(m: Machine, cb: Code, hb: set<nat>, k: seq<Value>, o2: nat, q2: bool, gb: Goal, r: Regs, f0: nat, n: nat, w: Option<Value>)
    requires Operand(cb, hb, k, o2, q2, gb) && Fits(m, k) && |r| == NO_REG && Scoped(gb.x, n) && n <= f0
    ensures var fb := Course(m, gb.k0, gb.x, r, w);
            forall s, e' :: Same(r, s, f0) && Starts(gb, e', s) && EntryValue(gb.c0, e', s) == w ==>
              OperandGood(m, cb, hb, o2, |gb.c0|, gb.f0, e', s, Final(fb), if q2 && fb.End? then fb.w else None)
  {
    hide OperandGood, EntryValue, Grown, AllOpen, Course;
    var fb := Course(m, gb.k0, gb.x, r, w);
    forall s, e' | Same(r, s, f0) && Starts(gb, e', s) && EntryValue(gb.c0, e', s) == w
      ensures OperandGood(m, cb, hb, o2, |gb.c0|, gb.f0, e', s, Final(fb), if q2 && fb.End? then fb.w else None)
    {
      CourseSame(m, gb.k0, gb.x, r, s, n, w);
      assert OperandAt(m, cb, hb, o2, q2, gb, e', s, Course(m, gb.k0, gb.x, s, EntryValue(gb.c0, e', s)));
    }
  }

  // --------------------------------------------------------------- wider LOADNILs

  /** Code that has nothing of its own yet stays so when the instruction before it gets
      wider. */
  lemma WidenComputed(code: Code, here: set<nat>, k: seq<Value>, d: Kind, t: set<nat>, f: set<nat>, g: Goal, w: Code)
    requires Computed(code, here, k, d, t, f, g) && |code| == |g.c0| && g.h0 == {} && Widens(code, w, g.f0)
    ensures code == g.c0 && t == {} && f == {} && here == {} && Computed(w, here, k, d, t, f, g.(c0 := w))
  {
    assert code == g.c0 by { SameCode(code, here, d, t, f, g); }
    assert t == {} && f == {} && here == {} by { NothingWaits(code, here, d, t, f, g); }
    assert Extends(w, {}, w) by { assert forall i: nat :: i < |w| ==> ExtendsAt(w, {}, w, i); }
    var none: set<nat> := {};
    assert none + none + none == none;
    var g' := g.(c0 := w);
    forall m, r, e | Fits(m, k) && |r| == NO_REG && Starts(g', e, r)
      ensures Good(m, w, d, t, f, here, |w|, g.f0, e, r, Meaning(m, g', r, EntryValue(w, e, r)))
    {
      assert Starts(g, e, r);
      assert Good(m, code, d, t, f, here, |code|, g.f0, e, r, Meaning(m, g, r, EntryValue(code, e, r)));
    }
  }

  lemma SameCode(code: Code, here: set<nat>, d: Kind, t: set<nat>, f: set<nat>, g: Goal)
    requires Grown(g.c0, g.h0, code, t + f + here) && |code| == |g.c0| && g.h0 == {}
    ensures code == g.c0
  {
    forall i: nat | i < |code|
      ensures code[i] == g.c0[i]
    {
      assert ExtendsAt(g.c0, {}, code, i);
    }
  }

  lemma NothingWaits(code: Code, here: set<nat>, d: Kind, t: set<nat>, f: set<nat>, g: Goal)
    requires Shape(code, d, t, f, here, |g.c0|) && Grown(g.c0, g.h0, code, t + f + here) && |code| == |g.c0| && g.h0 == {}
    ensures t == {} && f == {} && here == {}
  {
    ApartParts(code, t, f, here);
    assert forall x: nat :: x in t || x in f || x in here ==> x in t + f + here;
    assert forall x: nat :: x in t + f + here ==> |g.c0| <= x;
  }

  /** An operand keeps its value when the last LOADNIL behind it gets wider. */
  lemma WidenOperand(ca: Code, k: seq<Value>, o: nat, quiet: bool, g: Goal, w: Code, f1: nat)
    requires Operand(ca, {}, k, o, quiet, g) && Widens(ca, w, f1) && Sealed(ca) && |ca| > |g.c0|
    requires g.f0 <= f1 && (o < BITRK ==> o < f1)
    ensures Operand(w, {}, k, o, quiet, g)
  {
    GrownPrefix(g.c0, g.h0, ca, w, {});
    hide Grown, Course, EntryValue, Starts, Sealed, Enter, Widens;
    assert Complete(w) by { WidenComplete(ca, w, f1); }
    forall m, r, e | Fits(m, k) && |r| == NO_REG && Starts(g, e, r)
      ensures OperandAt(m, w, {}, o, quiet, g, e, r, Course(m, g.k0, g.x, r, EntryValue(g.c0, e, r)))
    {
      assert OperandAt(m, ca, {}, o, quiet, g, e, r, Course(m, g.k0, g.x, r, EntryValue(g.c0, e, r)));
      EnterPending(m, ca, {}, e, |g.c0|, r);
      EnterWiden(m, ca, w, e, |g.c0|, r, o, g.f0, f1);
    }
  }

  lemma WidenComplete(ca: Code, w: Code, f1: nat)
    requires Widens(ca, w, f1) && Complete(ca)
    ensures Complete(w)
  {
  }

  lemma EnterWiden(m: Machine, ca: Code, w: Code, e: Option<nat>, start: nat, r: Regs, o: nat, f0: nat, f1: nat)
    requires Widens(ca, w, f1) && Sealed(ca) && start < |ca| && f0 <= f1 && (o < BITRK ==> o < f1)
    requires Enter(m, ca, {}, e, start, r).Fall? && Same(r, Enter(m, ca, {}, e, start, r).r, f0)
    ensures var u, u' := Enter(m, ca, {}, e, start, r), Enter(m, w, {}, e, start, r);
            u'.Fall? && Same(r, u'.r, f0) && RK(m, u'.r, o) == RK(m, u.r, o)
  {
    hide *;
    if w != ca {
      WidensBy(ca, w, f1);
      EnterWider(m, ca, w, e, start, r, f1);
      MoreNils(m, r, Enter(m, ca, {}, e, start, r).r, ca[|ca| - 1].a, ca[|ca| - 1].b, w[|ca| - 1].b, o, f0, f1);
    }
  }

  lemma EnterWider(m: Machine, ca: Code, w: Code, e: Option<nat>, start: nat, r: Regs, f1: nat)
    requires Widens(ca, w, f1) && w != ca && Sealed(ca) && start < |ca|
    requires Enter(m, ca, {}, e, start, r).Fall?
    ensures var u, i, i' := Enter(m, ca, {}, e, start, r).r, ca[|ca| - 1], w[|ca| - 1];
            u == Nils(u, i.a, i.b) && Enter(m, w, {}, e, start, r) == Fall(Nils(u, i.a, i'.b))
  {
    hide Sealed, Widens, Nils, AfterTest;
    match e
    case None => RunWiden(m, ca, w, start, r, f1);
    case Some(j) =>
      WidensBy(ca, w, f1);
      SealedJump(ca, j);
      assert w[j] == ca[j];
      assert j > 0 ==> w[j - 1] == ca[j - 1];
      RunWiden(m, ca, w, j + 1 + ca[j].sbx, if j > 0 then AfterTest(ca[j - 1], r) else r, f1);
  }

  lemma WidensBy(ca: Code, w: Code, f1: nat)
    requires Widens(ca, w, f1) && w != ca
    ensures |w| == |ca| > 0 && ca[|ca| - 1].LoadNil? && w[|ca| - 1].LoadNil? && w[|ca| - 1].a == ca[|ca| - 1].a
    ensures ca[|ca| - 1].b <= w[|ca| - 1].b && f1 <= ca[|ca| - 1].b + 1
    ensures forall j: nat :: j + 1 < |ca| ==> w[j] == ca[j]
    ensures forall j: nat :: j < |ca| && ca[j].Jmp? ==> w[j] == ca[j]
  {
  }

  lemma SealedJump(ca: Code, j: nat)
    requires Sealed(ca) && j < |ca| && ca[j].Jmp?
    ensures j + 1 + ca[j].sbx < |ca|
  {
  }

  lemma RunWiden(m: Machine, ca: Code, w: Code, pc: nat, r: Regs, f1: nat)
    requires Widens(ca, w, f1) && w != ca && Sealed(ca) && pc < |ca|
    ensures var o, i, i' := Exec(m, ca, {}, pc, r), ca[|ca| - 1], w[|ca| - 1];
            o.Fall? ==> o.r == Nils(o.r, i.a, i.b) && Exec(m, w, {}, pc, r) == Fall(Nils(o.r, i.a, i'.b))
  {
    ExecWiden(m, ca, ca, {}, pc, r);
    ExecWiden(m, ca, w, {}, pc, r);
  }

  lemma MoreNils(m: Machine, r: Regs, u: Regs, a: nat, b: nat, b': nat, o: nat, f0: nat, f1: nat)
    requires u == Nils(u, a, b) && Same(r, u, f0) && f0 <= f1 <= b + 1 && (o < BITRK ==> o < f1)
    ensures Same(r, Nils(u, a, b'), f0) && RK(m, Nils(u, a, b'), o) == RK(m, u, o)
  {
    assert forall i :: a <= i <= b && i < |u| ==> u[i] == Nil;
  }

  /** The same for an operand that has no code of its own. */
  lemma WidenAlone(ca: Code, here: set<nat>, k: seq<Value>, o: nat, quiet: bool, g: Goal, w: Code)
    requires Operand(ca, here, k, o, quiet, g) && Widens(ca, w, g.f0) && |ca| == |g.c0| && g.h0 == {}
    ensures here == {} && ca == g.c0 && Operand(w, {}, k, o, quiet, g.(c0 := w))
  {
    var none: set<nat> := {};
    assert ca == g.c0 by {
      forall i: nat | i < |ca|
        ensures ca[i] == g.c0[i]
      {
        assert ExtendsAt(g.c0, {}, ca, i);
      }
    }
    assert here == none by {
      assert forall x: nat :: x in here ==> Open(ca, x) && |g.c0| <= x;
    }
    assert Extends(w, {}, w) by { assert forall i: nat :: i < |w| ==> ExtendsAt(w, {}, w, i); }
    forall m, r, e | Fits(m, k) && |r| == NO_REG && Starts(g.(c0 := w), e, r)
      ensures OperandAt(m, w, {}, o, quiet, g.(c0 := w), e, r, Course(m, g.k0, g.x, r, EntryValue(w, e, r)))
    {
      assert OperandAt(m, ca, here, o, quiet, g, e, r, Course(m, g.k0, g.x, r, EntryValue(g.c0, e, r)));
    }
  }

  /** luaK_nil without an instruction of its own: nil is in the register already. */
  lemma NilThere(code: Code, k: seq<Value>, g: Goal, reg: nat)
    requires Computed(code, {}, k, VNil, {}, {}, g) && code == g.c0 && g.relies && g.h0 == {} && g.f0 <= reg < NO_REG
    requires if |code| == 0 then g.n <= reg else code[|code| - 1].LoadNil? && code[|code| - 1].a <= reg <= code[|code| - 1].b
    ensures Computed(code, {}, k, VNonreloc(reg), {}, {}, g)
  {
    hide Grown;
    var none: set<nat> := {};
    assert none + none + none == none;
    forall m, r, e | Fits(m, k) && |r| == NO_REG && Starts(g, e, r)
      ensures Good(m, code, VNonreloc(reg), {}, {}, {}, |g.c0|, g.f0, e, r, Meaning(m, g, r, EntryValue(g.c0, e, r)))
    {
      assert Good(m, code, VNil, {}, {}, {}, |g.c0|, g.f0, e, r, Meaning(m, g, r, EntryValue(g.c0, e, r)));
      NilAt(m, code, reg, g, e, r);
    }
  }

  lemma NilAt(m: Machine, code: Code, reg: nat, g: Goal, e: Option<nat>, r: Regs)
    requires Starts(g, e, r) && code == g.c0 && g.relies && g.h0 == {} && reg < |r|
    requires if |code| == 0 then g.n <= reg else code[|code| - 1].LoadNil? && code[|code| - 1].a <= reg <= code[|code| - 1].b
    requires Grown(g.c0, g.h0, code, {})
    requires Enter(m, code, {}, e, |g.c0|, r) != Stuck
    ensures e.None? && Enter(m, code, {}, e, |g.c0|, r) == Fall(r) && Reg(r, reg) == Nil
  {
  }

  // ------------------------------------------------------------------- finishing

  /** The loads of false and true. */
  function WithLoads(code: Code, reg: nat): Code {
    code + [LoadBool(reg, false, true), LoadBool(reg, true, false)]
  }

  lemma NoneNeeded(c: Code, t: set<nat>, f: set<nat>)
    requires !NeedsValue(c, t) && !NeedsValue(c, f)
    ensures forall j: nat :: j in t || j in f ==> TakesValue(c, j)
  {
  }

  lemma FinishShape(c: Code, t: set<nat>, f: set<nat>, here: set<nat>, c0: Code, h0: set<nat>, reg: nat, w: Code, over: set<nat>, pf: int, pt: int)
    requires Shape(c, VNonreloc(reg), t, f, here, |c0|) && Grown(c0, h0, c, t + f + here)
    requires |c| <= |w| && w[..|c|] == c && Complete(w) && over <= {|c|} && (over == {|c|} ==> |w| > |c| && w[|c|].Jmp?)
    requires Loaded(c, t, f, PatchBoth(w, t, f, reg, pf, pt), reg, pf, pt)
    requires forall j: nat :: j in here ==> !TakesValue(c, j)
    ensures var c' := PatchBoth(w, t, f, reg, pf, pt);
            && Shape(c', VNonreloc(reg), {}, {}, here + over, |c0|) && Grown(c0, h0, c', {} + {} + (here + over))
            && forall j: nat :: j in here + over ==> !TakesValue(c', j)
  {
    var c' := PatchBoth(w, t, f, reg, pf, pt);
    ApartParts(c, t, f, here);
    PatchBothAt(c, w, t, f, reg, pf, pt);
    assert {} + {} + (here + over) == here + over;
    GrownResolved(c0, h0, c, t, f, here, c', over, reg, pf, pt);
    LastOpen(w, t, f, reg, pf, pt);
    hide Loaded, PatchBoth, Grown;
    forall x: nat | x in here + over
      ensures Open(c', x) && !TakesValue(c', x)
    {
      StaysOpen(c, t, f, here, c', reg, pf, pt, x);
    }
  }

  lemma StaysOpen(c: Code, t: set<nat>, f: set<nat>, here: set<nat>, c': Code, reg: nat, pf: int, pt: int, x: nat)
    requires Loaded(c, t, f, c', reg, pf, pt) && Apart(c, t, f, here) && Complete(c)
    requires if x in here then !TakesValue(c, x) else x == |c| < |c'| && c'[x].Jmp?
    ensures Open(c', x) && !TakesValue(c', x)
  {
    if x > 0 { assert ResolvedAt(c, t, f, c', reg, pf, pt, x - 1); }
    if x in here { assert Open(c, x) && ResolvedAt(c, t, f, c', reg, pf, pt, x); }
    if x > 0 && (x - 1 in t || x - 1 in f) { assert Open(c, x - 1); }
  }

  lemma LastOpen(w: Code, t: set<nat>, f: set<nat>, reg: nat, pf: int, pt: int)
    requires Complete(w)
    ensures Complete(PatchBoth(w, t, f, reg, pf, pt)) && |PatchBoth(w, t, f, reg, pf, pt)| == |w|
  {
    var c1 := Patched(w, f, |w|, reg, pf);
    if |w| > 0 {
      assert c1[|w| - 1] == PatchAt(w, f, |w|, reg, pf, |w| - 1);
      assert PatchBoth(w, t, f, reg, pf, pt)[|w| - 1] == PatchAt(c1, t, |w|, reg, pt, |w| - 1);
    }
  }

  /** exp2reg on a value, given how the code has changed. */
  lemma FinishComputed(c: Code, here: set<nat>, k: seq<Value>, t: set<nat>, f: set<nat>, g: Goal, reg: nat, w: Code, over: set<nat>, pf: int, pt: int)
    requires Computed(c, here, k, VNonreloc(reg), t, f, g) && g.f0 <= reg < NO_REG && g.aim == Unfinished
    requires |c| <= |w| && w[..|c|] == c && Complete(w) && Loaded(c, t, f, PatchBoth(w, t, f, reg, pf, pt), reg, pf, pt)
    requires if over == {} then w == c else over == {|c|} && |w| > |c| && w[|c|].Jmp?
    ensures Computed(PatchBoth(w, t, f, reg, pf, pt), here + over, k, VNonreloc(reg), {}, {}, g.(aim := Finished))
  {
    var c' := PatchBoth(w, t, f, reg, pf, pt);
    FinishShape(c, t, f, here, g.c0, g.h0, reg, w, over, pf, pt);
    LastOpen(w, t, f, reg, pf, pt);
    assert over != {} ==> |c| in here + over;
    assert over != {} ==> Open(c', |c|) && (|c| > 0 ==> !c'[|c| - 1].TMode()) by {
      if over != {} { BehindComplete(c, t, f, c', reg, pf, pt); }
    }
    hide Shape, Grown, Good, Loaded, EntryValue, Course, PatchBoth;
    forall m, r, e | Fits(m, k) && |r| == NO_REG && Starts(g, e, r)
      ensures Good(m, c', VNonreloc(reg), {}, {}, here + over, |g.c0|, g.f0, e, r, Meaning(m, g.(aim := Finished), r, EntryValue(g.c0, e, r)))
    {
      FinishGood(m, c, t, f, here, c', over, reg, pf, pt, |g.c0|, g.f0, e, r, Meaning(m, g, r, EntryValue(g.c0, e, r)));
    }
  }

  lemma BehindComplete(c: Code, t: set<nat>, f: set<nat>, c': Code, reg: nat, pf: int, pt: int)
    requires Loaded(c, t, f, c', reg, pf, pt) && Complete(c)
    ensures |c| > 0 ==> !c'[|c| - 1].TMode()
  {
    if |c| > 0 { assert ResolvedAt(c, t, f, c', reg, pf, pt, |c| - 1); }
  }

  /** exp2reg when every jump is taken with its value: they lead to the end. */
  lemma FinishPlainly(c: Code, here: set<nat>, k: seq<Value>, t: set<nat>, f: set<nat>, g: Goal, reg: nat)
    requires Computed(c, here, k, VNonreloc(reg), t, f, g) && g.f0 <= reg < NO_REG && g.aim == Unfinished
    requires !NeedsValue(c, t) && !NeedsValue(c, f)
    ensures Computed(PatchBoth(c, t, f, reg, NO_JUMP, NO_JUMP), here, k, VNonreloc(reg), {}, {}, g.(aim := Finished))
  {
    assert Shape(c, VNonreloc(reg), t, f, here, |g.c0|);
    PatchBothAt(c, c, t, f, reg, NO_JUMP, NO_JUMP);
    NoneNeeded(c, t, f);
    assert here + {} == here;
    FinishComputed(c, here, k, t, f, g, reg, c, {}, NO_JUMP, NO_JUMP);
  }

  /** exp2reg with the loads of false and true, behind a jump over them. */
  lemma FinishLoads(c: Code, here: set<nat>, k: seq<Value>, t: set<nat>, f: set<nat>, g: Goal, reg: nat, link: int)
    requires Computed(c, here, k, VNonreloc(reg), t, f, g) && g.f0 <= reg < NO_REG && g.aim == Unfinished
    ensures var w := WithLoads(c + [Jmp(link)], reg);
            Computed(PatchBoth(w, t, f, reg, |c| + 1, |c| + 2), here + {|c|}, k, VNonreloc(reg), {}, {}, g.(aim := Finished))
  {
    var w := WithLoads(c + [Jmp(link)], reg);
    var pf, pt := |c| + 1, |c| + 2;
    assert Shape(c, VNonreloc(reg), t, f, here, |g.c0|);
    PatchBothAt(c, w, t, f, reg, pf, pt);
    var c' := PatchBoth(w, t, f, reg, pf, pt);
    assert c'[|c| + 1] == w[|c| + 1] && c'[|c| + 2] == w[|c| + 2];
    FinishComputed(c, here, k, t, f, g, reg, w, {|c|}, pf, pt);
  }

  /** exp2reg on a comparison: its jump has joined the list of true. */
  lemma FinishComparison(c: Code, k: seq<Value>, i: nat, t: set<nat>, f: set<nat>, g: Goal, reg: nat)
    requires Computed(c, {}, k, VJmp(i), t, f, g) && g.f0 <= reg < NO_REG && g.aim == Unfinished && BoolTail(g.x)
    ensures Computed(PatchBoth(WithLoads(c, reg), t + {i}, f, reg, |c|, |c| + 1), {}, k, VNonreloc(reg), {}, {}, g.(aim := Finished))
  {
    hide Means, Tail, BoolTail, PatchBoth, Loaded, Grown, Complete;
    TailKinds(g.x);
    CompareIsTest(c, k, i, t, f, g);
    ComparisonShape(c, t + {i}, f, g.c0, g.h0, reg);
    ComparisonMeans(c, k, t + {i}, f, g, reg);
  }

  lemma ComparisonMeans(c: Code, k: seq<Value>, t: set<nat>, f: set<nat>, g: Goal, reg: nat)
    requires Means(c, f, k, VFalse, t, {}, g.(aim := Tested(false))) && Apart(c, t, {}, f) && Complete(c) && |g.c0| <= |c|
    requires BoolTail(g.x) && Tail(g.x).None? && g.f0 <= reg < NO_REG
    requires var c' := PatchBoth(WithLoads(c, reg), t, f, reg, |c|, |c| + 1); Loaded(c, t, f, c', reg, |c|, |c| + 1) && LoadsTo(c', |c|, reg, false)
    ensures Means(PatchBoth(WithLoads(c, reg), t, f, reg, |c|, |c| + 1), {}, k, VNonreloc(reg), {}, {}, g.(aim := Finished))
  {
    hide Apart, Good, Loaded, EntryValue, Course, PatchBoth, Branch, BoolTail, Tail, Clears, Complete;
    var c' := PatchBoth(WithLoads(c, reg), t, f, reg, |c|, |c| + 1);
    forall m, r, e | Fits(m, k) && |r| == NO_REG && Starts(g, e, r)
      ensures Good(m, c', VNonreloc(reg), {}, {}, {}, |g.c0|, g.f0, e, r, Meaning(m, g.(aim := Finished), r, EntryValue(g.c0, e, r)))
    {
      var u := EntryValue(g.c0, e, r);
      EndsIn(m, g.k0, g.x, r, u);
      assert Good(m, c, VFalse, t, {}, f, |g.c0|, g.f0, e, r, Meaning(m, g.(aim := Tested(false)), r, u));
      FinishJmpGood(m, c, t, f, c', reg, |g.c0|, g.f0, e, r, g.x, Course(m, g.k0, g.x, r, u));
    }
  }

  lemma CompareIsTest(c: Code, k: seq<Value>, i: nat, t: set<nat>, f: set<nat>, g: Goal)
    requires Computed(c, {}, k, VJmp(i), t, f, g) && g.aim == Unfinished && BoolTail(g.x) && Tail(g.x).None?
    ensures Computed(c, f, k, VFalse, t + {i}, {}, g.(aim := Tested(false)))
  {
    hide *;
    TestedIs(c, t + {i}, f, k, g);
    JmpAt(c, k, i, t, f, g);
    CompareTest(c, VJmp(i));
    CmpDecides(k, c, VJmp(i), false);
    TestComputed(c, {}, k, VJmp(i), t, f, g, c[i - 1], true);
  }

  lemma TestedIs(c: Code, q: set<nat>, here: set<nat>, k: seq<Value>, g: Goal)
    ensures Conditional(c, q, here, k, g, false) == Computed(c, here, k, VFalse, q, {}, g.(aim := Tested(false)))
  {
  }

  lemma JmpAt(c: Code, k: seq<Value>, i: nat, t: set<nat>, f: set<nat>, g: Goal)
    requires Computed(c, {}, k, VJmp(i), t, f, g)
    ensures 1 <= i < |c| && i + 1 == |c| && c[i] == Jmp(NO_JUMP) && c[i - 1].Cmp?
  {
  }

  lemma ComparisonShape(c: Code, t: set<nat>, f: set<nat>, c0: Code, h0: set<nat>, reg: nat)
    requires Shape(c, VFalse, t, {}, f, |c0|) && Grown(c0, h0, c, t + {} + f) && reg < NO_REG
    ensures var c' := PatchBoth(WithLoads(c, reg), t, f, reg, |c|, |c| + 1);
            && Loaded(c, t, f, c', reg, |c|, |c| + 1) && LoadsTo(c', |c|, reg, false)
            && Shape(c', VNonreloc(reg), {}, {}, {}, |c0|) && Grown(c0, h0, c', {} + {} + {})
  {
    var w := WithLoads(c, reg);
    var c' := PatchBoth(w, t, f, reg, |c|, |c| + 1);
    PatchBothAt(c, w, t, f, reg, |c|, |c| + 1);
    assert c'[|c|] == w[|c|] && c'[|c| + 1] == w[|c| + 1];
    LastOpen(w, t, f, reg, |c|, |c| + 1);
    var none: set<nat> := {};
    assert t + none + f == t + f + none && none + none == none;
    GrownResolved(c0, h0, c, t, f, {}, c', {}, reg, |c|, |c| + 1);
  }

  /** The code of a comparison is its body with the test behind it. */
  lemma CompareTest(c: Code, d: Kind)
    requires d.VJmp? && 1 <= d.i < |c| && d.i + 1 == |c| && c[d.i] == Jmp(NO_JUMP) && c[d.i - 1].Cmp?
    ensures TestCode(Body(c, d), {}, c[d.i - 1]) == c && |Body(c, d)| + 1 == d.i
    ensures TestCode(Body(c, d), {}, Inverted(c[d.i - 1])) == c[d.i - 1 := Inverted(c[d.i - 1])]
  {
    PatchNone(Body(c, d), |Body(c, d)|, NO_REG, |Body(c, d)|);
  }

  lemma CmpDecides(k: seq<Value>, code: Code, d: Kind, invert: bool)
    requires d.VJmp? && 1 <= d.i <= |code| && code[d.i - 1].Cmp?
    ensures DecidesFor(k, if invert then Inverted(code[d.i - 1]) else code[d.i - 1], code, d, !invert, true)
  {
  }

  // ---------------------------------------------------------------------- links

  lemma RelinkComputed(code: Code, code': Code, s: set<nat>, here: set<nat>, k: seq<Value>, d: Kind, t: set<nat>, f: set<nat>, g: Goal)
    requires Computed(code, here, k, d, t, f, g) && Relinked(code, code', s) && s <= t + f + here
    ensures Computed(code', here, k, d, t, f, g)
  {
    hide Means, Shape, Grown;
    RelinkShape(code, code', s, here, d, t, f, |g.c0|);
    GrownRelinked(g.c0, g.h0, code, code', s, t + f + here);
    RelinkQuiescent(code, code', s, d, here, g.f0, |g.c0|);
    RelinkMeans(code, code', t + f + here, here, k, d, t, f, g);
  }

  lemma RelinkQuiescent(code: Code, code': Code, s: set<nat>, d: Kind, here: set<nat>, f0: nat, start: nat)
    requires Relinked(code, code', s) && Quiescent(code, d, here, f0, start)
    ensures Quiescent(code', d, here, f0, start)
  {
    RelinkOpen(code, code', s, {});
    assert forall j: nat :: TakesValue(code', j) == TakesValue(code, j);
  }

  lemma RelinkMeans(code: Code, code': Code, s: set<nat>, here: set<nat>, k: seq<Value>, d: Kind, t: set<nat>, f: set<nat>, g: Goal)
    requires Means(code, here, k, d, t, f, g) && Relinked(code, code', s) && s == t + f + here
    requires d.VRelocable? ==> d.i < |code| && !code[d.i].Jmp?
    ensures Means(code', here, k, d, t, f, g)
  {
    hide Good, Meaning, EntryValue, Clears;
    RelinkBody(code, code', d, s);
    forall m, r, e | Fits(m, k) && |r| == NO_REG && Starts(g, e, r)
      ensures Good(m, code', d, t, f, here, |g.c0|, g.f0, e, r, Meaning(m, g, r, EntryValue(g.c0, e, r)))
    {
      RelinkGood(m, code, code', here, d, t, f, |g.c0|, g.f0, e, r, Meaning(m, g, r, EntryValue(g.c0, e, r)));
    }
  }

  lemma RelinkGood(m: Machine, code: Code, code': Code, here: set<nat>, d: Kind, t: set<nat>, f: set<nat>, start: nat, f0: nat, e: Option<nat>, r: Regs, flow: Flow)
    requires Good(m, code, d, t, f, here, start, f0, e, r, flow) && Relinked(code, code', t + f + here)
    requires Relinked(Body(code, d), Body(code', d), t + f + here)
    requires d.VRelocable? ==> d.i < |code| && !code[d.i].Jmp?
    ensures Good(m, code', d, t, f, here, start, f0, e, r, flow)
  {
    var b, b' := Body(code, d), Body(code', d);
    EnterRelinked(m, b, b', t + f + here, e, start, r);
    EnterPending(m, b, t + f + here, e, start, r);
    RelinkOpen(b, b', t + f + here, {});
    hide Enter, Relinked;
  }

  lemma RelinkBody(code: Code, code': Code, d: Kind, s: set<nat>)
    requires Relinked(code, code', s)
    ensures Relinked(Body(code, d), Body(code', d), s)
  {
  }

  lemma RelinkShape(code: Code, code': Code, s: set<nat>, here: set<nat>, d: Kind, t: set<nat>, f: set<nat>, start: nat)
    requires Shape(code, d, t, f, here, start) && Relinked(code, code', s) && s <= t + f + here
    ensures Shape(code', d, t, f, here, start) && (d.VRelocable? ==> d.i < |code| && !code[d.i].Jmp?)
  {
    RelinkOpen(code, code', s, t);
    RelinkOpen(code, code', s, f);
    RelinkOpen(code, code', s, here);
    assert forall x: nat :: x < |code| && code[x].TMode() ==> code'[x] == code[x];
  }

  lemma RelinkConditional(code: Code, code': Code, s: set<nat>, q: set<nat>, here: set<nat>, k: seq<Value>, g: Goal, want: bool)
    requires Conditional(code, q, here, k, g, want) && Relinked(code, code', s) && s <= q + here
    ensures Conditional(code', q, here, k, g, want)
  {
    if want {
      RelinkComputed(code, code', s, here, k, VTrue, {}, q, g.(aim := Tested(true)));
    } else {
      RelinkComputed(code, code', s, here, k, VFalse, q, {}, g.(aim := Tested(false)));
    }
  }

  // -------------------------------------------------------- the code before a goal

  /** c as it is at the beginning of longer code: luaK_nil may have made its last
      LOADNIL wider. */
  function Wide(c: Code, code: Code): (w: Code)
    ensures |w| == |c|
  {
    if 0 < |c| <= |code| && c[|c| - 1].LoadNil? && code[|c| - 1].LoadNil? then c[|c| - 1 := code[|c| - 1]] else c
  }

  function Real(g: Goal, code: Code): Goal {
    g.(c0 := Wide(g.c0, code))
  }

  /** What has become of the code before a goal; last: the last place that has been
      marked as a target, n: the registers of active variables. */
  ghost predicate Based(g: Goal, code: Code, last: int, n: nat) {
    && g.n == n && (g.relies ==> g.h0 == {}) && (g.relies || last >= |g.c0|)
    && Widens(g.c0, Wide(g.c0, code), g.f0) && (!g.relies ==> Wide(g.c0, code) == g.c0)
  }

  /** Longer code keeps it. */
  lemma RealKept(g: Goal, w: Code, code: Code, p: set<nat>, last: int, last': int, n: nat)
    requires Grown(Wide(g.c0, w), g.h0, code, p) && Based(g, w, last, n) && last <= last'
    ensures Real(g, code) == Real(g, w) && Based(g, code, last', n)
  {
    var c := Wide(g.c0, w);
    if |c| > 0 {
      assert ExtendsAt(c, g.h0, code, |c| - 1);
    }
  }
}
