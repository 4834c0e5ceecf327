/** What it means that a stretch of unfinished code computes an expression, and
    how runs behave at each step of the code generator (src/lparser.h:18-45,
    src/lcode.c:310-658). */
module ExprMeaning {
  import opened Seqs
  import opened Bytecode
  import opened JumpLists
  import opened Runs
  import opened Courses

  /** expkind, for the expressions modelled.  VJmp, VRelocable: a position in the
      code; VLocal, VNonreloc: a register; VK: a constant. */
  datatype Kind =
    | VNil | VTrue | VFalse
    | VK(i: nat) | VKNum(n: int)
    | VLocal(i: nat) | VUpval(i: nat)
    | VJmp(i: nat) | VRelocable(i: nat) | VNonreloc(i: nat)
  {
    predicate Const() {
      VNil? || VTrue? || VFalse? || VK? || VKNum?
    }
  }

  /** One instruction that only sets register A and goes on. */
  predicate Plain(i: Instr) {
    i.Move? || i.LoadK? || (i.LoadBool? && !i.skip) || (i.LoadNil? && i.a == i.b) || i.GetUpval? || i.Not?
  }

  /** The code whose end an expression is at: an instruction that still waits for
      its register is not part of it, and neither is the test of a comparison. */
  function Body(code: Code, d: Kind): Code {
    if d.VRelocable? && |code| >= 1 then code[..|code| - 1]
    else if d.VJmp? && |code| >= 2 then code[..|code| - 2]
    else code
  }

  /** Where the value of an expression is when its code runs to the end. */
  function FallValue(m: Machine, code: Code, d: Kind, s: Regs): Value {
    match d
    case VNil => Nil
    case VTrue => Bool(true)
    case VFalse => Bool(false)
    case VK(i) => ConstantAt(m, i)
    case VKNum(n) => Num(n)
    case VLocal(i) => Reg(s, i)
    case VUpval(i) => m.up(i)
    case VJmp(i) =>
      if 1 <= i <= |code| && code[i - 1].Cmp?
      then Bool(Compare(m, code[i - 1].op, RK(m, s, code[i - 1].x), RK(m, s, code[i - 1].y)) == code[i - 1].cond)
      else Nil
    case VRelocable(i) => if i < |code| then InstrValue(m, code[i], s) else Nil
    case VNonreloc(i) => Reg(s, i)
  }

  /** Nothing is emitted for such a value until it is used: jumps that wait behind it
      may bring something along. */
  predicate Carries(d: Kind, f0: nat) {
    d.Const() || d.VLocal? || (d.VNonreloc? && d.i < f0)
  }

  // ------------------------------------------------------------------------ runs

  /** A run leaves the code at its end, by itself or by a jump of `here`, or through
      the list `t` or `f`, with the value that the jump carries.  Registers below f0
      are as before. */
  ghost predicate Leaves(m: Machine, b: Code, t: set<nat>, f: set<nat>, here: set<nat>, start: nat, f0: nat, e: Option<nat>, r: Regs, flow: Flow) {
    match Enter(m, b, t + f + here, e, start, r)
    case Stuck => false
    case Fall(s) => Same(r, s, f0) && flow.End?
    case Jump(j, s) =>
      && Same(r, s, f0)
      && if j in t then flow == Out(true, Carried(b, j, s))
         else if j in f then flow == Out(false, Carried(b, j, s))
         else flow.End?
  }

  /** And at the end the value of the expression is that of the course. */
  ghost predicate Good(m: Machine, code: Code, d: Kind, t: set<nat>, f: set<nat>, here: set<nat>, start: nat, f0: nat, e: Option<nat>, r: Regs, flow: Flow) {
    var b := Body(code, d);
    var o := Enter(m, b, t + f + here, e, start, r);
    && Leaves(m, b, t, f, here, start, f0, e, r, flow)
    && (Ends(o, here) ==>
          && flow.End? && flow.v == FallValue(m, code, d, o.r)
          && (Carries(d, f0) ==> flow.w == if o.Jump? then Carried(b, o.j, o.r) else None))
  }

  /** What becomes of an expression: it is unfinished, or a condition behind which the
      code goes on if it is as wanted, or it has got its one place. */
  datatype Aim = Unfinished | Tested(want: bool) | Finished

  /** What an expression is compiled for: the code before it and its open jumps, the
      first free register and the constants there, and the expression.  n: the
      registers of active variables; relies: no jump leads to the end of c0. */
  datatype Goal = Goal(c0: Code, h0: set<nat>, f0: nat, k0: seq<Value>, n: nat, relies: bool, x: Expr, aim: Aim)

  /** The course of a run that is to come out. */
  function Meaning(m: Machine, g: Goal, r: Regs, w: Option<Value>): Flow {
    var f := Course(m, g.k0, g.x, r, w);
    match g.aim
    case Unfinished => f
    case Tested(want) => Branch(g.x, f, want)
    case Finished => Settle(f)
  }

  ghost predicate Entry(h0: set<nat>, e: Option<nat>) {
    e.Some? ==> e.value in h0
  }

  /** What luaK_nil relies on where no jump leads to the end of c: at the start of a
      function all registers without a variable are nil, and behind a LOADNIL its
      registers are. */
  ghost predicate Clears(c: Code, n: nat, r: Regs) {
    if |c| == 0 then forall i :: n <= i < |r| ==> r[i] == Nil
    else c[|c| - 1].LoadNil? ==> forall i :: c[|c| - 1].a <= i <= c[|c| - 1].b && i < |r| ==> r[i] == Nil
  }

  /** A run may come to the code of the expression in this way. */
  ghost predicate Starts(g: Goal, e: Option<nat>, r: Regs) {
    Entry(g.h0, e) && (e.None? && g.relies ==> Clears(g.c0, g.n, r))
  }

  function EntryValue(c0: Code, e: Option<nat>, r: Regs): Option<Value> {
    if e.Some? then Carried(c0, e.value, r) else None
  }

  /** The constants of the machine start with those collected so far. */
  ghost predicate Fits(m: Machine, k: seq<Value>) {
    k <= m.k
  }

  /** The code behind c0 has the course of the expression, whatever the registers
      hold and however it is entered. */
  ghost predicate Means(code: Code, here: set<nat>, k: seq<Value>, d: Kind, t: set<nat>, f: set<nat>, g: Goal) {
    forall m, r, e :: Fits(m, k) && |r| == NO_REG && Starts(g, e, r) ==>
      Good(m, code, d, t, f, here, |g.c0|, g.f0, e, r, Meaning(m, g, r, EntryValue(g.c0, e, r)))
  }

  // ----------------------------------------------------------------------- shape

  /** The jumps of an expression are open, and in one list each. */
  ghost predicate Apart(b: Code, t: set<nat>, f: set<nat>, here: set<nat>) {
    AllOpen(b, t) && AllOpen(b, f) && AllOpen(b, here) && t !! f && t !! here && f !! here
  }

  /** What follows from c0 to code: its open jumps h0 wait or lead to some place
      behind it, and no other jump of it waits. */
  ghost predicate Grown(c0: Code, h0: set<nat>, code: Code, p: set<nat>) {
    && Complete(c0) && AllOpen(c0, h0) && Extends(c0, h0, code)
    && (forall i: nat :: i in p ==> |c0| <= i || i in h0)
    && (forall i: nat :: i in h0 && i !in p ==> i < |code| && code[i].Jmp? && |c0| <= i + 1 + code[i].sbx)
  }

  /** The last instruction of an expression. */
  ghost predicate Last(code: Code, d: Kind, here: set<nat>, start: nat) {
    && (d.VJmp? ==> start < d.i && d.i + 1 == |code| && here == {} && code[d.i] == Jmp(NO_JUMP) && code[d.i - 1].Cmp?)
    && (d.VRelocable? ==> start <= d.i && d.i + 1 == |code| && here == {} && (code[d.i].GetUpval? || code[d.i].Not?))
  }

  ghost predicate Shape(code: Code, d: Kind, t: set<nat>, f: set<nat>, here: set<nat>, start: nat) {
    && start <= |code| && Complete(code) && Complete(Body(code, d)) && Apart(code, t, f, here) && Last(code, d, here, start)
    && (forall x: nat :: x in t || x in f ==> x < |Body(code, d)|)
  }

  /** Behind an instruction that has set a register no jump waits with a value; and
      what needs no instruction of its own stands behind a jump, if behind anything. */
  ghost predicate Quiescent(code: Code, d: Kind, here: set<nat>, f0: nat, start: nat) {
    && (d.VNonreloc? && d.i >= f0 ==> forall j: nat :: j in here ==> !TakesValue(code, j))
    && (Carries(d, f0) && |code| > start ==> code[|code| - 1].Jmp?)
  }

  ghost predicate Computed(code: Code, here: set<nat>, k: seq<Value>, d: Kind, t: set<nat>, f: set<nat>, g: Goal) {
    && Shape(code, d, t, f, here, |g.c0|) && Grown(g.c0, g.h0, code, t + f + here)
    && Means(code, here, k, d, t, f, g)
    && Quiescent(code, d, here, g.f0, |g.c0|) && (d.VK? ==> d.i < |k|)
  }

  // ------------------------------------------------------------------- first facts

  /** The lists are those of the body. */
  lemma BodyApart(code: Code, d: Kind, t: set<nat>, f: set<nat>, here: set<nat>, start: nat)
    requires Shape(code, d, t, f, here, start)
    ensures var b := Body(code, d);
            && Apart(b, t, f, here) && start <= |b| && Complete(b)
            && (!d.VJmp? && !d.VRelocable? ==> b == code)
            && (d.VRelocable? ==> |b| == d.i && here == {} && code == b + [code[d.i]])
            && (d.VJmp? ==> |b| + 1 == d.i && here == {} && code == b + [code[d.i - 1], Jmp(NO_JUMP)])
  {
    var b := Body(code, d);
    assert forall x: nat :: x < |b| ==> b[x] == code[x];
    forall x: nat | x in t || x in f
      ensures Open(b, x)
    {
      assert Open(code, x);
    }
  }

  /** A run of longer code is a run of the body, and then of the rest. */
  lemma Onward(m: Machine, b: Code, t: set<nat>, f: set<nat>, here: set<nat>, c: Code, p: set<nat>, start: nat, f0: nat, e: Option<nat>, r: Regs, flow: Flow)
    requires Apart(b, t, f, here) && start <= |b| && |r| == NO_REG && Complete(b)
    requires Leaves(m, b, t, f, here, start, f0, e, r, flow) && Lands(b, here, c)
    requires forall x: nat :: x in p ==> x >= |b|
    ensures var o := Enter(m, b, t + f + here, e, start, r);
            && o != Stuck && Same(r, o.r, f0) && |o.r| == NO_REG
            && Enter(m, c, t + f + p, e, start, r) == (if Ends(o, here) then Exec(m, c, t + f + p, |b|, o.r) else o)
            && (Ends(o, here) ==> flow.End?)
            && (!Ends(o, here) ==> (o.j in t || o.j in f) && o.j !in p && flow == Out(o.j in t, Carried(c, o.j, o.r)))
  {
    LandsExtends(b, here, c);
    KeepOpen(b, here, c, t);
    KeepOpen(b, here, c, f);
    assert AllOpen(b, t + f);
    EnterPending(m, b, t + f + here, e, start, r);
    var o := Enter(m, b, t + f + here, e, start, r);
    assert !Ends(o, here) ==> (o.j in t || o.j in f) && Open(b, o.j);
    assert o != Stuck;
    assert (t + f) !! here;
    hide Extends, Lands, Enter, AllOpen;
    EnterLands(m, b, t + f, here, c, p, e, start, r);
  }

  // -------------------------------------------------------- a value in a register

  /** The last instruction of the code sets its register. */
  lemma LastStep(m: Machine, c: Code, p: set<nat>, s: Regs)
    requires |c| > 0 && Plain(c[|c| - 1])
    ensures var i := c[|c| - 1]; Exec(m, c, p, |c| - 1, s) == Fall(Write(s, i.a, InstrValue(m, i, s)))
  {
    var i := c[|c| - 1];
    var s' := Write(s, i.a, InstrValue(m, i, s));
    assert Step(m, i, s) == s';
    assert Exec(m, c, p, |c|, s') == Fall(s');
  }

  lemma WriteAbove(r: Regs, s: Regs, f0: nat, a: nat, v: Value)
    requires Same(r, s, f0) && f0 <= a < |r|
    ensures Same(r, Write(s, a, v), f0) && Reg(Write(s, a, v), a) == v && |Write(s, a, v)| == |r|
  {
  }

  /** Longer code whose last instruction sets register a to the value. */
  lemma SetGood(m: Machine, b: Code, t: set<nat>, f: set<nat>, here: set<nat>, c: Code, start: nat, f0: nat, e: Option<nat>, r: Regs, flow: Flow)
    requires Apart(b, t, f, here) && start <= |b| && |r| == NO_REG && Complete(b)
    requires Leaves(m, b, t, f, here, start, f0, e, r, flow) && Lands(b, here, c)
    requires |c| == |b| + 1 && Plain(c[|b|]) && f0 <= c[|b|].a < NO_REG
    requires var o := Enter(m, b, t + f + here, e, start, r); Ends(o, here) ==> InstrValue(m, c[|b|], o.r) == flow.v
    ensures Good(m, c, VNonreloc(c[|b|].a), t, f, {}, start, f0, e, r, flow)
  {
    hide Apart, Lands, InstrValue, Enter, Complete;
    Onward(m, b, t, f, here, c, {}, start, f0, e, r, flow);
    var o := Enter(m, b, t + f + here, e, start, r);
    if Ends(o, here) {
      LastStep(m, c, t + f + {}, o.r);
      WriteAbove(r, o.r, f0, c[|b|].a, flow.v);
    }
  }

  /** An instruction that loads the value of an expression into a register. */
  lemma LoadGood(m: Machine, code: Code, d: Kind, t: set<nat>, f: set<nat>, here: set<nat>, start: nat, f0: nat, e: Option<nat>, r: Regs, flow: Flow, i: Instr)
    requires Shape(code, d, t, f, here, start) && Good(m, code, d, t, f, here, start, f0, e, r, flow) && |r| == NO_REG
    requires !d.VJmp? && !d.VRelocable? && Plain(i) && f0 <= i.a < NO_REG
    requires forall s :: InstrValue(m, i, s) == FallValue(m, code, d, s)
    ensures Good(m, Emit(code, here, i), VNonreloc(i.a), t, f, {}, start, f0, e, r, flow)
  {
    BodyApart(code, d, t, f, here, start);
    EmitLands(code, here, i);
    hide Shape, AllOpen, Lands, Leaves, Plain, InstrValue;
    SetGood(m, code, t, f, here, Emit(code, here, i), start, f0, e, r, flow);
  }

  /** A value without a register yet: its instruction waits at the end. */
  lemma DelayGood(m: Machine, code: Code, d: Kind, t: set<nat>, f: set<nat>, here: set<nat>, start: nat, f0: nat, e: Option<nat>, r: Regs, flow: Flow, i: Instr)
    requires Shape(code, d, t, f, here, start) && Good(m, code, d, t, f, here, start, f0, e, r, flow) && |r| == NO_REG
    requires !d.VJmp? && !d.VRelocable? && forall s :: InstrValue(m, i, s) == FallValue(m, code, d, s)
    ensures Good(m, Emit(code, here, i), VRelocable(|code|), t, f, {}, start, f0, e, r, flow)
  {
    var c := Emit(code, here, i);
    var b := Patched(code, here, |code|, NO_REG, |code|);
    BodyApart(code, d, t, f, here, start);
    EmitLands(code, here, i);
    assert Body(c, VRelocable(|code|)) == b;
    hide Apart, Lands, InstrValue, Shape, Complete;
    Onward(m, code, t, f, here, b, {}, start, f0, e, r, flow);
  }

  function WithA(i: Instr, a: nat): Instr {
    match i
    case GetUpval(_, u) => GetUpval(a, u)
    case Not(_, b) => Not(a, b)
    case _ => i
  }

  /** The instruction that waited gets its register. */
  lemma SettleGood(m: Machine, code: Code, i: nat, t: set<nat>, f: set<nat>, start: nat, f0: nat, e: Option<nat>, r: Regs, flow: Flow, reg: nat)
    requires Shape(code, VRelocable(i), t, f, {}, start) && Good(m, code, VRelocable(i), t, f, {}, start, f0, e, r, flow) && |r| == NO_REG
    requires f0 <= reg < NO_REG
    ensures i < |code| && Good(m, code[i := WithA(code[i], reg)], VNonreloc(reg), t, f, {}, start, f0, e, r, flow)
  {
    BodyApart(code, VRelocable(i), t, f, {}, start);
    var b := Body(code, VRelocable(i));
    var c := code[i := WithA(code[i], reg)];
    SettleLands(b, c);
    assert Last(code, VRelocable(i), {}, start);
    hide Shape, AllOpen, Leaves, Lands, Complete;
    SetGood(m, b, t, f, {}, c, start, f0, e, r, flow);
  }

  lemma SettleLands(b: Code, c: Code)
    requires |b| <= |c| && b == c[..|b|]
    ensures Lands(b, {}, c)
  {
    assert forall x: nat :: x < |b| ==> LandsAt(b, {}, c, x);
  }

  // ----------------------------------------------------------------- conditions

  /** A test and its jump at the end of the code. */
  function TestCode(code: Code, here: set<nat>, i: Instr): Code {
    Emit(code, here, i) + [Jmp(NO_JUMP)]
  }

  lemma TestLands(code: Code, here: set<nat>, i: Instr)
    requires AllOpen(code, here)
    ensures Lands(code, here, TestCode(code, here, i))
    ensures TestCode(code, here, i)[|code|] == i && TestCode(code, here, i)[|code| + 1] == Jmp(NO_JUMP)
  {
    EmitLands(code, here, i);
    LandsLonger(code, here, Emit(code, here, i), TestCode(code, here, i));
  }

  /** The test takes its jump exactly when the value v is `cond`: a negation or a
      comparison is tested as such, and the value is not taken along. */
  ghost predicate Decides(m: Machine, i: Instr, s: Regs, v: Value, cond: bool, truth: bool) {
    match i
    case Cmp(op, c, x, y) => (Compare(m, op, RK(m, s, x), RK(m, s, y)) == c) == (Truthy(v) == cond) && truth
    case Test(a, c) => (!Truthy(Reg(s, a)) != c) == (Truthy(v) == cond) && truth
    case TestSet(a, b, c) => a == NO_REG && Reg(s, b) == v && c == cond && !truth
    case _ => false
  }

  /** A test at the end of the code either takes its jump or goes on. */
  lemma TestRun(m: Machine, b: Code, here: set<nat>, i: Instr, p: set<nat>, s: Regs)
    requires i.TMode() && |b| + 1 in p && AllOpen(b, here)
    ensures Exec(m, TestCode(b, here, i), p, |b|, s) == if Taken(m, i, s) then Jump(|b| + 1, AfterTest(i, s)) else Fall(s)
  {
    TestLands(b, here, i);
    var c := TestCode(b, here, i);
    assert |c| == |b| + 2 && Exec(m, c, p, |b| + 2, s) == Fall(s);
  }

  lemma DecidesTaken(m: Machine, b: Code, here: set<nat>, i: Instr, s: Regs, v: Value, cond: bool, truth: bool)
    requires Decides(m, i, s, v, cond, truth) && |s| == NO_REG && AllOpen(b, here)
    ensures i.TMode() && AfterTest(i, s) == s && (Taken(m, i, s) <==> Truthy(v) == cond)
    ensures Carried(TestCode(b, here, i), |b| + 1, s) == if truth then None else Some(v)
  {
    TestLands(b, here, i);
  }

  /** jumponcond and what follows it: the jump joins the list of those that leave; the
      other list comes here. */
  lemma TestGood(m: Machine, b: Code, t: set<nat>, f: set<nat>, here: set<nat>, start: nat, f0: nat, e: Option<nat>, r: Regs, flow: Flow, i: Instr, a: Expr, cond: bool)
    requires Apart(b, t, f, here) && start <= |b| && |r| == NO_REG && Complete(b)
    requires Leaves(m, b, t, f, here, start, f0, e, r, flow)
    requires var o := Enter(m, b, t + f + here, e, start, r); Ends(o, here) ==> Decides(m, i, o.r, flow.v, cond, BoolTail(a))
    requires Tail(a).Some? && flow.End? ==> Truthy(flow.v) == cond && flow.v != Bool(cond)
    ensures var j := |b| + 1;
            if cond then Good(m, TestCode(b, here, i), VFalse, t + {j}, {}, f, start, f0, e, r, Branch(a, flow, false))
            else Good(m, TestCode(b, here, i), VTrue, {}, f + {j}, t, start, f0, e, r, Branch(a, flow, true))
  {
    hide Apart, Enter, Decides, Leaves, TestCode, Carried;
    var j, c := |b| + 1, TestCode(b, here, i);
    ApartParts(b, t, f, here);
    TestOutcome(m, b, t, f, here, start, f0, e, r, flow, i, BoolTail(a), cond);
    if cond {
      assert t + {j} + {} + f == t + f + {j};
      TestedGood(m, c, VFalse, t + {j}, {}, f, start, f0, e, r, Branch(a, flow, false));
    } else {
      assert {} + (f + {j}) + t == t + f + {j};
      TestedGood(m, c, VTrue, {}, f + {j}, t, start, f0, e, r, Branch(a, flow, true));
    }
  }

  /** Where a run leaves the code with a test at its end. */
  lemma TestOutcome(m: Machine, b: Code, t: set<nat>, f: set<nat>, here: set<nat>, start: nat, f0: nat, e: Option<nat>, r: Regs, flow: Flow, i: Instr, truth: bool, cond: bool)
    requires Apart(b, t, f, here) && start <= |b| && |r| == NO_REG && Complete(b)
    requires Leaves(m, b, t, f, here, start, f0, e, r, flow)
    requires var o := Enter(m, b, t + f + here, e, start, r); Ends(o, here) ==> Decides(m, i, o.r, flow.v, cond, truth)
    ensures var j, c := |b| + 1, TestCode(b, here, i);
            var o := Enter(m, c, t + f + {j}, e, start, r);
            && o != Stuck && Same(r, o.r, f0)
            && (o.Fall? ==> flow.End? && Truthy(flow.v) != cond)
            && (o.Jump? && o.j == j ==> flow.End? && Truthy(flow.v) == cond && Carried(c, j, o.r) == if truth then None else Some(flow.v))
            && (o.Jump? && o.j != j ==> (o.j in t || o.j in f) && flow == Out(o.j in t, Carried(c, o.j, o.r)))
  {
    hide Apart, Lands, Enter, Decides, AllOpen, Leaves, TestCode, Carried, Taken;
    var j, c := |b| + 1, TestCode(b, here, i);
    ApartParts(b, t, f, here);
    TestLands(b, here, i);
    Onward(m, b, t, f, here, c, {j}, start, f0, e, r, flow);
    var o := Enter(m, b, t + f + here, e, start, r);
    if Ends(o, here) {
      DecidesTaken(m, b, here, i, o.r, flow.v, cond, truth);
      TestRun(m, b, here, i, t + f + {j}, o.r);
    }
  }

  /** A condition has been tested: its kind is its truth. */
  lemma TestedGood(m: Machine, c: Code, d: Kind, t: set<nat>, f: set<nat>, here: set<nat>, start: nat, f0: nat, e: Option<nat>, r: Regs, flow: Flow)
    requires (d.VTrue? || d.VFalse?) && t !! here && f !! here
    requires var o := Enter(m, c, t + f + here, e, start, r);
             && o != Stuck && Same(r, o.r, f0)
             && (o.Fall? ==> flow == End(Bool(d.VTrue?), None))
             && (o.Jump? ==> if o.j in t then flow == Out(true, Carried(c, o.j, o.r))
                             else if o.j in f then flow == Out(false, Carried(c, o.j, o.r))
                             else flow == End(Bool(d.VTrue?), Carried(c, o.j, o.r)))
    ensures Good(m, c, d, t, f, here, start, f0, e, r, flow)
  {
    hide Enter, Carried;
  }

  lemma ApartParts(b: Code, t: set<nat>, f: set<nat>, here: set<nat>)
    requires Apart(b, t, f, here)
    ensures AllOpen(b, here) && t !! f && t !! here && f !! here && forall x: nat :: x in t || x in f || x in here ==> x < |b|
  {
  }

  /** A jump behind a constant that decides its operator: it leaves with that truth
      value, and the jumps that wait there leave with what they carry. */
  lemma AlwaysGood(m: Machine, b: Code, t: set<nat>, f: set<nat>, here: set<nat>, start: nat, f0: nat, e: Option<nat>, r: Regs, flow: Flow, a: Expr, cond: bool, link: int)
    requires Apart(b, t, f, here) && start <= |b| && |r| == NO_REG && Complete(b) && Tail(a).Some?
    requires Good(m, b, if cond then VTrue else VFalse, t, f, here, start, f0, e, r, flow)
    ensures var j := |b|;
            if cond then Good(m, b + [Jmp(link)], VFalse, t + ({j} + here), {}, f, start, f0, e, r, Branch(a, flow, false))
            else Good(m, b + [Jmp(link)], VTrue, {}, f + ({j} + here), t, start, f0, e, r, Branch(a, flow, true))
  {
    hide Apart, Enter, AllOpen;
    var j, c := |b|, b + [Jmp(link)];
    ApartParts(b, t, f, here);
    JumpExtends(b, link);
    JumpWaits(b, t, f, here, link);
    EnterPending(m, b, t + f + here, e, start, r);
    var o := Enter(m, b, t + f + here, e, start, r);
    assert t + f + here + {} == t + f + here;
    EnterExt(m, b, t + f + here, {}, c, t + f + here + {j}, e, start, r);
    if o.Fall? {
      JumpRun(m, b, link, t + f + here + {j}, o.r);
    }
    if cond {
      assert t + ({j} + here) + {} + f == t + f + here + {j};
    } else {
      assert {} + (f + ({j} + here)) + t == t + f + here + {j};
    }
  }

  lemma JumpExtends(b: Code, link: int)
    ensures Extends(b, {}, b + [Jmp(link)])
  {
    assert forall x: nat :: x < |b| ==> ExtendsAt(b, {}, b + [Jmp(link)], x);
  }

  lemma JumpWaits(b: Code, t: set<nat>, f: set<nat>, here: set<nat>, link: int)
    requires Apart(b, t, f, here) && Complete(b)
    ensures Waiting(b, t + f + here, {}, b + [Jmp(link)], t + f + here + {|b|})
    ensures forall j: nat, s :: j in t || j in f || j in here ==> Carried(b + [Jmp(link)], j, s) == Carried(b, j, s)
    ensures forall s :: Carried(b + [Jmp(link)], |b|, s) == None
  {
    JumpExtends(b, link);
  }

  lemma JumpRun(m: Machine, b: Code, link: int, p: set<nat>, s: Regs)
    requires Complete(b) && |b| in p
    ensures Exec(m, b + [Jmp(link)], p, |b|, s) == Jump(|b|, s)
  {
    assert (b + [Jmp(link)])[|b|] == Jmp(link);
  }

  /** A constant as wanted needs no test. */
  lemma ConstantGood(m: Machine, b: Code, d: Kind, t: set<nat>, f: set<nat>, here: set<nat>, start: nat, f0: nat, e: Option<nat>, r: Regs, flow: Flow, a: Expr, want: bool)
    requires Good(m, b, d, t, f, here, start, f0, e, r, flow) && d.Const() && t !! f && t !! here && f !! here
    requires Tail(a).Some? && (flow.End? ==> Truthy(flow.v) == want)
    ensures if want then Good(m, b, VTrue, {}, f, here + t, start, f0, e, r, Branch(a, flow, true))
            else Good(m, b, VFalse, t, {}, here + f, start, f0, e, r, Branch(a, flow, false))
  {
    EnterPending(m, b, t + f + here, e, start, r);
    if want {
      assert {} + f + (here + t) == t + f + here;
    } else {
      assert t + {} + (here + f) == t + f + here;
    }
  }

  // ------------------------------------------------------------------ negation

  /** What leaves as true leaves as false for the negation, and the other way round;
      the value is no longer the operand's. */
  lemma NegateLeaves(m: Machine, b: Code, t: set<nat>, f: set<nat>, here: set<nat>, start: nat, f0: nat, e: Option<nat>, r: Regs, flow: Flow, a: Expr)
    requires Apart(b, t, f, here) && |r| == NO_REG
    requires Leaves(m, b, t, f, here, start, f0, e, r, flow)
    ensures Leaves(m, Unset(b, t + f), f, t, here, start, f0, e, r, Negate(a, flow))
    ensures Enter(m, Unset(b, t + f), f + t + here, e, start, r) == Enter(m, b, t + f + here, e, start, r)
    ensures forall j: nat, s :: j in here ==> Carried(Unset(b, t + f), j, s) == Carried(b, j, s)
  {
    EnterUnset(m, b, t + f, t + f + here, e, start, r);
    assert t + f + here == f + t + here;
    EnterPending(m, b, t + f + here, e, start, r);
    var o := Enter(m, b, t + f + here, e, start, r);
    if o.Jump? {
      UnsetAt(b, t + f, o.j);
    }
    forall j: nat, s | j in here
      ensures Carried(Unset(b, t + f), j, s) == Carried(b, j, s)
    {
      assert Open(b, j);
      UnsetAt(b, t + f, j);
    }
  }

  /** Code that differs from other code as a negation does. */
  lemma NegateGood(m: Machine, code: Code, d: Kind, c: Code, d': Kind, t: set<nat>, f: set<nat>, here: set<nat>, start: nat, f0: nat, e: Option<nat>, r: Regs, flow: Flow, a: Expr)
    requires Apart(Body(code, d), t, f, here) && Good(m, code, d, t, f, here, start, f0, e, r, flow) && |r| == NO_REG
    requires Body(c, d') == Unset(Body(code, d), t + f) && (Carries(d', f0) ==> Carries(d, f0) && Tail(a).Some?)
    requires forall s :: FallValue(m, c, d', s) == Bool(!Truthy(FallValue(m, code, d, s)))
    ensures Good(m, c, d', f, t, here, start, f0, e, r, Negate(a, flow))
  {
    hide Apart, Enter, FallValue, Unset, Body, Leaves;
    NegateLeaves(m, Body(code, d), t, f, here, start, f0, e, r, flow, a);
  }

  /** codenot on a value in a register. */
  lemma NotGood(m: Machine, code: Code, b: nat, t: set<nat>, f: set<nat>, here: set<nat>, start: nat, f0: nat, e: Option<nat>, r: Regs, flow: Flow, a: Expr)
    requires Shape(code, VNonreloc(b), t, f, here, start) && Good(m, code, VNonreloc(b), t, f, here, start, f0, e, r, flow) && |r| == NO_REG
    ensures Good(m, Unset(Emit(code, here, Not(0, b)), t + f), VRelocable(|code|), f, t, {}, start, f0, e, r, Negate(a, flow))
  {
    hide Shape, Apart, Extends, Lands, AllOpen, Enter, Complete;
    BodyApart(code, VNonreloc(b), t, f, here, start);
    ApartParts(code, t, f, here);
    var b0 := Patched(code, here, |code|, NO_REG, |code|);
    var c := Unset(Emit(code, here, Not(0, b)), t + f);
    EmitLands(code, here, Not(0, b));
    LandsApart(code, t, f, here, b0);
    Onward(m, code, t, f, here, b0, {}, start, f0, e, r, flow);
    assert Body(c, VRelocable(|code|)) == Unset(b0, t + f);
    NegateLeaves(m, b0, t, f, {}, start, f0, e, r, flow, a);
  }

  /** The lists of an expression stay what they are while other jumps land. */
  lemma LandsApart(code: Code, t: set<nat>, f: set<nat>, here: set<nat>, c: Code)
    requires Apart(code, t, f, here) && Lands(code, here, c)
    ensures Apart(c, t, f, {})
  {
    LandsExtends(code, here, c);
    KeepOpen(code, here, c, t);
    KeepOpen(code, here, c, f);
  }

  function Inverted(i: Instr): Instr {
    match i
    case Cmp(op, cond, x, y) => Cmp(op, !cond, x, y)
    case _ => i
  }

  /** codenot on a comparison. */
  lemma NotJmpGood(m: Machine, code: Code, i: nat, t: set<nat>, f: set<nat>, start: nat, f0: nat, e: Option<nat>, r: Regs, flow: Flow, a: Expr)
    requires Shape(code, VJmp(i), t, f, {}, start) && Good(m, code, VJmp(i), t, f, {}, start, f0, e, r, flow) && |r| == NO_REG
    ensures Good(m, Unset(code[i - 1 := Inverted(code[i - 1])], t + f), VJmp(i), f, t, {}, start, f0, e, r, Negate(a, flow))
  {
    hide Good;
    BodyApart(code, VJmp(i), t, f, {}, start);
    InvertBody(m, code, i, t, f, start);
    NegateGood(m, code, VJmp(i), Unset(code[i - 1 := Inverted(code[i - 1])], t + f), VJmp(i), t, f, {}, start, f0, e, r, flow, a);
  }

  lemma InvertBody(m: Machine, code: Code, i: nat, t: set<nat>, f: set<nat>, start: nat)
    requires Shape(code, VJmp(i), t, f, {}, start)
    ensures 1 <= i < |code|
    ensures var c := Unset(code[i - 1 := Inverted(code[i - 1])], t + f);
            && Body(c, VJmp(i)) == Unset(Body(code, VJmp(i)), t + f)
            && forall s :: FallValue(m, c, VJmp(i), s) == Bool(!Truthy(FallValue(m, code, VJmp(i), s)))
  {
    var c := Unset(code[i - 1 := Inverted(code[i - 1])], t + f);
    var b := Body(code, VJmp(i));
    assert c[i - 1] == Inverted(code[i - 1]);
    assert Body(c, VJmp(i)) == Unset(b, t + f);
  }

  // --------------------------------------------------------------- two operands

  /** Code for a second operand, entered where the first one ends. */
  lemma EnterSecond(m: Machine, ca: Code, q: set<nat>, ha: set<nat>, bb: Code, pb: set<nat>, e: Option<nat>, start: nat, r: Regs)
    requires AllOpen(ca, q) && q !! ha && Grown(ca, ha, bb, pb) && start <= |ca| && |r| == NO_REG
    requires Enter(m, ca, q + ha, e, start, r) != Stuck
    ensures var o := Enter(m, ca, q + ha, e, start, r);
            Enter(m, bb, pb + q, e, start, r) == if Ends(o, ha) then Enter(m, bb, pb, if o.Jump? then Some(o.j) else None, |ca|, o.r) else o
  {
    hide Waiting, Grown, AllOpen, Follow;
    SecondWaits(ca, q, ha, bb, pb);
    EnterPending(m, ca, q + ha, e, start, r);
    EnterExt(m, ca, q, ha, bb, pb + q, e, start, r);
    var o := Enter(m, ca, q + ha, e, start, r);
    if o.Fall? {
      ExecForward(m, bb, pb + q, pb, |ca|, o.r) by { OpenBelow(ca, q); }
    } else if o.j in ha {
      FollowSecond(m, ca, q, ha, bb, pb, o.j, o.r);
    }
  }

  lemma OpenBelow(c: Code, s: set<nat>)
    requires AllOpen(c, s)
    ensures forall x: nat :: x in s ==> x < |c|
  {
  }

  lemma SecondWaits(ca: Code, q: set<nat>, ha: set<nat>, bb: Code, pb: set<nat>)
    requires AllOpen(ca, q) && q !! ha && Grown(ca, ha, bb, pb)
    ensures Waiting(ca, q, ha, bb, pb + q)
  {
    forall i: nat | i < |ca| && i !in ha
      ensures i in q <==> i in pb + q
    {
    }
  }

  lemma FollowSecond(m: Machine, ca: Code, q: set<nat>, ha: set<nat>, bb: Code, pb: set<nat>, j: nat, r: Regs)
    requires AllOpen(ca, q) && q !! ha && Grown(ca, ha, bb, pb) && j in ha
    ensures Follow(m, bb, pb + q, j, r) == Follow(m, bb, pb, j, r)
  {
    assert j !in q;
    if j !in pb {
      OpenBelow(ca, q);
      ExecForward(m, bb, pb + q, pb, j + 1 + bb[j].sbx, if j > 0 then AfterTest(bb[j - 1], r) else r);
    }
  }

  /** The second operand is computed behind the test of the first: a run that goes on
      enters it, with what a waiting jump carries; one that leaves has left. */
  lemma SecondGood(m: Machine, ca: Code, q: set<nat>, ha: set<nat>, cb: Code, d: Kind, t: set<nat>, f: set<nat>, hb: set<nat>, start: nat, f0: nat, e: Option<nat>, r: Regs, fa: Flow, course: Option<Value> -> Flow, want: bool)
    requires if want then Good(m, ca, VTrue, {}, q, ha, start, f0, e, r, fa) else Good(m, ca, VFalse, q, {}, ha, start, f0, e, r, fa)
    requires |r| == NO_REG && start <= |ca| && AllOpen(ca, q) && q !! ha && Grown(ca, ha, Body(cb, d), t + f + hb)
    requires t !! f && t !! hb && f !! hb
    requires forall s, e' :: Same(r, s, f0) && Entry(ha, e') && (e'.None? ==> Enter(m, ca, q + ha, e, start, r) == Fall(s)) ==>
               Good(m, cb, d, t, f, hb, |ca|, f0, e', s, course(EntryValue(ca, e', s)))
    ensures var t', f' := if want then t else t + q, if want then f + q else f;
            Good(m, cb, d, t', f', hb, start, f0, e, r, if fa.Out? then fa else course(fa.w))
  {
    hide Enter, AllOpen, Grown;
    var t', f' := if want then t else t + q, if want then f + q else f;
    var bb := Body(cb, d);
    assert {} + q + ha == q + {} + ha == q + ha;
    assert t' + f' + hb == t + f + hb + q;
    GrownLists(ca, ha, bb, t + f + hb, q);
    EnterPending(m, ca, q + ha, e, start, r);
    EnterSecond(m, ca, q, ha, bb, t + f + hb, e, start, r);
    var o := Enter(m, ca, q + ha, e, start, r);
    if Ends(o, ha) {
      var e' := if o.Jump? then Some(o.j) else None;
      assert Entry(ha, e') && fa.w == EntryValue(ca, e', o.r);
      assert Good(m, cb, d, t, f, hb, |ca|, f0, e', o.r, course(fa.w));
      EnterPending(m, bb, t + f + hb, e', |ca|, o.r);
      GoodAfter(m, cb, d, t, f, hb, |ca|, f0, e', r, o.r, course(fa.w), t', f', start, e);
    }
  }

  /** The jumps that left the first operand are still there, and in no list of the
      second. */
  lemma GrownLists(ca: Code, ha: set<nat>, bb: Code, pb: set<nat>, q: set<nat>)
    requires AllOpen(ca, q) && q !! ha && Grown(ca, ha, bb, pb)
    ensures q !! pb && AllOpen(bb, q) && forall j: nat, s :: j in q ==> Carried(bb, j, s) == Carried(ca, j, s)
  {
    KeepOpen(ca, ha, bb, q);
    forall x: nat | x in q
      ensures x !in pb
    {
      assert Open(ca, x);
    }
  }

  lemma GoodAfter(m: Machine, cb: Code, d: Kind, t: set<nat>, f: set<nat>, hb: set<nat>, mid: nat, f0: nat, e': Option<nat>, r: Regs, s: Regs, flow: Flow, t': set<nat>, f': set<nat>, start: nat, e: Option<nat>)
    requires Good(m, cb, d, t, f, hb, mid, f0, e', s, flow) && Same(r, s, f0)
    requires t <= t' && f <= f' && t' !! (f + hb) && f' !! (t + hb)
    requires Enter(m, Body(cb, d), t' + f' + hb, e, start, r) == Enter(m, Body(cb, d), t + f + hb, e', mid, s)
    ensures Good(m, cb, d, t', f', hb, start, f0, e, r, flow)
  {
    hide Enter;
    EnterPending(m, Body(cb, d), t + f + hb, e', mid, s);
  }
}
