/** The instructions that expressions compile to, what the virtual machine does
    with them, and what an expression means (src/lopcodes.h:149-208,
    src/lvm.c:486-507, src/lvm.c:600-692; section 2.5.3 of the Lua 5.1 Reference
    Manual). */
module Bytecode {
  import opened Seqs

  const NO_JUMP := -1
  const NO_REG := 255
  const BITRK := 256
  const MAXINDEXRK := 255

  datatype Value = Nil | Bool(b: bool) | Num(n: int) | Str(s: string)

  datatype CmpOp = EQ | LT | LE

  /** Operands x and y of a comparison are registers, or constants from BITRK
      on. */
  datatype Instr =
    | Move(a: nat, b: nat)
    | LoadK(a: nat, bx: nat)
    | LoadBool(a: nat, v: bool, skip: bool)
    | LoadNil(a: nat, b: nat)
    | GetUpval(a: nat, u: nat)
    | Not(a: nat, b: nat)
    | Jmp(sbx: int)
    | Cmp(op: CmpOp, cond: bool, x: nat, y: nat)
    | Test(a: nat, c: bool)
    | TestSet(a: nat, b: nat, c: bool)
  {
    /** testTMode: the next instruction is this one's jump. */
    predicate TMode() {
      Cmp? || Test? || TestSet?
    }
  }

  type Code = seq<Instr>

  // -------------------------------------------------------------------- machine

  /** What a function sees besides its registers: constants, upvalues, and the
      order of values (metamethods included, as long as they only compare). */
  datatype Machine = Machine(k: seq<Value>, up: nat -> Value, lt: (Value, Value) -> bool, le: (Value, Value) -> bool)

  type Regs = seq<Value>

  predicate Truthy(v: Value) {
    v != Nil && v != Bool(false)
  }

  function Reg(r: Regs, i: nat): Value {
    if i < |r| then r[i] else Nil
  }

  /** There is no register NO_REG: a test whose target is not known yet sets
      nothing. */
  function Write(r: Regs, i: nat, v: Value): Regs {
    if i < |r| then r[i := v] else r
  }

  function ConstantAt(m: Machine, i: nat): Value {
    if i < |m.k| then m.k[i] else Nil
  }

  function RK(m: Machine, r: Regs, x: nat): Value {
    if x >= BITRK then ConstantAt(m, x - BITRK) else Reg(r, x)
  }

  predicate Compare(m: Machine, op: CmpOp, v: Value, w: Value) {
    match op
    case EQ => v == w
    case LT => m.lt(v, w)
    case LE => m.le(v, w)
  }

  /** How a stretch of code is left: at its end, at one of the jumps whose target
      is not known yet, or not at all. */
  datatype Outcome = Fall(r: Regs) | Jump(j: nat, r: Regs) | Stuck

  /** Registers a to b are set to nil. */
  function Nils(r: Regs, a: nat, b: nat): (s: Regs)
    ensures |s| == |r|
  {
    seq(|r|, i requires 0 <= i < |r| => if a <= i <= b then Nil else r[i])
  }

  /** The value that an instruction puts into its register A. */
  function InstrValue(m: Machine, i: Instr, s: Regs): Value {
    match i
    case Move(_, b) => Reg(s, b)
    case LoadK(_, bx) => ConstantAt(m, bx)
    case LoadBool(_, v, _) => Bool(v)
    case GetUpval(_, u) => m.up(u)
    case Not(_, b) => Bool(!Truthy(Reg(s, b)))
    case _ => Nil
  }

  /** The registers behind an instruction that is neither a test nor a jump. */
  function Step(m: Machine, i: Instr, r: Regs): (s: Regs)
    requires !i.TMode() && !i.Jmp?
    ensures |s| == |r|
  {
    if i.LoadNil? then Nils(r, i.a, i.b) else Write(r, i.a, InstrValue(m, i, r))
  }

  function NextPc(i: Instr, pc: nat): nat {
    if i.LoadBool? && i.skip then pc + 2 else pc + 1
  }

  /** Runs code from pc on.  Jumps in `pending` wait for a target.  A test takes the
      jump behind it; nothing else may come to such a jump while it waits. */
  function Exec(m: Machine, code: Code, pending: set<nat>, pc: nat, r: Regs): Outcome
    decreases |code| - pc
  {
    if pc > |code| then Stuck
    else if pc == |code| then Fall(r)
    else if code[pc].Jmp? then
      if pc in pending then (if pc > 0 && code[pc - 1].TMode() then Stuck else Jump(pc, r))
      else if pc < pc + 1 + code[pc].sbx <= |code| then Exec(m, code, pending, pc + 1 + code[pc].sbx, r)
      else Stuck
    else if code[pc].TMode() then
      if !Taken(m, code[pc], r) then Exec(m, code, pending, pc + 2, r)
      else if pc + 1 < |code| && pc + 1 in pending then Jump(pc + 1, AfterTest(code[pc], r))
      else Exec(m, code, pending, pc + 1, AfterTest(code[pc], r))
    else Exec(m, code, pending, NextPc(code[pc], pc), Step(m, code[pc], r))
  }

  /** A test goes on to its jump. */
  predicate Taken(m: Machine, i: Instr, r: Regs) {
    match i
    case Cmp(op, cond, x, y) => Compare(m, op, RK(m, r, x), RK(m, r, y)) == cond
    case Test(a, c) => !Truthy(Reg(r, a)) != c
    case TestSet(_, b, c) => !Truthy(Reg(r, b)) != c
    case _ => false
  }

  /** The registers when it does. */
  function AfterTest(i: Instr, r: Regs): Regs {
    match i
    case TestSet(a, b, _) => Write(r, a, Reg(r, b))
    case _ => r
  }

  /** A comparison takes the jump behind it if its result is A, and skips it otherwise. */
  lemma ComparisonJumps(m: Machine, op: CmpOp, cond: bool, v: Value, w: Value, u: Value)
    ensures Exec(m, [Cmp(op, cond, 0, 1), Jmp(1), LoadBool(2, false, true), LoadBool(2, true, false)], {}, 0, [v, w, u]) ==
            Fall([v, w, Bool((if op == EQ then v == w else if op == LT then m.lt(v, w) else m.le(v, w)) == cond)])
  {
    var r := [v, w, u];
    var a := [Cmp(op, cond, 0, 1), Jmp(1), LoadBool(2, false, true), LoadBool(2, true, false)];
    forall b: bool
      ensures Exec(m, a, {}, 4, r[2 := Bool(b)]) == Fall([v, w, Bool(b)])
    {
    }
    assert Exec(m, a, {}, 2, r) == Fall([v, w, Bool(false)]);
    assert Exec(m, a, {}, 3, r) == Fall([v, w, Bool(true)]);
    assert Exec(m, a, {}, 1, r) == Exec(m, a, {}, 3, r);
  }

  /** So does TEST if the truth value of its register is C. */
  lemma TestJumps(m: Machine, cond: bool, v: Value, w: Value, u: Value)
    ensures Exec(m, [Test(0, cond), Jmp(1), Move(1, 2)], {}, 0, [v, w, u]) ==
            Fall([v, if (v != Nil && v != Bool(false)) == cond then w else u, u])
  {
    var r := [v, w, u];
    var b := [Test(0, cond), Jmp(1), Move(1, 2)];
    assert Exec(m, b, {}, 1, r) == Exec(m, b, {}, 3, r) == Fall(r);
    assert Exec(m, b, {}, 2, r) == Exec(m, b, {}, 3, r[1 := u]) == Fall([v, u, u]);
  }

  /** And TESTSET, which copies the register when it takes the jump. */
  lemma TestSetJumps(m: Machine, cond: bool, v: Value, w: Value, u: Value)
    ensures Exec(m, [TestSet(1, 0, cond), Jmp(1), Move(1, 2)], {}, 0, [v, w, u]) ==
            Fall([v, if (v != Nil && v != Bool(false)) == cond then v else u, u])
  {
    var r := [v, w, u];
    var c := [TestSet(1, 0, cond), Jmp(1), Move(1, 2)];
    assert Exec(m, c, {}, 1, r[1 := v]) == Exec(m, c, {}, 3, r[1 := v]) == Fall([v, v, u]);
    assert Exec(m, c, {}, 2, r) == Exec(m, c, {}, 3, r[1 := u]) == Fall([v, u, u]);
  }

  // ---------------------------------------------------------------- expressions

  datatype BinOp = OpEq | OpNe | OpLt | OpLe | OpGt | OpGe

  datatype Expr =
    | Constant(v: Value)
    | Local(r: nat)
    | Upvalue(u: nat)
    | NotExp(e: Expr)
    | And(a: Expr, b: Expr)
    | Or(a: Expr, b: Expr)
    | Relation(op: BinOp, a: Expr, b: Expr)

  function Relates(m: Machine, op: BinOp, v: Value, w: Value): bool {
    match op
    case OpEq => v == w
    case OpNe => v != w
    case OpLt => m.lt(v, w)
    case OpLe => m.le(v, w)
    case OpGt => m.lt(w, v)
    case OpGe => m.le(w, v)
  }

  /** Section 2.5.3: `and` and `or` give one of their operands and evaluate the
      second one only if they need it. */
  function Eval(m: Machine, e: Expr, r: Regs): Value {
    match e
    case Constant(v) => v
    case Local(i) => Reg(r, i)
    case Upvalue(u) => m.up(u)
    case NotExp(x) => Bool(!Truthy(Eval(m, x, r)))
    case And(a, b) => if Truthy(Eval(m, a, r)) then Eval(m, b, r) else Eval(m, a, r)
    case Or(a, b) => if Truthy(Eval(m, a, r)) then Eval(m, a, r) else Eval(m, b, r)
    case Relation(op, a, b) => Bool(Relates(m, op, Eval(m, a, r), Eval(m, b, r)))
  }

  /** Locals are registers below n. */
  predicate Scoped(e: Expr, n: nat) {
    match e
    case Constant(v) => true
    case Local(i) => i < n
    case Upvalue(u) => true
    case NotExp(x) => Scoped(x, n)
    case And(a, b) => Scoped(a, n) && Scoped(b, n)
    case Or(a, b) => Scoped(a, n) && Scoped(b, n)
    case Relation(op, a, b) => Scoped(a, n) && Scoped(b, n)
  }

  /** Registers below n are as before. */
  ghost predicate Same(r: Regs, s: Regs, n: nat) {
    |r| == |s| && forall i :: 0 <= i < n && i < |r| ==> r[i] == s[i]
  }

  // ---------------------------------------------------------------- open jumps

  /** A test is not the last instruction: its jump follows. */
  predicate Complete(code: Code) {
    |code| > 0 ==> !code[|code| - 1].TMode()
  }

  /** The jump at j is taken with a value: a TESTSET controls it. */
  predicate TakesValue(code: Code, j: nat) {
    1 <= j <= |code| && code[j - 1].TestSet?
  }

  /** The value with which the jump at j is taken. */
  function Carried(code: Code, j: nat, s: Regs): Option<Value> {
    if TakesValue(code, j) then Some(Reg(s, code[j - 1].b)) else None
  }

  /** A jump that waits for its target. */
  predicate Open(code: Code, x: nat) {
    x < |code| && code[x].Jmp? && (TakesValue(code, x) ==> code[x - 1].a == NO_REG)
  }

  ghost predicate AllOpen(code: Code, s: set<nat>) {
    forall x: nat :: x in s ==> Open(code, x)
  }
}
