/** What a run of the code of an expression does: where it leaves, and with which
    value.  The code follows section 2.5.3 of the Lua 5.1 Reference Manual except
    where luaK_jump takes waiting jumps along (src/lcode.c:59-66,
    src/lcode.c:571-623), and the course of a run says when that matters. */
module Courses {
  import opened Seqs
  import opened Bytecode

  /** A run comes to the end of the code, by itself or by a waiting jump that carries
      w; or it leaves through the list of `side`, with the value w or with that
      truth value. */
  datatype Flow =
    | End(v: Value, w: Option<Value>)
    | Out(side: bool, w: Option<Value>)

  function OrBool(w: Option<Value>, b: bool): Value {
    if w.Some? then w.value else Bool(b)
  }

  /** The value once all ways have been brought together. */
  function Final(f: Flow): Value {
    match f
    case End(v, _) => v
    case Out(side, w) => OrBool(w, side)
  }

  function Settle(f: Flow): Flow {
    if f.End? then f else End(Final(f), None)
  }

  // ----------------------------------------------------- the form of an expression

  /** The constant that an expression ends in, if its value at the end of its code
      is one. */
  function Tail(x: Expr): Option<Value> {
    match x
    case Constant(v) => Some(v)
    case NotExp(a) => if Tail(a).Some? then Some(Bool(!Truthy(Tail(a).value))) else None
    case And(_, b) => Tail(b)
    case Or(_, b) => Tail(b)
    case _ => None
  }

  /** It ends in a local variable. */
  predicate LocalTail(x: Expr) {
    match x
    case Local(_) => true
    case And(_, b) => LocalTail(b)
    case Or(_, b) => LocalTail(b)
    case _ => false
  }

  /** It ends in a comparison or a negation that is tested as such. */
  predicate BoolTail(x: Expr) {
    match x
    case NotExp(a) => Tail(a).None?
    case Relation(_, _, _) => true
    case And(_, b) => BoolTail(b)
    case Or(_, b) => BoolTail(b)
    case _ => false
  }

  /** At the end of its code x is a constant that is true, or false. */
  predicate Constantly(x: Expr, v: bool) {
    Tail(x).Some? && Truthy(Tail(x).value) == v
  }

  /** Some jump leaves the code of x when it is v. */
  predicate HasList(x: Expr, v: bool) {
    match x
    case NotExp(a) => HasList(a, !v)
    case And(a, b) => HasList(b, v) || (!v && (HasList(a, false) || !Constantly(a, true)))
    case Or(a, b) => HasList(b, v) || (v && (HasList(a, true) || !Constantly(a, false)))
    case _ => false
  }

  lemma {:induction false} TailKinds(x: Expr)
    ensures !(Tail(x).Some? && LocalTail(x)) && !(Tail(x).Some? && BoolTail(x)) && !(LocalTail(x) && BoolTail(x))
  {
    match x
    case And(_, b) => TailKinds(b);
    case Or(_, b) => TailKinds(b);
    case _ =>
  }

  // ------------------------------------------------------------- the constant table

  /** addk. */
  function Add(k: seq<Value>, v: Value): (k': seq<Value>)
    ensures k <= k' && v in k'
  {
    if v in k then k else k + [v]
  }

  lemma AddIndex(k: seq<Value>, v: Value)
    ensures IndexOf(Add(k, v), v) == if v in k then IndexOf(k, v) else |k|
  {
  }

  /** The table after the code of x. */
  function KAfter(x: Expr, k: seq<Value>): (k': seq<Value>)
    ensures k <= k'
    decreases x, 0
  {
    match x
    case Constant(v) => if v.Str? then Add(k, v) else k
    case NotExp(a) => KAfter(a, k)
    case And(a, b) => KAfter(b, KTested(a, k, true))
    case Or(a, b) => KAfter(b, KTested(a, k, false))
    case Relation(_, a, b) => KOperand(b, KOperand(a, k))
    case _ => k
  }

  /** The table after x has been loaded: a number gets an entry. */
  function KLoaded(x: Expr, k: seq<Value>): (k': seq<Value>)
    ensures k <= k'
    decreases x, 1
  {
    var k1 := KAfter(x, k);
    if Tail(x).Some? && Tail(x).value.Num? then Add(k1, Tail(x).value) else k1
  }

  /** The table after the test of x: for `or`, a number is loaded. */
  function KTested(x: Expr, k: seq<Value>, want: bool): (k': seq<Value>)
    ensures k <= k'
    decreases x, 2
  {
    if want then KAfter(x, k) else KLoaded(x, k)
  }

  /** The table after x has become an operand: numbers get an entry, nil, true and
      false one if it can be used. */
  function KOperand(x: Expr, k: seq<Value>): (k': seq<Value>)
    ensures k <= k'
    decreases x, 1
  {
    var k1 := KAfter(x, k);
    if Tail(x).Some? && (Tail(x).value.Num? || (!Tail(x).value.Str? && Lone(x) && |k1| <= MAXINDEXRK)) then Add(k1, Tail(x).value) else k1
  }

  lemma AddOnce(k: seq<Value>, v: Value)
    requires NoDup(k)
    ensures NoDup(Add(k, v))
  {
  }

  /** addk gives every constant one entry: none is ever twice in the table. */
  lemma {:induction false} ConstantsOnce(x: Expr, k: seq<Value>)
    requires NoDup(k)
    ensures NoDup(KAfter(x, k)) && NoDup(KLoaded(x, k)) && NoDup(KOperand(x, k))
    decreases x
  {
    hide NoDup, Add, KLoaded, KOperand, Tail, Lone;
    match x {
      case Constant(v) => AddOnce(k, v);
      case NotExp(a) => ConstantsOnce(a, k);
      case And(a, b) =>
        ConstantsOnce(a, k);
        ConstantsOnce(b, KAfter(a, k));
      case Or(a, b) =>
        ConstantsOnce(a, k);
        ConstantsOnce(b, KLoaded(a, k));
      case Relation(_, a, b) =>
        ConstantsOnce(a, k);
        ConstantsOnce(b, KOperand(a, k));
      case _ =>
    }
    EntryOnce(x, k);
  }

  lemma EntryOnce(x: Expr, k: seq<Value>)
    requires NoDup(KAfter(x, k))
    ensures NoDup(KLoaded(x, k)) && NoDup(KOperand(x, k))
  {
    hide NoDup, Add, KAfter, Tail, Lone;
    if Tail(x).Some? {
      AddOnce(KAfter(x, k), Tail(x).value);
    }
  }

  /** No jump leaves the code of x. */
  predicate Lone(x: Expr) {
    !HasList(x, true) && !HasList(x, false)
  }

  /** A constant can be an operand: its index fits, or the next one. */
  predicate Short(v: Value, k: seq<Value>) {
    if v.Str? then v in k && IndexOf(k, v) <= MAXINDEXRK else |k| <= MAXINDEXRK
  }

  /** x is an operand without any instruction; jumps that lead to its end still wait
      there. */
  predicate Quiet(x: Expr, k: seq<Value>) {
    Lone(x) && (LocalTail(x) || (Tail(x).Some? && Short(Tail(x).value, KAfter(x, k))))
  }

  // ----------------------------------------------------------------- the course

  /** codenot: jumps bring no value any more. */
  function Negate(a: Expr, f: Flow): Flow {
    match f
    case Out(side, _) => Out(!side, None)
    case End(v, w) => End(Bool(!Truthy(v)), if Tail(a).Some? then w else None)
  }

  /** luaK_goiftrue and luaK_goiffalse: the code goes on if a is as wanted and leaves
      through the other list if not.  A constant as wanted needs no code; the
      opposite one is an unconditional jump, which takes the waiting jumps along;
      everything else is tested. */
  function Branch(a: Expr, f: Flow, want: bool): Flow {
    match f
    case Out(side, w) => if side == want then End(Bool(want), w) else f
    case End(v, w) =>
      if Tail(a).Some? && Truthy(v) == want then End(Bool(want), w)
      else if Tail(a).Some? && v == Bool(!want) then Out(!want, w)
      else if Truthy(v) == want then End(Bool(want), None)
      else Out(!want, if BoolTail(a) then None else Some(v))
  }

  /** A run of the code of x that starts with registers r and the constants k, or
      comes by a jump that was to lead to its beginning and carries w. */
  function Course(m: Machine, k: seq<Value>, x: Expr, r: Regs, w: Option<Value>): Flow
    decreases x
  {
    match x
    case Constant(v) => End(v, w)
    case Local(i) => End(Reg(r, i), w)
    case Upvalue(u) => End(m.up(u), None)
    case NotExp(a) => Negate(a, Course(m, k, a, r, w))
    case And(a, b) =>
      var f := Branch(a, Course(m, k, a, r, w), true);
      if f.Out? then f else Course(m, KTested(a, k, true), b, r, f.w)
    case Or(a, b) =>
      var f := Branch(a, Course(m, k, a, r, w), false);
      if f.Out? then f else Course(m, KTested(a, k, false), b, r, f.w)
    case Relation(op, a, b) =>
      var f := Course(m, k, a, r, w);
      End(Bool(Relates(m, op, Final(f), Final(Course(m, KOperand(a, k), b, r, Passed(a, k, f))))), None)
  }

  /** What the second operand of a comparison is entered with. */
  function Passed(a: Expr, k: seq<Value>, f: Flow): Option<Value> {
    if Quiet(a, k) && f.End? then f.w else None
  }

  /** The value that the code of x gives. */
  function Given(m: Machine, k: seq<Value>, x: Expr, r: Regs): Value {
    Final(Course(m, k, x, r, None))
  }

  /** It depends on the active locals only. */
  lemma {:induction false} CourseSame(m: Machine, k: seq<Value>, x: Expr, r: Regs, s: Regs, n: nat, w: Option<Value>)
    requires Scoped(x, n) && Same(r, s, n)
    ensures Course(m, k, x, r, w) == Course(m, k, x, s, w)
    decreases x
  {
    hide KTested, KOperand, Passed, Branch, Negate, Final, Relates;
    match x
    case NotExp(a) => CourseSame(m, k, a, r, s, n, w);
    case And(a, b) =>
      CourseSame(m, k, a, r, s, n, w);
      var f := Branch(a, Course(m, k, a, r, w), true);
      if f.End? { CourseSame(m, KTested(a, k, true), b, r, s, n, f.w); }
    case Or(a, b) =>
      CourseSame(m, k, a, r, s, n, w);
      var f := Branch(a, Course(m, k, a, r, w), false);
      if f.End? { CourseSame(m, KTested(a, k, false), b, r, s, n, f.w); }
    case Relation(_, a, b) =>
      CourseSame(m, k, a, r, s, n, w);
      CourseSame(m, KOperand(a, k), b, r, s, n, Passed(a, k, Course(m, k, a, r, w)));
    case _ =>
  }

  /** At the end of its code an expression that ends in a constant is that constant;
      one that ends in a test is true or false, and nothing waits there. */
  lemma {:induction false} EndsIn(m: Machine, k: seq<Value>, x: Expr, r: Regs, w: Option<Value>)
    ensures var f := Course(m, k, x, r, w);
            f.End? ==> (Tail(x).Some? ==> f.v == Tail(x).value) && (BoolTail(x) ==> f.v.Bool?)
                       && (Tail(x).None? && !LocalTail(x) ==> f.w.None?)
    decreases x
  {
    match x
    case NotExp(a) => EndsIn(m, k, a, r, w);
    case And(a, b) =>
      var f := Branch(a, Course(m, k, a, r, w), true);
      if f.End? { EndsIn(m, KTested(a, k, true), b, r, f.w); }
    case Or(a, b) =>
      var f := Branch(a, Course(m, k, a, r, w), false);
      if f.End? { EndsIn(m, KTested(a, k, false), b, r, f.w); }
    case _ =>
  }

  // ------------------------------------------------------- when the value is right

  /** The jump of a constant that decides its operator, if a run whose course through
      the first operand is f leaves by it: the constant, and the value that a waiting
      jump carried there.  c is what happened inside the operand. */
  function AtJump(a: Expr, f: Flow, c: Option<(Value, Value)>, want: bool): Option<(Value, Value)> {
    if f.Out? then c
    else if Tail(a) == Some(Bool(!want)) && f.w.Some? then Some((Bool(!want), f.w.value))
    else None
  }

  /** The run leaves x by the jump of a constant that decides its operator, and a
      waiting jump brought it there. */
  function Caught(m: Machine, k: seq<Value>, x: Expr, r: Regs, w: Option<Value>): Option<(Value, Value)>
    decreases x
  {
    match x
    case And(a, b) =>
      var fa := Course(m, k, a, r, w);
      var f := Branch(a, fa, true);
      if f.End? then Caught(m, KTested(a, k, true), b, r, f.w) else AtJump(a, fa, Caught(m, k, a, r, w), true)
    case Or(a, b) =>
      var fa := Course(m, k, a, r, w);
      var f := Branch(a, fa, false);
      if f.End? then Caught(m, KTested(a, k, false), b, r, f.w) else AtJump(a, fa, Caught(m, k, a, r, w), false)
    case _ => None
  }

  /** The jump carries the constant itself. */
  predicate Harmless(c: Option<(Value, Value)>) {
    c.Some? ==> c.value.0 == c.value.1
  }

  /** No operand of a comparison that is evaluated gets a wrong value in this way. */
  predicate Clear(m: Machine, k: seq<Value>, x: Expr, r: Regs, w: Option<Value>)
    decreases x
  {
    match x
    case NotExp(a) => Clear(m, k, a, r, w)
    case And(a, b) =>
      var f := Branch(a, Course(m, k, a, r, w), true);
      Clear(m, k, a, r, w) && (f.End? ==> Clear(m, KTested(a, k, true), b, r, f.w))
    case Or(a, b) =>
      var f := Branch(a, Course(m, k, a, r, w), false);
      Clear(m, k, a, r, w) && (f.End? ==> Clear(m, KTested(a, k, false), b, r, f.w))
    case Relation(_, a, b) =>
      var w' := Passed(a, k, Course(m, k, a, r, w));
      && Clear(m, k, a, r, w) && Harmless(Caught(m, k, a, r, w))
      && Clear(m, KOperand(a, k), b, r, w') && Harmless(Caught(m, KOperand(a, k), b, r, w'))
    case _ => true
  }

  /** The code goes where section 2.5.3 wants it, and its value is the right one if
      and only if no jump of a deciding constant has taken another value along. */
  lemma {:induction false} Exact(m: Machine, k: seq<Value>, x: Expr, r: Regs, w: Option<Value>)
    requires Clear(m, k, x, r, w)
    ensures var f := Course(m, k, x, r, w);
            && (f.End? ==> f.v == Eval(m, x, r))
            && (f.Out? ==> f.side == Truthy(Eval(m, x, r)))
            && (Final(f) == Eval(m, x, r) <==> Harmless(Caught(m, k, x, r, w)))
    decreases x
  {
    hide KTested, KOperand, Passed;
    match x
    case NotExp(a) => Exact(m, k, a, r, w);
    case And(a, b) =>
      Exact(m, k, a, r, w);
      EndsIn(m, k, a, r, w);
      var f := Branch(a, Course(m, k, a, r, w), true);
      if f.End? { Exact(m, KTested(a, k, true), b, r, f.w); }
    case Or(a, b) =>
      Exact(m, k, a, r, w);
      EndsIn(m, k, a, r, w);
      var f := Branch(a, Course(m, k, a, r, w), false);
      if f.End? { Exact(m, KTested(a, k, false), b, r, f.w); }
    case Relation(_, a, b) =>
      Exact(m, k, a, r, w);
      Exact(m, KOperand(a, k), b, r, Passed(a, k, Course(m, k, a, r, w)));
    case _ =>
  }

  /** A condition goes the right way even where a value is lost. */
  lemma TestExact(m: Machine, k: seq<Value>, x: Expr, r: Regs, w: Option<Value>, want: bool)
    requires Clear(m, k, x, r, w)
    ensures Branch(x, Course(m, k, x, r, w), want).End? <==> Truthy(Eval(m, x, r)) == want
  {
    Exact(m, k, x, r, w);
  }

  // ------------------------------------------------------------ before the run

  /** Some jump that leaves x when it is v carries a value. */
  predicate HasValue(x: Expr, v: bool) {
    match x
    case And(a, b) => HasValue(b, v) || (!v && (HasValue(a, v) || TestedForValue(a, v)))
    case Or(a, b) => HasValue(b, v) || (v && (HasValue(a, v) || TestedForValue(a, v)))
    case _ => false
  }

  /** The test of x in front of the second operand takes its value along. */
  predicate TestedForValue(x: Expr, v: bool) {
    if Tail(x).Some? then Truthy(Tail(x).value) == v && Tail(x).value != Bool(v) else !BoolTail(x)
  }

  /** Jumps that carry a value may wait at the end of the code of x, which is a
      constant or a local variable there; w: some led to its beginning. */
  predicate Waits(x: Expr, w: bool)
    decreases x, 0
  {
    match x
    case NotExp(a) => Tail(a).Some? && Waits(a, w)
    case And(a, b) => Waits(b, WaitsBehind(a, w, true))
    case Or(a, b) => Waits(b, WaitsBehind(a, w, false))
    case Relation(_, _, _) => false
    case Upvalue(_) => false
    case _ => w
  }

  /** The same between the operands of `and` and `or`, where the first one turned
      out as wanted. */
  predicate WaitsBehind(a: Expr, w: bool, want: bool)
    decreases a, 1
  {
    (Constantly(a, want) && Waits(a, w)) || HasValue(a, want)
  }

  /** Where the first operand of `and` ends in false, or that of `or` in true, no
      jump that carries a value waits. */
  predicate Clean(x: Expr, w: bool) {
    match x
    case NotExp(a) => Clean(a, w)
    case And(a, b) => Clean(a, w) && Clean(b, WaitsBehind(a, w, true)) && (Tail(a) == Some(Bool(false)) ==> !Waits(a, w))
    case Or(a, b) => Clean(a, w) && Clean(b, WaitsBehind(a, w, false)) && (Tail(a) == Some(Bool(true)) ==> !Waits(a, w))
    case Relation(_, a, b) => Clean(a, w) && Clean(b, Lone(a) && Waits(a, w))
    case _ => true
  }

  lemma BranchCarries(a: Expr, f: Flow, u: bool, want: bool)
    requires f.End? && f.w.Some? ==> Waits(a, u)
    requires f.End? && Tail(a).Some? ==> f.v == Tail(a).value
    requires f.Out? && f.w.Some? ==> HasValue(a, f.side)
    requires Tail(a) == Some(Bool(!want)) ==> !Waits(a, u)
    ensures AtJump(a, f, None, want) == None
    ensures match Branch(a, f, want)
            case End(_, w) => w.Some? ==> WaitsBehind(a, u, want)
            case Out(side, w) => side == !want && (w.Some? ==> HasValue(a, !want) || TestedForValue(a, !want))
  {
    hide Waits, HasValue, Tail, BoolTail;
  }

  /** A clean expression gets the right value in every run. */
  lemma {:induction false} CleanRuns(m: Machine, k: seq<Value>, x: Expr, r: Regs, w: Option<Value>, u: bool)
    requires Clean(x, u) && (w.Some? ==> u)
    ensures Clear(m, k, x, r, w) && Caught(m, k, x, r, w) == None
    ensures match Course(m, k, x, r, w)
            case End(_, w') => w'.Some? ==> Waits(x, u)
            case Out(side, w') => w'.Some? ==> HasValue(x, side)
    decreases x
  {
    hide KTested, KOperand, Branch, AtJump, WaitsBehind, TestedForValue, Quiet;
    match x
    case NotExp(a) => CleanRuns(m, k, a, r, w, u);
    case And(a, b) =>
      CleanRuns(m, k, a, r, w, u);
      EndsIn(m, k, a, r, w);
      BranchCarries(a, Course(m, k, a, r, w), u, true);
      var f := Branch(a, Course(m, k, a, r, w), true);
      if f.End? { CleanRuns(m, KTested(a, k, true), b, r, f.w, WaitsBehind(a, u, true)); }
    case Or(a, b) =>
      CleanRuns(m, k, a, r, w, u);
      EndsIn(m, k, a, r, w);
      BranchCarries(a, Course(m, k, a, r, w), u, false);
      var f := Branch(a, Course(m, k, a, r, w), false);
      if f.End? { CleanRuns(m, KTested(a, k, false), b, r, f.w, WaitsBehind(a, u, false)); }
    case Relation(_, a, b) =>
      CleanRuns(m, k, a, r, w, u);
      PassedCarries(a, k, Course(m, k, a, r, w), u);
      CleanRuns(m, KOperand(a, k), b, r, Passed(a, k, Course(m, k, a, r, w)), Lone(a) && Waits(a, u));
    case _ =>
  }

  lemma PassedCarries(a: Expr, k: seq<Value>, f: Flow, u: bool)
    requires f.End? && f.w.Some? ==> Waits(a, u)
    ensures Passed(a, k, f).Some? ==> Lone(a) && Waits(a, u)
  {
    hide Waits;
  }

  lemma CleanExact(m: Machine, k: seq<Value>, x: Expr, r: Regs, w: Option<Value>)
    requires Clean(x, w.Some?)
    ensures Final(Course(m, k, x, r, w)) == Eval(m, x, r)
  {
    CleanRuns(m, k, x, r, w, w.Some?);
    Exact(m, k, x, r, w);
  }

  /** Neither nil nor any other constant. */
  predicate NoConstants(x: Expr) {
    match x
    case Constant(_) => false
    case NotExp(a) => NoConstants(a)
    case And(a, b) => NoConstants(a) && NoConstants(b)
    case Or(a, b) => NoConstants(a) && NoConstants(b)
    case Relation(_, a, b) => NoConstants(a) && NoConstants(b)
    case _ => true
  }

  /** Without constants nothing can go wrong, whatever waits. */
  lemma {:induction false} NoConstantsClean(x: Expr, w: bool)
    requires NoConstants(x)
    ensures Clean(x, w) && Tail(x) == None
    decreases x
  {
    match x
    case NotExp(a) => NoConstantsClean(a, w);
    case And(a, b) => NoConstantsClean(a, w); NoConstantsClean(b, WaitsBehind(a, w, true));
    case Or(a, b) => NoConstantsClean(a, w); NoConstantsClean(b, WaitsBehind(a, w, false));
    case Relation(_, a, b) => NoConstantsClean(a, w); NoConstantsClean(b, Lone(a) && Waits(a, w));
    case _ =>
  }
}
