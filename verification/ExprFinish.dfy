/** The last steps: comparing two values, and putting a value with all its jumps
    into one register (src/lcode.c:422-443, src/lcode.c:713-726). */
module ExprFinish {
  import opened Seqs
  import opened Bytecode
  import opened JumpLists
  import opened Runs
  import opened Courses
  import opened ExprMeaning

  // ---------------------------------------------------------------- comparisons

  /** A run comes to the end with v in operand o; a jump that waits there carries
      w. */
  ghost predicate OperandGood(m: Machine, code: Code, here: set<nat>, o: nat, start: nat, f0: nat, e: Option<nat>, r: Regs, v: Value, w: Option<Value>) {
    match Enter(m, code, here, e, start, r)
    case Stuck => false
    case Fall(s) => Same(r, s, f0) && RK(m, s, o) == v && w == None
    case Jump(j, s) => Same(r, s, f0) && RK(m, s, o) == v && w == Carried(code, j, s)
  }

  lemma OperandOfGood(m: Machine, code: Code, d: Kind, here: set<nat>, o: nat, start: nat, f0: nat, e: Option<nat>, r: Regs, flow: Flow)
    requires Good(m, code, d, {}, {}, here, start, f0, e, r, flow) && Quiescent(code, d, here, f0, start)
    requires (d == VNonreloc(o) && o < BITRK) || (d.VK? && o == BITRK + d.i)
    ensures flow.End? && OperandGood(m, code, here, o, start, f0, e, r, flow.v, if Carries(d, f0) then flow.w else None)
  {
    var none: set<nat> := {};
    assert none + none + here == here;
    EnterPending(m, code, here, e, start, r);
  }

  /** codecomp: both operands are computed, then compared. */
  lemma CmpGood(m: Machine, ca: Code, ha: set<nat>, o1: nat, cb: Code, hb: set<nat>, o2: nat, op: CmpOp, cond: bool, swap: bool, start: nat, f0: nat, f1: nat, e: Option<nat>, r: Regs, va: Value, vb: Value, w: Option<Value>, w2: Option<Value>)
    requires OperandGood(m, ca, ha, o1, start, f0, e, r, va, w) && |r| == NO_REG && start <= |ca|
    requires forall s, e' :: Same(r, s, f0) && Entry(ha, e') && (e'.None? ==> Enter(m, ca, ha, e, start, r) == Fall(s)) && EntryValue(ca, e', s) == w ==>
               OperandGood(m, cb, hb, o2, |ca|, f1, e', s, vb, w2)
    requires f0 <= f1 && (o1 < BITRK ==> o1 < f1)
    requires Grown(ca, ha, cb, hb) && Complete(cb) && AllOpen(cb, hb)
    ensures var i := if swap then Cmp(op, cond, o2, o1) else Cmp(op, cond, o1, o2);
            var v := if swap then Compare(m, op, vb, va) else Compare(m, op, va, vb);
            Good(m, TestCode(cb, hb, i), VJmp(|cb| + 1), {}, {}, {}, start, f0, e, r, End(Bool(v == cond), None))
  {
    hide Enter, AllOpen, Grown, Complete, Lands, RK;
    var i := if swap then Cmp(op, cond, o2, o1) else Cmp(op, cond, o1, o2);
    var v := if swap then Compare(m, op, vb, va) else Compare(m, op, va, vb);
    var c := TestCode(cb, hb, i);
    var b := Patched(cb, hb, |cb|, NO_REG, |cb|);
    EmitLands(cb, hb, i);
    TestLands(cb, hb, i);
    assert Body(c, VJmp(|cb| + 1)) == b;
    BothOperands(m, ca, ha, o1, cb, hb, o2, start, f0, f1, e, r, va, vb, w, w2);
    var flow := End(Bool(v == cond), None);
    var none: set<nat> := {};
    assert none + none + hb == hb && none + none == none;
    GrownLength(ca, ha, cb, hb);
    NoneApart(cb, hb);
    Onward(m, cb, {}, {}, hb, b, {}, start, f0, e, r, flow);
  }

  lemma GrownLength(ca: Code, ha: set<nat>, cb: Code, hb: set<nat>)
    requires Grown(ca, ha, cb, hb)
    ensures |ca| <= |cb|
  {
  }

  lemma NoneApart(b: Code, here: set<nat>)
    requires AllOpen(b, here)
    ensures Apart(b, {}, {}, here)
  {
  }

  lemma BothOperands(m: Machine, ca: Code, ha: set<nat>, o1: nat, cb: Code, hb: set<nat>, o2: nat, start: nat, f0: nat, f1: nat, e: Option<nat>, r: Regs, va: Value, vb: Value, w: Option<Value>, w2: Option<Value>)
    requires OperandGood(m, ca, ha, o1, start, f0, e, r, va, w) && |r| == NO_REG && start <= |ca|
    requires forall s, e' :: Same(r, s, f0) && Entry(ha, e') && (e'.None? ==> Enter(m, ca, ha, e, start, r) == Fall(s)) && EntryValue(ca, e', s) == w ==>
               OperandGood(m, cb, hb, o2, |ca|, f1, e', s, vb, w2)
    requires f0 <= f1 && (o1 < BITRK ==> o1 < f1) && Grown(ca, ha, cb, hb)
    ensures var o := Enter(m, cb, hb, e, start, r);
            o != Stuck && Ends(o, hb) && Same(r, o.r, f0) && RK(m, o.r, o1) == va && RK(m, o.r, o2) == vb
  {
    hide Enter, Grown;
    var none: set<nat> := {};
    assert none + ha == ha && hb + none == hb;
    EnterPending(m, ca, ha, e, start, r);
    EnterSecond(m, ca, {}, ha, cb, hb, e, start, r);
    var o := Enter(m, ca, ha, e, start, r);
    var e' := if o.Jump? then Some(o.j) else None;
    assert OperandGood(m, cb, hb, o2, |ca|, f1, e', o.r, vb, w2);
    EnterPending(m, cb, hb, e', |ca|, o.r);
  }

  // ---------------------------------------------------------- one final register

  /** need_value: some jump is taken without a value. */
  ghost predicate NeedsValue(code: Code, s: set<nat>) {
    exists j: nat :: j in s && !TakesValue(code, j)
  }

  /** Both lists are patched. */
  function PatchBoth(code: Code, t: set<nat>, f: set<nat>, reg: nat, pf: int, pt: int): Code {
    Patched(Patched(code, f, |code|, reg, pf), t, |code|, reg, pt)
  }

  /** How the code has changed when the jumps of both lists have got their targets:
      the end if they bring their value, else the load of false or of true. */
  ghost predicate Resolved(c: Code, t: set<nat>, f: set<nat>, c': Code, reg: nat, pf: int, pt: int) {
    && |c| <= |c'|
    && forall i: nat :: i < |c| ==> ResolvedAt(c, t, f, c', reg, pf, pt, i)
  }

  ghost predicate ResolvedAt(c: Code, t: set<nat>, f: set<nat>, c': Code, reg: nat, pf: int, pt: int, i: nat)
    requires i < |c| <= |c'|
  {
    c'[i] ==
      if i in t || i in f then Jmp((if TakesValue(c, i) then |c'| else if i in t then pt else pf) - (i + 1))
      else if (i + 1 in t || i + 1 in f) && c[i].TestSet? then Retarget(c[i], reg)
      else c[i]
  }

  lemma PatchBothAt(c: Code, w: Code, t: set<nat>, f: set<nat>, reg: nat, pf: int, pt: int)
    requires |c| <= |w| && w[..|c|] == c && AllOpen(c, t) && AllOpen(c, f) && t !! f
    ensures Resolved(c, t, f, PatchBoth(w, t, f, reg, pf, pt), reg, pf, pt)
    ensures forall x: nat :: |c| <= x < |w| && !w[x].TestSet? ==> PatchBoth(w, t, f, reg, pf, pt)[x] == w[x]
  {
    var c1 := Patched(w, f, |w|, reg, pf);
    var c' := PatchBoth(w, t, f, reg, pf, pt);
    forall i: nat | i < |c|
      ensures ResolvedAt(c, t, f, c', reg, pf, pt, i)
    {
      assert w[i] == c[i] && (i > 0 ==> w[i - 1] == c[i - 1]);
      assert c1[i] == PatchAt(w, f, |w|, reg, pf, i) && c'[i] == PatchAt(c1, t, |w|, reg, pt, i);
      assert i > 0 ==> c1[i - 1] == PatchAt(w, f, |w|, reg, pf, i - 1);
      if i in t || i in f { assert Open(c, i); }
      if i > 0 && i - 1 in f { assert Open(c, i - 1); }
    }
    forall x: nat | |c| <= x < |w| && !w[x].TestSet?
      ensures c'[x] == w[x]
    {
      assert !Open(c, x);
      assert c1[x] == PatchAt(w, f, |w|, reg, pf, x) && c'[x] == PatchAt(c1, t, |w|, reg, pt, x);
    }
  }

  lemma ResolvedExtends(c: Code, t: set<nat>, f: set<nat>, c': Code, reg: nat, pf: int, pt: int)
    requires Resolved(c, t, f, c', reg, pf, pt) && AllOpen(c, t) && AllOpen(c, f)
    ensures Extends(c, t + f, c')
  {
    forall i: nat | i < |c|
      ensures ExtendsAt(c, t + f, c', i)
    {
      assert ResolvedAt(c, t, f, c', reg, pf, pt, i);
      if i in t + f { assert Open(c, i); }
      if i + 1 in t + f { assert Open(c, i + 1); }
    }
  }

  /** The load at position p puts v into reg and leads to the end. */
  ghost predicate LoadsTo(c': Code, p: int, reg: nat, v: bool) {
    0 <= p < |c'| && c'[p] == LoadBool(reg, v, p + 2 == |c'|) && (p + 2 == |c'| || p + 1 == |c'|)
  }

  lemma LoadRun(m: Machine, c': Code, h: set<nat>, p: nat, reg: nat, v: bool, s: Regs)
    requires LoadsTo(c', p, reg, v)
    ensures Exec(m, c', h, p, s) == Fall(Write(s, reg, Bool(v)))
  {
    assert Exec(m, c', h, |c'|, Write(s, reg, Bool(v))) == Fall(Write(s, reg, Bool(v)));
  }

  /** What the finished code relies on: jumps that take no value have a load to go
      to. */
  ghost predicate Loaded(c: Code, t: set<nat>, f: set<nat>, c': Code, reg: nat, pf: int, pt: int) {
    && Resolved(c, t, f, c', reg, pf, pt) && AllOpen(c, t) && AllOpen(c, f) && t !! f && reg < NO_REG
    && (forall j: nat :: (j in t || j in f) && !TakesValue(c, j) ==>
          LoadsTo(c', if j in t then pt else pf, reg, j in t) && |c| <= if j in t then pt else pf)
  }

  /** A jump of the lists brings its value, or its truth value, to the end. */
  lemma FollowFinal(m: Machine, c: Code, t: set<nat>, f: set<nat>, c': Code, h: set<nat>, reg: nat, pf: int, pt: int, j: nat, s: Regs)
    requires Loaded(c, t, f, c', reg, pf, pt) && (j in t || j in f) && j !in h && |s| == NO_REG
    ensures Follow(m, c', h, j, s) == Fall(Write(s, reg, OrBool(Carried(c, j, s), j in t)))
  {
    assert Open(c, j) && ResolvedAt(c, t, f, c', reg, pf, pt, j);
    if j > 0 { assert ResolvedAt(c, t, f, c', reg, pf, pt, j - 1); }
    if j > 0 && (j - 1 in t || j - 1 in f) { assert Open(c, j - 1); }
    if TakesValue(c, j) {
      var s' := Write(s, reg, Reg(s, c[j - 1].b));
      assert reg == c[j - 1].b ==> s' == s;
      assert Exec(m, c', h, |c'|, s') == Fall(s');
    } else {
      LoadRun(m, c', h, if j in t then pt else pf, reg, j in t, s);
    }
  }

  /** Finished code that is entered as the code was: a run that left by a jump of the
      lists comes to the end with its value; any other goes on behind the code. */
  lemma EnterFinished(m: Machine, c: Code, t: set<nat>, f: set<nat>, here: set<nat>, c': Code, h: set<nat>, reg: nat, pf: int, pt: int, e: Option<nat>, start: nat, r: Regs)
    requires Loaded(c, t, f, c', reg, pf, pt) && Complete(c) && t !! here && f !! here && start <= |c| && |r| == NO_REG
    requires forall i: nat :: i < |c| ==> (i in h <==> i in here)
    requires Enter(m, c, t + f + here, e, start, r) != Stuck
    ensures var o := Enter(m, c, t + f + here, e, start, r);
            Enter(m, c', h, e, start, r) ==
              if o.Fall? then Exec(m, c', h, |c|, o.r)
              else if o.Jump? && (o.j in t || o.j in f) then Fall(Write(o.r, reg, OrBool(Carried(c, o.j, o.r), o.j in t)))
              else o
  {
    ResolvedExtends(c, t, f, c', reg, pf, pt);
    assert here + (t + f) == t + f + here;
    assert Waiting(c, here, t + f, c', h);
    EnterPending(m, c, t + f + here, e, start, r);
    var o := Enter(m, c, t + f + here, e, start, r);
    if o.Jump? && (o.j in t || o.j in f) {
      FollowFinal(m, c, t, f, c', h, reg, pf, pt, o.j, o.r);
    }
    hide *;
    EnterExt(m, c, here, t + f, c', h, e, start, r);
  }

  /** A value in reg: all ways lead to the end, and the value is there.  over: the
      jump over the loads, if there are any. */
  lemma FinishGood(m: Machine, c: Code, t: set<nat>, f: set<nat>, here: set<nat>, c': Code, over: set<nat>, reg: nat, pf: int, pt: int, start: nat, f0: nat, e: Option<nat>, r: Regs, flow: Flow)
    requires Shape(c, VNonreloc(reg), t, f, here, start) && Good(m, c, VNonreloc(reg), t, f, here, start, f0, e, r, flow) && |r| == NO_REG
    requires f0 <= reg < NO_REG && Loaded(c, t, f, c', reg, pf, pt)
    requires if over == {} then |c'| == |c| else over == {|c|} && |c'| > |c| && c'[|c|].Jmp? && (|c| > 0 ==> !c'[|c| - 1].TMode())
    ensures Good(m, c', VNonreloc(reg), {}, {}, here + over, start, f0, e, r, Settle(flow))
  {
    BodyApart(c, VNonreloc(reg), t, f, here, start);
    ApartParts(c, t, f, here);
    hide Shape, Apart, Loaded, Enter, Complete;
    EnterFinished(m, c, t, f, here, c', here + over, reg, pf, pt, e, start, r);
    EnterPending(m, c, t + f + here, e, start, r);
    var o := Enter(m, c, t + f + here, e, start, r);
    var none: set<nat> := {};
    assert none + none + (here + over) == here + over;
    if o.Fall? {
      OverRun(m, c, c', here + over, o.r);
    } else if o.j in t || o.j in f {
      WriteAbove(r, o.r, f0, reg, OrBool(Carried(c, o.j, o.r), o.j in t));
    }
  }

  lemma OverRun(m: Machine, c: Code, c': Code, h: set<nat>, s: Regs)
    requires |c'| == |c| || (|c'| > |c| && |c| in h && c'[|c|].Jmp? && (|c| > 0 ==> !c'[|c| - 1].TMode()))
    ensures Exec(m, c', h, |c|, s) == if |c'| == |c| then Fall(s) else Jump(|c|, s)
  {
  }

  /** A comparison: the jump that it takes when it holds is one more of the list of
      true, and the code goes on to the load of false when it does not. */
  lemma FinishJmpGood(m: Machine, c: Code, t: set<nat>, f: set<nat>, c': Code, reg: nat, start: nat, f0: nat, e: Option<nat>, r: Regs, a: Expr, flow: Flow)
    requires Apart(c, t, {}, f) && Complete(c) && start <= |c| && |r| == NO_REG
    requires Good(m, c, VFalse, t, {}, f, start, f0, e, r, Branch(a, flow, false)) && BoolTail(a) && Tail(a).None? && (flow.End? ==> flow.v.Bool?)
    requires f0 <= reg < NO_REG && Loaded(c, t, f, c', reg, |c|, |c| + 1) && LoadsTo(c', |c|, reg, false)
    ensures Good(m, c', VNonreloc(reg), {}, {}, {}, start, f0, e, r, Settle(flow))
  {
    ApartParts(c, t, {}, f);
    hide Apart, Loaded, Enter, Complete;
    assert t + {} + f == t + f + {};
    EnterFinished(m, c, t, f, {}, c', {}, reg, |c|, |c| + 1, e, start, r);
    EnterPending(m, c, t + f + {}, e, start, r);
    var o := Enter(m, c, t + f + {}, e, start, r);
    var none: set<nat> := {};
    assert none + none == none;
    if o.Fall? {
      LoadRun(m, c', {}, |c|, reg, false, o.r);
      WriteAbove(r, o.r, f0, reg, Bool(false));
    } else {
      WriteAbove(r, o.r, f0, reg, OrBool(Carried(c, o.j, o.r), o.j in t));
    }
  }
}
