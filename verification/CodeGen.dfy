/** The code generator for expressions: one function state whose code is extended
    and patched in place (src/lcode.c, src/lparser.h:67-87). */
module CodeGen {
  import opened Seqs
  import opened Bytecode
  import opened JumpLists
  import opened Runs
  import opened Courses
  import opened ExprMeaning
  import opened ExprFinish
  import opened ExprSteps

  /** Registers of one function. */
  const MAXSTACK := 250

  /** expdesc: what the code emitted so far does about an expression, and the lists
      of the jumps that leave it when it is true and when it is false. */
  datatype ExpDesc = ExpDesc(k: Kind, t: int, f: int)

  /** hasjumps. */
  predicate HasJumps(e: ExpDesc) {
    e.t != e.f
  }

  lemma ListJumps(code: Code, e: ExpDesc, t: seq<nat>, f: seq<nat>)
    requires List(code, e.t, t) && List(code, e.f, f) && Members(t) !! Members(f)
    ensures HasJumps(e) <==> t != [] || f != []
    ensures HasJumps(e) <==> Members(t) + Members(f) != {}
  {
    if t != [] {
      assert t[0] in Members(t);
    }
    if f != [] {
      assert f[0] in Members(f);
    }
  }

  lemma MembersNone()
    ensures Members([]) == {}
  {
  }

  lemma MembersConcat(p: seq<nat>, q: seq<nat>)
    ensures Members(p + q) == Members(p) + Members(q)
  {
    forall x: nat
      ensures x in Members(p + q) <==> x in Members(p) + Members(q)
    {
      MembersIn(p + q, x);
      MembersIn(p, x);
      MembersIn(q, x);
    }
  }

  lemma MembersOne(j: nat)
    ensures Members([j]) == {j}
  {
    assert forall x: nat :: x in Members([j]) <==> x in [j];
  }

  /** A list survives code that keeps its jumps. */
  lemma ListKept(code: Code, code': Code, list: int, q: seq<nat>)
    requires List(code, list, q) && forall x: nat :: x in Members(q) ==> x < |code'| && code'[x] == code[x]
    ensures List(code', list, q)
  {
    forall x | x in q
      ensures x < |code'| && code'[x] == code[x]
    {
      MembersIn(q, x);
    }
    ListFrame(code, code', list, q);
  }

  lemma ListIn(code: Code, list: int, q: seq<nat>)
    requires List(code, list, q)
    ensures forall x: nat :: x in Members(q) ==> x < |code| && code[x].Jmp?
  {
    forall x: nat | x in Members(q)
      ensures x < |code| && code[x].Jmp?
    {
      MembersIn(q, x);
      var i :| 0 <= i < |q| && q[i] == x;
    }
  }

  lemma PatchKeepsList(code: Code, s: set<nat>, vtarget: int, reg: nat, dtarget: int, list: int, q: seq<nat>)
    requires List(code, list, q) && s !! Members(q)
    ensures List(Patched(code, s, vtarget, reg, dtarget), list, q) && List(Unset(code, s), list, q)
  {
    ListIn(code, list, q);
    ListKept(code, Patched(code, s, vtarget, reg, dtarget), list, q);
    ListKept(code, Unset(code, s), list, q);
  }

  lemma MembersPrefix(q: seq<nat>, i: nat)
    requires i < |q| && NoDup(q)
    ensures Members(q[..i + 1]) == Members(q[..i]) + {q[i]} && q[i] !in Members(q[..i])
  {
    assert q[..i + 1] == q[..i] + [q[i]];
    MembersConcat(q[..i], [q[i]]);
    MembersOne(q[i]);
    MembersIn(q[..i], q[i]);
  }

  lemma ListHead(code: Code, list: int, q: seq<nat>)
    requires List(code, list, q)
    ensures list == (if 0 < |q| then q[0] else NO_JUMP) && q[..0] == []
  {
  }

  /** What a walk along a list knows at position i. */
  lemma ListNext(code: Code, list: int, q: seq<nat>, i: nat)
    requires List(code, list, q) && i < |q|
    ensures q[i] < |code| && code[q[i]].Jmp? && Link(code, q[i]) == (if i + 1 < |q| then q[i + 1] else NO_JUMP)
    ensures q[i] !in Members(q[..i]) && Members(q[..i + 1]) == Members(q[..i]) + {q[i]}
    ensures forall x: nat :: x in Members(q[..i]) ==> x < |code| && code[x].Jmp?
  {
    MembersPrefix(q, i);
    ListIn(code, list, q);
    PrefixIn(q, i);
  }

  lemma EmitKeepsList(code: Code, here: set<nat>, i: Instr, list: int, q: seq<nat>)
    requires List(code, list, q) && here !! Members(q)
    ensures List(Emit(code, here, i), list, q) && List(TestCode(code, here, i), list, q)
  {
    PatchKeepsList(code, here, |code|, NO_REG, |code|, list, q);
    var b := Patched(code, here, |code|, NO_REG, |code|);
    ListIn(b, list, q);
    ListKept(b, Emit(code, here, i), list, q);
    ListKept(b, TestCode(code, here, i), list, q);
  }

  lemma ComputedShape(code: Code, here: set<nat>, k: seq<Value>, d: Kind, t: set<nat>, f: set<nat>, g: Goal)
    requires Computed(code, here, k, d, t, f, g)
    ensures t !! f && t !! here && f !! here && AllOpen(code, t) && AllOpen(code, f) && AllOpen(code, here) && Complete(code)
    ensures d.VRelocable? ==> here == {} && 0 <= d.i < |code| && d.i + 1 == |code| && d.i !in t && d.i !in f && (code[d.i].GetUpval? || code[d.i].Not?)
    ensures d.VJmp? ==> here == {} && 1 <= d.i < |code| && d.i + 1 == |code| && code[d.i] == Jmp(NO_JUMP) && code[d.i - 1].Cmp? && d.i !in t && d.i !in f && d.i - 1 !in t && d.i - 1 !in f
    ensures d.VK? ==> d.i < |k|
  {
    hide Means, Grown, Quiescent;
    BodyApart(code, d, t, f, here, |g.c0|);
    if d.VJmp? {
      NotOpen(code, d.i - 1);
    }
  }

  lemma NotOpen(c: Code, pc: nat)
    requires pc < |c| && c[pc].TMode()
    ensures !Open(c, pc)
  {
  }

  lemma LoadsConstant(k: seq<Value>, code: Code, d: Kind, i: Instr)
    requires match d
             case VNil => i.LoadNil?
             case VTrue => i.LoadBool? && i.v
             case VFalse => i.LoadBool? && !i.v
             case VK(n) => n < |k| && i.LoadK? && i.bx == n
             case VKNum(n) => i.LoadK? && i.bx < |k| && k[i.bx] == Num(n)
             case VNonreloc(b) => i.Move? && i.b == b
             case _ => false
    ensures Loads(k, i, code, d)
  {
  }

  lemma HereNone(q: seq<nat>)
    ensures Members(q) == {} ==> q == []
  {
    if q != [] {
      assert q[0] in Members(q);
    }
  }

  lemma NeedNone(code: Code)
    ensures !NeedsValue(code, Members([]))
  {
  }

  lemma NeedOne(code: Code, s: set<nat>, j: nat)
    requires j < |code| && code[j].Jmp?
    ensures NeedsValue(code, s + {j}) <==> NeedsValue(code, s) || !code[Control(code, j)].TestSet?
  {
    assert TakesValue(code, j) <==> code[Control(code, j)].TestSet?;
    assert j in s + {j};
    if x: nat :| x in s && !TakesValue(code, x) {
      assert x in s + {j};
    }
  }

  lemma NeedMore(code: Code, s: set<nat>, u: set<nat>)
    requires s <= u && NeedsValue(code, s)
    ensures NeedsValue(code, u)
  {
  }

  /** The list of a comparison's jump. */
  lemma ListOne(code: Code, j: nat)
    requires j < |code| && code[j] == Jmp(NO_JUMP)
    ensures List(code, j, [j]) && Members([j]) == {j}
  {
    MembersOne(j);
  }

  lemma ListEmpty(code: Code)
    ensures List(code, NO_JUMP, []) && Members([]) == {}
  {
  }

  lemma ListLonger(code: Code, more: Code, list: int, q: seq<nat>)
    requires List(code, list, q)
    ensures List(code + more, list, q)
  {
    ListIn(code, list, q);
    ListKept(code, code + more, list, q);
  }

  lemma LoadsKeep(c: Code, reg: nat, list: int, q: seq<nat>)
    requires List(c, list, q)
    ensures List(WithLoads(c, reg), list, q)
  {
    ListLonger(c, [LoadBool(reg, false, true), LoadBool(reg, true, false)], list, q);
  }

  /** The jump over the loads is a new one. */
  lemma HoldApart(c: Code, e: ExpDesc, t: seq<nat>, f: seq<nat>, hl: seq<nat>)
    requires List(c, e.t, t) && List(c, e.f, f) && Members(t) !! Members(hl) && Members(f) !! Members(hl)
    ensures Members([|c|] + hl) == Members(hl) + {|c|}
    ensures Members(t) !! Members([|c|] + hl) && Members(f) !! Members([|c|] + hl)
  {
    MembersConcat([|c|], hl);
    MembersOne(|c|);
    ListIn(c, e.t, t);
    ListIn(c, e.f, f);
  }

  lemma PatchBothKeepsList(code: Code, t: set<nat>, f: set<nat>, reg: nat, pf: int, pt: int, list: int, q: seq<nat>)
    requires List(code, list, q) && t !! Members(q) && f !! Members(q)
    ensures List(PatchBoth(code, t, f, reg, pf, pt), list, q)
  {
    PatchKeepsList(code, f, |code|, reg, pf, list, q);
    PatchKeepsList(Patched(code, f, |code|, reg, pf), t, |code|, reg, pt, list, q);
  }

  lemma NeedsSplit(code: Code, t: set<nat>, i: nat)
    requires 1 <= i < |code| && code[i - 1].Cmp?
    ensures NeedsValue(code, t + {i})
  {
    assert i in t + {i} && !TakesValue(code, i);
  }

  lemma OnHold(c: Code, held: int, hl: seq<nat>)
    requires List(c, held, hl)
    ensures List(c + [Jmp(NO_JUMP)], held, hl) && List(c + [Jmp(NO_JUMP)], |c|, [|c|]) && Members([|c|]) !! Members(hl)
  {
    ListLonger(c, [Jmp(NO_JUMP)], held, hl);
    ListIn(c, held, hl);
    MembersOne(|c|);
  }

  lemma RelinkedOne(c: Code, c': Code)
    requires Relinked(c + [Jmp(NO_JUMP)], c', Members([|c|]))
    ensures |c'| == |c| + 1 && c'[|c|].Jmp? && c' == c + [Jmp(c'[|c|].sbx)]
  {
    MembersOne(|c|);
    assert forall x: nat :: x < |c| ==> c'[x] == (c + [Jmp(NO_JUMP)])[x];
  }

  lemma RelinkedList(c: Code, c': Code, s: set<nat>, list: int, q: seq<nat>)
    requires List(c, list, q) && Relinked(c, c', s) && s !! Members(q)
    ensures List(c', list, q)
  {
    ListIn(c, list, q);
    ListKept(c, c', list, q);
  }

  lemma HeadNone(code: Code, list: int, q: seq<nat>)
    requires List(code, list, q) && q == []
    ensures list == NO_JUMP
  {
  }

  lemma NoJumps(code: Code, e: ExpDesc, t: seq<nat>, f: seq<nat>)
    requires List(code, e.t, t) && List(code, e.f, f) && t == [] && f == []
    ensures e.t == NO_JUMP && e.f == NO_JUMP
  {
  }

  lemma NotDecides(k: seq<Value>, code: Code, d: Kind, cond: bool)
    requires d.VRelocable? && d.i < |code| && code[d.i].Not?
    ensures DecidesFor(k, Test(code[d.i].b, !cond), code, d, cond, true)
  {
  }

  lemma SetDecides(k: seq<Value>, code: Code, d: Kind, cond: bool)
    requires d.VNonreloc?
    ensures DecidesFor(k, TestSet(NO_REG, d.i, cond), code, d, cond, false)
  {
  }

  lemma InvertKeepsList(c: Code, j: nat, list: int, q: seq<nat>)
    requires List(c, list, q) && 1 <= j < |c| && c[j - 1].Cmp?
    ensures List(c[j - 1 := Inverted(c[j - 1])], list, q)
  {
    ListIn(c, list, q);
    ListKept(c, c[j - 1 := Inverted(c[j - 1])], list, q);
  }

  lemma ConditionalShape(code: Code, q: set<nat>, here: set<nat>, k: seq<Value>, g: Goal, want: bool)
    requires Conditional(code, q, here, k, g, want)
    ensures AllOpen(code, here) && Complete(code) && q !! here
  {
  }

  lemma JumpApart(code: Code, e: ExpDesc, t: seq<nat>, f: seq<nat>, pc: nat)
    requires List(code, e.t, t) && List(code, e.f, f) && pc >= |code|
    ensures pc !in Members(t) && pc !in Members(f)
  {
    ListIn(code, e.t, t);
    ListIn(code, e.f, f);
  }

  /** Without its last instruction the code still has the lists. */
  lemma ShorterLists(c: Code, e: ExpDesc, t: seq<nat>, f: seq<nat>, jpc: int, jl: seq<nat>, k: seq<Value>, g: Goal)
    requires List(c, e.t, t) && List(c, e.f, f) && List(c, jpc, jl) && e.k.VRelocable?
    requires Computed(c, Members(jl), k, e.k, Members(t), Members(f), g)
    ensures |c| > 0 && var b := c[..|c| - 1]; b == Body(c, e.k) && List(b, e.t, t) && List(b, e.f, f) && List(b, jpc, jl)
    ensures Members(jl) == {}
  {
    ComputedShape(c, Members(jl), k, e.k, Members(t), Members(f), g);
    var b := c[..|c| - 1];
    BodyApart(c, e.k, Members(t), Members(f), Members(jl), |g.c0|);
    assert forall x: nat :: x in Members(t) || x in Members(f) ==> Open(b, x);
    ListKept(c, b, e.t, t);
    ListKept(c, b, e.f, f);
    ListKept(c, b, jpc, jl);
  }

  lemma UnsetKeepsList(code: Code, s: set<nat>, list: int, q: seq<nat>)
    requires List(code, list, q)
    ensures List(Unset(code, s), list, q)
  {
    ListIn(code, list, q);
    ListKept(code, Unset(code, s), list, q);
  }

  lemma UnsetTwice(code: Code, tl: int, t: seq<nat>, fl: int, f: seq<nat>)
    requires List(code, tl, t) && List(code, fl, f)
    ensures Unset(Unset(code, Members(t)), Members(f)) == Unset(code, Members(t) + Members(f))
  {
    ListIn(code, tl, t);
    ListIn(code, fl, f);
    var c1 := Unset(code, Members(t));
    forall x | 0 <= x < |code|
      ensures Unset(c1, Members(f))[x] == Unset(code, Members(t) + Members(f))[x]
    {
      assert code[x].TestSet? ==> x !in Members(t) && x !in Members(f);
    }
  }

  /** The list of the first operand is still there, apart from all others. */
  lemma OperandLists(ca: Code, list: int, q: seq<nat>, ha: set<nat>, ka: seq<Value>, ga: Goal, want: bool, cb: Code, hb: set<nat>, k: seq<Value>, d: Kind, t: set<nat>, f: set<nat>, gb: Goal)
    requires List(ca, list, q) && Conditional(ca, Members(q), ha, ka, ga, want)
    requires gb.c0 == ca && gb.h0 == ha && Computed(cb, hb, k, d, t, f, gb)
    ensures List(cb, list, q) && t !! Members(q) && f !! Members(q) && hb !! Members(q) && t !! f && t !! hb && f !! hb
  {
    ComputedShape(cb, hb, k, d, t, f, gb);
    ListIn(ca, list, q);
    ConditionalShape(ca, Members(q), ha, ka, ga, want);
    assert AllOpen(ca, Members(q));
    GrownLists(ca, ha, cb, t + f + hb, Members(q));
    forall x: nat | x in Members(q)
      ensures x < |cb| && cb[x] == ca[x] && x !in hb && x !in t && x !in f
    {
      assert ExtendsAt(ca, ha, cb, x) && x !in t + f + hb;
    }
    ListKept(ca, cb, list, q);
  }

  /** How many registers an expression needs. */
  function Depth(x: Expr): nat {
    match x
    case NotExp(a) => Depth(a)
    case And(a, b) => if Depth(a) < Depth(b) then Depth(b) else Depth(a)
    case Or(a, b) => if Depth(a) < Depth(b) then Depth(b) else Depth(a)
    case Relation(_, a, b) => 1 + if Depth(a) < Depth(b) then Depth(b) else Depth(a)
    case _ => 1
  }

  /** The kind that is left of an expression fits its form. */
  ghost predicate Kinds(d: Kind, code: Code, k: seq<Value>, x: Expr, f0: nat) {
    && (match Tail(x)
        case None => !d.Const()
        case Some(v) =>
          match d
          case VNil => v == Nil
          case VTrue => v == Bool(true)
          case VFalse => v == Bool(false)
          case VK(i) => v.Str? && v in k && i == IndexOf(k, v)
          case VKNum(n) => v == Num(n)
          case _ => false)
    && (LocalTail(x) <==> d.VLocal? || (d.VNonreloc? && d.i < f0))
    && (BoolTail(x) <==> d.VJmp? || (d.VRelocable? && d.i < |code| && code[d.i].Not?))
    && (d.VNonreloc? ==> d.i < f0)
  }

  /** The table after a value has been loaded. */
  function Numbered(d: Kind, k: seq<Value>): (k': seq<Value>)
    ensures k <= k'
  {
    if d.VKNum? then Add(k, Num(d.n)) else k
  }

  // -------------------------------------------------------- the code before a goal

  lemma ComputedKeeps(g: Goal, c: Code, code: Code, here: set<nat>, k: seq<Value>, d: Kind, t: set<nat>, f: set<nat>, last: int, last': int, n: nat)
    requires Computed(code, here, k, d, t, f, Real(g, c)) && Based(g, c, last, n) && last <= last'
    ensures Real(g, code) == Real(g, c) && Based(g, code, last', n)
  {
    RealKept(g, c, code, t + f + here, last, last', n);
  }

  lemma ConditionalKeeps(g: Goal, c: Code, code: Code, q: set<nat>, here: set<nat>, k: seq<Value>, want: bool, last: int, last': int, n: nat)
    requires Conditional(code, q, here, k, Real(g, c), want) && Based(g, c, last, n) && last <= last'
    ensures Real(g, code) == Real(g, c) && Based(g, code, last', n)
  {
    if want {
      RealKept(g, c, code, {} + q + here, last, last', n);
    } else {
      RealKept(g, c, code, q + {} + here, last, last', n);
    }
  }

  lemma FinishedKeeps(g: Goal, c: Code, code: Code, here: set<nat>, k: seq<Value>, d: Kind, last: int, last': int, n: nat)
    requires Computed(code, here, k, d, {}, {}, Real(g, c).(aim := Finished)) && Based(g, c, last, n) && last <= last'
    ensures Real(g.(aim := Finished), code) == Real(g, c).(aim := Finished) && Based(g.(aim := Finished), code, last', n)
  {
    RealKept(g, c, code, {} + {} + here, last, last', n);
  }

  lemma JoinedKeeps(g: Goal, x: Expr, c: Code, code: Code, here: set<nat>, k: seq<Value>, d: Kind, t: set<nat>, f: set<nat>, last: int, last': int, n: nat)
    requires Computed(code, here, k, d, t, f, Real(g, c).(x := x)) && Based(g, c, last, n) && last <= last'
    ensures Real(g.(x := x), code) == Real(g, c).(x := x) && Based(g.(x := x), code, last', n)
  {
    RealKept(g, c, code, t + f + here, last, last', n);
  }

  lemma BasedAim(g: Goal, code: Code, last: int, n: nat)
    ensures Based(g.(aim := Finished), code, last, n) == Based(g, code, last, n) && Real(g.(aim := Finished), code) == Real(g, code).(aim := Finished)
  {
  }

  lemma BasedExpr(g: Goal, x: Expr, code: Code, last: int, n: nat)
    ensures Based(g.(x := x), code, last, n) == Based(g, code, last, n) && Real(g.(x := x), code) == Real(g, code).(x := x)
  {
  }

  /** A goal that begins here. */
  lemma BasedNow(g: Goal, last: int)
    requires g.relies == (last < |g.c0|) && (g.h0 != {} ==> last >= |g.c0|)
    ensures Based(g, g.c0, last, g.n) && Real(g, g.c0) == g
  {
  }

  lemma HereNow(code: Code, jpc: int, jl: seq<nat>)
    ensures Members(jl) != {} ==> jl != []
  {
  }

  /** luaK_nil needs no instruction of its own. */
  lemma MergeNil(c: Code, w: Code, here: set<nat>, k: seq<Value>, t: set<nat>, f: set<nat>, g: Goal, last: int, n: nat, reg: nat)
    requires Computed(c, here, k, VNil, t, f, Real(g, c)) && Based(g, c, last, n) && last < |c| && g.f0 == reg < NO_REG
    requires if |c| == 0 then w == c && n <= reg
             else
               var i := c[|c| - 1];
               i.LoadNil? && i.a <= reg <= i.b + 1 && w == if reg > i.b then c[|c| - 1 := LoadNil(i.a, reg)] else c
    ensures Computed(w, here, k, VNonreloc(reg), t, f, Real(g, w)) && Based(g, w, last, n)
  {
    hide Means, Clears;
    var gr := Real(g, c);
    assert |c| == |g.c0| && g.relies && g.h0 == {} by { NilAlone(c, here, k, t, f, gr); }
    WidenComputed(c, here, k, VNil, t, f, gr, w);
    hide Computed;
    assert Real(g, w) == gr.(c0 := w);
    NilThere(w, k, gr.(c0 := w), reg);
  }

  lemma NilAlone(c: Code, here: set<nat>, k: seq<Value>, t: set<nat>, f: set<nat>, g: Goal)
    requires Computed(c, here, k, VNil, t, f, g) && (|c| > 0 ==> !c[|c| - 1].Jmp?)
    ensures |c| == |g.c0|
  {
  }

  lemma MergeKeeps(c: Code, w: Code, tl: int, t: seq<nat>, fl: int, f: seq<nat>, last: int)
    requires |w| == |c| > 0 && c[|c| - 1].LoadNil? && w[|c| - 1].LoadNil? && w == c[|c| - 1 := w[|c| - 1]]
    requires List(c, tl, t) && List(c, fl, f) && Targets(c, last)
    ensures List(w, tl, t) && List(w, fl, f) && Targets(w, last)
  {
    hide List, Targets;
    MergeList(c, w, tl, t);
    MergeList(c, w, fl, f);
    SameTargets(c, w, last);
  }

  lemma MergeList(c: Code, w: Code, list: int, q: seq<nat>)
    requires |w| == |c| > 0 && c[|c| - 1].LoadNil? && w == c[|c| - 1 := w[|c| - 1]] && List(c, list, q)
    ensures List(w, list, q)
  {
    hide List, Members;
    ListIn(c, list, q);
    ListKept(c, w, list, q);
  }

  /** The code of the first operand where that of the second one begins. */
  lemma Rebase(ca: Code, q: set<nat>, ha: set<nat>, ka: seq<Value>, g: Goal, want: bool, last: int, n: nat, gb: Goal, code: Code, last1: int)
    requires Conditional(ca, q, ha, ka, Real(g, ca), want) && Based(g, ca, last, n) && Targets(ca, last) && Based(gb, code, last1, n)
    requires gb.c0 == ca && gb.h0 == ha && gb.relies == (last < |ca|) && gb.f0 == g.f0
    ensures var w := Wide(ca, code);
            Conditional(w, q, ha, ka, Real(g, w), want) && Based(g, w, last, n) && Follows(Real(g, w), w, last < |ca|) && g.n == n
  {
    hide Means, Shape;
    var w := Wide(ca, code);
    var gr := Real(g, ca);
    if last < |ca| {
      TargetsSealed(ca, last);
      if |ca| == |g.c0| {
        ConditionalStart(ca, q, ha, ka, gr, want);
        assert Real(g, w) == gr.(c0 := w);
        if w != ca { WidenConditional(ca, q, ha, ka, gr, want, w); }
      } else {
        ConditionalJump(ca, q, ha, ka, gr, want);
      }
    }
  }

  lemma ConditionalStart(ca: Code, q: set<nat>, ha: set<nat>, ka: seq<Value>, g: Goal, want: bool)
    requires Conditional(ca, q, ha, ka, g, want) && |ca| == |g.c0| && g.h0 == {}
    ensures ca == g.c0
  {
    if want {
      SameCode(ca, ha, VTrue, {}, q, g);
    } else {
      SameCode(ca, ha, VFalse, q, {}, g);
    }
  }

  lemma ConditionalJump(ca: Code, q: set<nat>, ha: set<nat>, ka: seq<Value>, g: Goal, want: bool)
    requires Conditional(ca, q, ha, ka, g, want) && |ca| != |g.c0|
    ensures |ca| > |g.c0| && ca[|ca| - 1].Jmp?
  {
  }

  lemma WidenConditional(ca: Code, q: set<nat>, ha: set<nat>, ka: seq<Value>, g: Goal, want: bool, w: Code)
    requires Conditional(ca, q, ha, ka, g, want) && |ca| == |g.c0| && g.h0 == {} && Widens(ca, w, g.f0)
    ensures Conditional(w, q, ha, ka, g.(c0 := w), want)
  {
    if want {
      WidenComputed(ca, ha, ka, VTrue, {}, q, g.(aim := Tested(true)), w);
    } else {
      WidenComputed(ca, ha, ka, VFalse, q, {}, g.(aim := Tested(false)), w);
    }
  }

  lemma RebaseOperand(ca: Code, ha: set<nat>, ka: seq<Value>, o: nat, quiet: bool, g: Goal, last: int, n: nat, gb: Goal, code: Code, last1: int)
    requires Operand(ca, ha, ka, o, quiet, Real(g.(aim := Finished), ca)) && Based(g, ca, last, n) && Targets(ca, last) && Based(gb, code, last1, n)
    requires gb.c0 == ca && gb.h0 == ha && gb.relies == (last < |ca|) && g.f0 <= gb.f0 && (o < BITRK ==> o < gb.f0)
    ensures var w := Wide(ca, code);
            var ga := Real(g, w).(aim := Finished);
            Operand(w, ha, ka, o, quiet, ga) && Based(g, w, last, n) && Follows(ga, w, last < |ca|) && g.n == n
  {
    var w := Wide(ca, code);
    var gr := Real(g.(aim := Finished), ca);
    if last < |ca| {
      TargetsSealed(ca, last);
      assert ha == {};
      if |ca| == |g.c0| {
        WidenAlone(ca, ha, ka, o, quiet, gr, w);
        assert Real(g, w).(aim := Finished) == gr.(c0 := w);
      } else {
        assert |ca| > |g.c0|;
        WidenOperand(ca, ka, o, quiet, gr, w, gb.f0);
      }
    }
  }

  /** The state behind a comparison. */
  lemma BothCompared(ca: Code, ha: set<nat>, ka: seq<Value>, o1: nat, g: Goal, last: int, n: nat, gb: Goal, code: Code, here: set<nat>, k: seq<Value>, o2: nat, q2: bool, op: BinOp, last1: int)
    requires Operand(ca, ha, ka, o1, Quiet(g.x, g.k0), Real(g.(aim := Finished), ca)) && Based(g, ca, last, n) && Targets(ca, last) && g.aim == Unfinished
    requires gb == Goal(ca, ha, gb.f0, KOperand(g.x, g.k0), n, last < |ca|, gb.x, Unfinished) && Based(gb, code, last1, n) && Targets(code, last1)
    requires Operand(code, here, k, o2, q2, Real(gb.(aim := Finished), code)) && ka <= k && last <= last1
    requires (o1 < BITRK ==> o1 < gb.f0) && n <= g.f0 <= gb.f0 && Scoped(gb.x, n)
    ensures var c, g' := TestCode(code, here, CmpInstr(op, o1, o2)), g.(x := Relation(op, g.x, gb.x));
            && Computed(c, {}, k, VJmp(|code| + 1), {}, {}, Real(g', c)) && Based(g', c, last1, n)
            && Targets(c, last1) && |c| == |code| + 2
  {
    hide Computed, Operand, TestCode, KOperand, Quiet, Targets, Based, Wide, Scoped, CmpInstr, Follows;
    var w := Wide(ca, code);
    var ga, c := Real(g, w), TestCode(code, here, CmpInstr(op, o1, o2));
    RebaseOperand(ca, ha, ka, o1, Quiet(g.x, g.k0), g, last, n, gb, code, last1);
    CompareComputed(w, ha, ka, o1, ga.(aim := Finished), code, here, k, o2, q2, gb.x, op, gb.f0, last < |ca|, n);
    OperandOpen(code, here, k, o2, q2, Real(gb.(aim := Finished), code));
    CmpInstrIs(op, o1, o2);
    TestTargets(code, here, CmpInstr(op, o1, o2), last1);
    TestLonger(code, here, CmpInstr(op, o1, o2));
    JoinedKeeps(g, Relation(op, g.x, gb.x), w, c, {}, k, VJmp(|code| + 1), {}, {}, last, last1, n);
  }

  lemma OperandOpen(code: Code, here: set<nat>, k: seq<Value>, o: nat, quiet: bool, g: Goal)
    requires Operand(code, here, k, o, quiet, g)
    ensures AllOpen(code, here) && Complete(code)
  {
  }

  lemma WideList(ca: Code, list: int, q: seq<nat>, gb: Goal, code: Code, last: int, n: nat)
    requires List(ca, list, q) && Based(gb, code, last, n) && gb.c0 == ca
    ensures List(Wide(ca, code), list, q)
  {
    ListIn(ca, list, q);
    ListKept(ca, Wide(ca, code), list, q);
  }

  lemma CmpInstrIs(op: BinOp, o1: nat, o2: nat)
    ensures var c := if op.OpEq? || op.OpNe? then EQ else if op.OpLt? || op.OpGt? then LT else LE;
            var cond := op.OpEq? || op.OpLt? || op.OpLe?;
            CmpInstr(op, o1, o2).TMode() && CmpInstr(op, o1, o2) == if !cond && c != EQ then Cmp(c, true, o2, o1) else Cmp(c, cond, o1, o2)
  {
  }

  // --------------------------------------------------------------------- targets

  /** An instruction that leads on. */
  predicate Onwards(i: Instr) {
    !i.TMode() && !i.Jmp? && !(i.LoadBool? && i.skip)
  }

  lemma EmitTargets(code: Code, here: set<nat>, i: Instr, last: int)
    requires Targets(code, last) && AllOpen(code, here) && Complete(code) && Onwards(i)
    ensures Targets(Emit(code, here, i), last)
  {
    EmitLands(code, here, i);
    LandTargets(code, here, Emit(code, here, i), last);
  }

  lemma TestTargets(code: Code, here: set<nat>, i: Instr, last: int)
    requires Targets(code, last) && AllOpen(code, here) && Complete(code) && i.TMode()
    ensures Targets(TestCode(code, here, i), last)
  {
    TestLands(code, here, i);
    LandTargets(code, here, TestCode(code, here, i), last);
  }

  lemma LandTargets(code: Code, here: set<nat>, c: Code, last: int)
    requires Targets(code, last) && Lands(code, here, c) && |code| < |c| && Complete(code)
    requires if |c| == |code| + 1 then Onwards(c[|code|]) else |c| == |code| + 2 && c[|code|].TMode() && c[|code| + 1] == Jmp(NO_JUMP)
    ensures Targets(c, last)
  {
    forall j: nat | j < |code|
      ensures c[j].Jmp? ==> j + 1 + c[j].sbx < |c| || j + 1 + c[j].sbx <= last
      ensures c[j].LoadBool? ==> c[j].skip ==> j + 2 < |c| || j + 2 <= last
      ensures c[j].TMode() ==> c[j + 1].Jmp?
    {
      assert LandsAt(code, here, c, j);
      if j + 1 < |code| { assert LandsAt(code, here, c, j + 1); }
    }
  }

  /** The instruction before the test has been taken away. */
  lemma ShorterTargets(c: Code, i: Instr, last: int)
    requires Targets(c, last) && |c| > 0 && c[|c| - 1].Not? && i.TMode()
    ensures Targets(TestCode(c[..|c| - 1], {}, i), last)
  {
    var b := c[..|c| - 1];
    PatchNone(b, |b|, NO_REG, |b|);
    assert forall j: nat :: j < |b| ==> TestCode(b, {}, i)[j] == c[j];
  }

  lemma JumpTargets(c: Code, link: int, q: seq<nat>, last: int)
    requires Targets(c, last) && Complete(c) && List(c + [Jmp(link)], |c|, q) && q != []
    ensures Targets(c + [Jmp(link)], last)
  {
    assert Link(c + [Jmp(link)], q[0]) == NextIn(q, 0);
    if |q| > 1 { assert q[1] < |c| + 1; }
  }

  lemma ConcatTargets(code: Code, code': Code, l: int, p: seq<nat>, q: seq<nat>)
    requires Relinked(code, code', Members(p)) && List(code', l, p + q)
    ensures forall last :: Targets(code, last) ==> Targets(code', last)
  {
    hide Targets, List;
    MembersConcat(p, q);
    forall last | Targets(code, last)
      ensures Targets(code', last)
    {
      LinkTargets(code, code', l, p + q, last);
    }
  }

  /** New links lead to jumps. */
  lemma LinkTargets(code: Code, code': Code, l: int, q: seq<nat>, last: int)
    requires Relinked(code, code', Members(q)) && List(code', l, q) && Targets(code, last)
    ensures Targets(code', last)
  {
    forall j: nat | j < |code'| && code'[j].Jmp? && code'[j] != code[j]
      ensures j + 1 + code'[j].sbx < |code'|
    {
      MembersIn(q, j);
      var i :| 0 <= i < |q| && q[i] == j;
      assert Link(code', q[i]) == NextIn(q, i);
      if i + 1 < |q| { assert q[i + 1] < |code'|; }
    }
    assert forall j: nat :: j < |code| && code[j].TMode() ==> code'[j].TMode();
  }

  /** Tests have changed, or instructions that lead on. */
  lemma SameTargets(code: Code, code': Code, last: int)
    requires Targets(code, last) && |code'| == |code|
    requires forall j: nat :: j < |code| ==> code'[j] == code[j] || (code[j].TMode() && code'[j].TMode()) || (Onwards(code[j]) && Onwards(code'[j]) && !code'[j].LoadBool?)
    ensures Targets(code', last)
  {
    forall j: nat | j + 1 < |code'| && code'[j].TMode()
      ensures code'[j + 1].Jmp?
    {
      assert code[j].TMode() && code[j + 1].Jmp?;
    }
  }

  lemma UnsetTargets(code: Code, s: set<nat>, last: int)
    requires Targets(code, last)
    ensures Targets(Unset(code, s), last)
  {
    SameTargets(code, Unset(code, s), last);
  }

  lemma InvertTargets(c: Code, j: nat, last: int)
    requires Targets(c, last) && 1 <= j < |c| && c[j - 1].Cmp?
    ensures Targets(c[j - 1 := Inverted(c[j - 1])], last)
  {
    SameTargets(c, c[j - 1 := Inverted(c[j - 1])], last);
  }

  lemma TargetsMore(code: Code, last: int, last': int)
    requires Targets(code, last) && last <= last'
    ensures Targets(code, last')
  {
  }

  lemma RelinkedLength(code: Code, code': Code, s: set<nat>)
    requires Relinked(code, code', s)
    ensures |code'| == |code|
  {
  }

  lemma UnsetLength(code: Code, s: set<nat>)
    ensures |Unset(code, s)| == |code|
  {
  }

  lemma EmitLonger(code: Code, here: set<nat>, i: Instr)
    ensures |Emit(code, here, i)| == |code| + 1
  {
  }

  lemma TestLonger(code: Code, here: set<nat>, i: Instr)
    ensures |TestCode(code, here, i)| == |code| + 2
  {
  }

  /** The jump over the loads leads back along its list. */
  lemma JumpTarget(c: Code, link: int, list: int, q: seq<nat>)
    requires List(c + [Jmp(link)], list, q) && q != [] && q[0] == |c|
    ensures |c| + 1 + link <= |c|
  {
    assert Link(c + [Jmp(link)], q[0]) == NextIn(q, 0);
    if |q| > 1 { assert q[1] < |c| + 1; }
  }

  lemma LoadsLonger(c: Code, link: int, reg: nat)
    requires |c| + 1 + link <= |c|
    ensures var w := WithLoads(c + [Jmp(link)], reg);
            && |w| == |c| + 3 && w[..|c|] == c
            && forall j: nat :: |c| <= j < |w| ==> if w[j].Jmp? then j + 1 + w[j].sbx <= |w| else w[j].LoadBool? && (w[j].skip ==> j + 2 <= |w|)
  {
  }

  lemma LoadsOnly(c: Code, reg: nat)
    ensures var w := WithLoads(c, reg);
            && |w| == |c| + 2 && w[..|c|] == c
            && forall j: nat :: |c| <= j < |w| ==> if w[j].Jmp? then j + 1 + w[j].sbx <= |w| else w[j].LoadBool? && (w[j].skip ==> j + 2 <= |w|)
  {
  }

  /** The jump of a comparison is open like those of the lists. */
  lemma ComparisonLists(c: Code, k: seq<Value>, i: nat, t: set<nat>, f: set<nat>, g: Goal)
    requires Computed(c, {}, k, VJmp(i), t, f, g)
    ensures AllOpen(c, t + {i}) && AllOpen(c, f) && t + {i} !! f
  {
    ComputedShape(c, {}, k, VJmp(i), t, f, g);
  }

  /** The exits lead to the end, which has been marked as a target, or to the loads. */
  lemma FinishTargets(c: Code, w: Code, t: set<nat>, f: set<nat>, reg: nat, pf: int, pt: int, last: int)
    requires Targets(c, last) && last <= |c| <= |w| && w[..|c|] == c && Complete(c) && AllOpen(c, t) && AllOpen(c, f) && t !! f && pf < |w| && pt < |w|
    requires forall j: nat :: |c| <= j < |w| ==> if w[j].Jmp? then j + 1 + w[j].sbx <= |w| else w[j].LoadBool? && (w[j].skip ==> j + 2 <= |w|)
    ensures Targets(PatchBoth(w, t, f, reg, pf, pt), |w|)
  {
    var c' := PatchBoth(w, t, f, reg, pf, pt);
    PatchBothAt(c, w, t, f, reg, pf, pt);
    forall j: nat | j < |c|
      ensures c'[j].Jmp? ==> j + 1 + c'[j].sbx <= |w|
      ensures c'[j].LoadBool? ==> c'[j].skip ==> j + 2 <= |w|
      ensures c'[j].TMode() ==> j + 1 < |c| && c'[j + 1].Jmp?
    {
      assert ResolvedAt(c, t, f, c', reg, pf, pt, j);
      if j in t || j in f { assert Open(c, j); }
      if j + 1 < |c| {
        assert ResolvedAt(c, t, f, c', reg, pf, pt, j + 1);
      }
    }
  }

  lemma EmittedNot(code: Code, here: set<nat>, b: nat, s: set<nat>)
    ensures |Unset(Emit(code, here, Not(0, b)), s)| == |code| + 1 && Unset(Emit(code, here, Not(0, b)), s)[|code|] == Not(0, b)
  {
  }

  lemma IndexUnique(k: seq<Value>, v: Value, i: nat)
    requires i < |k| && k[i] == v && v !in k[..i]
    ensures v in k && IndexOf(k, v) == i
  {
    assert forall j: nat :: j < i ==> k[..i][j] == k[j];
  }

  /** The form of a constant or a variable. */
  lemma SimpleForm(x: Expr, d: Kind, code: Code, k0: seq<Value>, k: seq<Value>, f0: nat)
    requires match d
             case VNil => x == Expr.Constant(Nil)
             case VTrue => x == Expr.Constant(Bool(true))
             case VFalse => x == Expr.Constant(Bool(false))
             case VK(i) => x.Constant? && x.v.Str? && x.v in k && i == IndexOf(k, x.v)
             case VKNum(n) => x == Expr.Constant(Num(n))
             case VLocal(i) => x == Local(i)
             case VUpval(i) => x == Upvalue(i)
             case _ => false
    requires k == if d.VK? then Add(k0, x.v) else k0
    ensures Kinds(d, code, k, x, f0) && k == KAfter(x, k0) && !HasList(x, true) && !HasList(x, false)
  {
  }

  lemma KindsTail(d: Kind, code: Code, k: seq<Value>, x: Expr, f0: nat)
    requires Kinds(d, code, k, x, f0)
    ensures d.Const() <==> Tail(x).Some?
    ensures d.Const() ==> Constantly(x, !d.VNil? && !d.VFalse?)
  {
  }

  /** The kind of a negation. */
  lemma NotKinds(a: Expr, d0: Kind, code0: Code, d: Kind, code: Code, k: seq<Value>, f0: nat)
    requires Kinds(d0, code0, k, a, f0)
    requires if d0.Const() then d == Truth(d0.VNil? || d0.VFalse?) else d.VJmp? || (d.VRelocable? && d.i < |code| && code[d.i].Not?)
    ensures Kinds(d, code, k, NotExp(a), f0)
  {
  }

  /** The form of a negation. */
  lemma NotForm(a: Expr, k: seq<Value>)
    ensures var x := NotExp(a);
            && Tail(x) == (if Tail(a).Some? then Some(Bool(!Truthy(Tail(a).value))) else None)
            && !LocalTail(x) && (BoolTail(x) <==> Tail(a).None?)
            && HasList(x, true) == HasList(a, false) && HasList(x, false) == HasList(a, true) && KAfter(x, k) == KAfter(a, k)
  {
  }

  /** The form of `and` and `or`. */
  lemma SecondForm(a: Expr, b: Expr, k: seq<Value>, want: bool)
    ensures var x := if want then And(a, b) else Or(a, b);
            && KAfter(x, k) == KAfter(b, KTested(a, k, want))
            && HasList(x, want) == HasList(b, want)
            && HasList(x, !want) == (HasList(b, !want) || HasList(a, !want) || !Constantly(a, want))
  {
  }

  lemma SecondKinds(d: Kind, code: Code, k: seq<Value>, a: Expr, b: Expr, f0: nat, want: bool)
    requires Kinds(d, code, k, b, f0)
    ensures Kinds(d, code, k, if want then And(a, b) else Or(a, b), f0)
  {
  }

  /** The form of a comparison. */
  lemma RelationForm(op: BinOp, a: Expr, b: Expr, k: seq<Value>)
    ensures var x := Relation(op, a, b); !HasList(x, true) && !HasList(x, false) && KAfter(x, k) == KOperand(b, KOperand(a, k))
  {
  }

  lemma RelationKinds(d: Kind, code: Code, k: seq<Value>, op: BinOp, a: Expr, b: Expr, f0: nat)
    requires d.VJmp?
    ensures Kinds(d, code, k, Relation(op, a, b), f0)
  {
  }

  lemma KGrows(x: Expr, k: seq<Value>)
    ensures k <= KAfter(x, k)
  {
  }

  lemma RelinkedKinds(c: Code, c': Code, s: set<nat>, d: Kind, k: seq<Value>, x: Expr, f0: nat)
    requires Relinked(c, c', s) && Kinds(d, c, k, x, f0)
    ensures Kinds(d, c', k, x, f0)
  {
  }

  /** Code that follows: however the code of x is entered, the run comes to what
      follows with the value of the course in its register, and with all registers
      below as they were. */
  lemma InContext(code: Code, here: set<nat>, k: seq<Value>, reg: nat, quiet: bool, g: Goal, code': Code, m: Machine, e: Option<nat>, r: Regs)
    requires Operand(code, here, k, reg, quiet, g) && Lands(code, here, code') && Fits(m, k) && |r| == NO_REG && reg < BITRK && Starts(g, e, r)
    ensures exists s :: Same(r, s, g.f0) && Reg(s, reg) == Final(Course(m, g.k0, g.x, r, EntryValue(g.c0, e, r)))
                        && Enter(m, code', {}, e, |g.c0|, r) == Exec(m, code', {}, |code|, s)
  {
    hide Enter, Course, Lands, Grown;
    var none: set<nat> := {};
    assert none + here == here && none + none == none;
    GrownBasics(g.c0, g.h0, code, here);
    assert OperandAt(m, code, here, reg, quiet, g, e, r, Course(m, g.k0, g.x, r, EntryValue(g.c0, e, r)));
    EnterPending(m, code, here, e, |g.c0|, r);
    EnterLands(m, code, {}, here, code', {}, e, |g.c0|, r);
    var s := Enter(m, code, here, e, |g.c0|, r).r;
    assert Same(r, s, g.f0);
  }

  /** The value is that of section 2.5.3 if and only if no deciding constant has caught
      another one, provided that no comparison was misled in that way. */
  lemma RightInContext(code: Code, here: set<nat>, k: seq<Value>, reg: nat, quiet: bool, g: Goal, code': Code, m: Machine, r: Regs)
    requires Operand(code, here, k, reg, quiet, g) && Lands(code, here, code') && Fits(m, k) && |r| == NO_REG && reg < BITRK
    requires Clear(m, g.k0, g.x, r, None) && Starts(g, None, r)
    ensures exists s :: Same(r, s, g.f0) && Exec(m, code', {}, |g.c0|, r) == Exec(m, code', {}, |code|, s)
                        && (Reg(s, reg) == Eval(m, g.x, r) <==> Harmless(Caught(m, g.k0, g.x, r, None)))
  {
    InContext(code, here, k, reg, quiet, g, code', m, None, r);
    Exact(m, g.k0, g.x, r, None);
  }

  class FuncState {
    var code: Code
    var jpc: int
    var freereg: nat
    var nactvar: nat
    var k: seq<Value>
    /** The last place that has been marked as a target of jumps. */
    var lasttarget: int
    /** The jumps of the list jpc. */
    ghost var jl: seq<nat>

    ghost function Here(): set<nat>
      reads this
    {
      Members(jl)
    }

    /** jpc lists the jumps that lead to the next instruction. */
    ghost predicate Valid()
      reads this
    {
      && List(code, jpc, jl) && AllOpen(code, Here()) && Complete(code) && nactvar <= freereg
      && Targets(code, lasttarget) && lasttarget <= |code| && (jl != [] ==> lasttarget == |code|)
    }

    // ------------------------------------------------------------------ jump lists

    method FixJump(pc: nat, dest: int)
      requires pc < |code|
      modifies this`code
      ensures code == old(code)[pc := Jmp(dest - (pc + 1))]
    {
      code := code[pc := Jmp(dest - (pc + 1))];
    }

    /** patchtestreg: a TESTSET gets its register, or only tests. */
    method PatchTestReg(j: nat, reg: nat) returns (ok: bool)
      requires j < |code| && code[j].Jmp?
      modifies this`code
      ensures ok == TakesValue(old(code), j)
      ensures code == if ok then old(code)[j - 1 := Retarget(old(code)[j - 1], reg)] else old(code)
    {
      var i := Control(code, j);
      if !code[i].TestSet? {
        return false;
      }
      code := code[i := Retarget(code[i], reg)];
      ok := true;
    }

    /** need_value: some jump of the list does not produce a value. */
    method NeedValue(list0: int, ghost q: seq<nat>) returns (need: bool)
      requires List(code, list0, q)
      ensures need == NeedsValue(code, Members(q))
    {
      hide List, Members, NeedsValue, Link;
      var list := list0;
      ghost var i := 0;
      ListHead(code, list0, q);
      NeedNone(code);
      while list != NO_JUMP
        invariant i <= |q| && list == (if i < |q| then q[i] else NO_JUMP)
        invariant !NeedsValue(code, Members(q[..i]))
        decreases |q| - i
      {
        ListNext(code, list0, q, i);
        NeedOne(code, Members(q[..i]), q[i]);
        if !code[Control(code, list)].TestSet? {
          PrefixIn(q, i + 1);
          NeedMore(code, Members(q[..i + 1]), Members(q));
          return true;
        }
        list := Link(code, list);
        i := i + 1;
      }
      assert q[..i] == q;
      need := false;
    }

    /** removevalues: no jump of the list produces its operand any more. */
    method RemoveValues(list0: int, ghost q: seq<nat>)
      requires List(code, list0, q)
      modifies this`code
      ensures code == Unset(old(code), Members(q))
    {
      ghost var c := code;
      var list := list0;
      ghost var i := 0;
      PatchNone(c, 0, NO_REG, 0);
      MembersNone();
      ListIn(c, list0, q);
      while list != NO_JUMP
        invariant i <= |q| && list == (if i < |q| then q[i] else NO_JUMP)
        invariant code == Unset(c, Members(q[..i]))
        decreases |q| - i
      {
        MembersPrefix(q, i);
        MembersIn(q, q[i]);
        PrefixIn(q, i);
        UnsetOne(c, Members(q[..i]), q[i]);
        var next := Link(code, list);
        var ok := PatchTestReg(list, NO_REG);
        list := next;
        i := i + 1;
      }
      assert q[..i] == q;
    }

    /** One jump of a list gets its target. */
    method PatchJump(j: nat, vtarget: int, reg: nat, dtarget: int)
      requires j < |code| && code[j].Jmp?
      modifies this`code
      ensures var v := TakesValue(old(code), j);
              code == (if v then old(code)[j - 1 := Retarget(old(code)[j - 1], reg)] else old(code))[j := Jmp((if v then vtarget else dtarget) - (j + 1))]
    {
      var ok := PatchTestReg(j, reg);
      if ok {
        FixJump(j, vtarget);
      } else {
        FixJump(j, dtarget);
      }
    }

    /** patchlistaux: every jump of the list gets its target, in the order of the
        list and each one once. */
    method PatchListAux(list0: int, ghost q: seq<nat>, vtarget: int, reg: nat, dtarget: int)
      requires List(code, list0, q)
      modifies this`code
      ensures code == Patched(old(code), Members(q), vtarget, reg, dtarget)
    {
      hide Patched, List, Members, Retarget;
      ghost var c := code;
      var list := list0;
      ghost var i := 0;
      PatchNone(c, vtarget, reg, dtarget);
      MembersNone();
      ListHead(c, list0, q);
      while list != NO_JUMP
        invariant i <= |q| && list == (if i < |q| then q[i] else NO_JUMP)
        invariant code == Patched(c, Members(q[..i]), vtarget, reg, dtarget)
        decreases |q| - i
      {
        ListNext(c, list0, q, i);
        PatchOne(c, Members(q[..i]), vtarget, reg, dtarget, q[i]);
        var next := Link(code, list);
        PatchJump(list, vtarget, reg, dtarget);
        list := next;
        i := i + 1;
      }
      assert q[..i] == q;
    }

    /** luaK_concat: the second list behind the first.  Only the link of the first
        one's last jump changes. */
    method Concat(l1: int, ghost p: seq<nat>, l2: int, ghost q: seq<nat>) returns (l: int)
      requires List(code, l1, p) && List(code, l2, q) && Members(p) !! Members(q)
      modifies this`code
      ensures List(code, l, p + q) && Relinked(old(code), code, Members(p))
      ensures l1 == NO_JUMP || l2 == NO_JUMP ==> code == old(code)
      ensures forall last :: Targets(old(code), last) ==> Targets(code, last)
    {
      hide Targets;
      ListIn(code, l1, p);
      if l2 == NO_JUMP {
        assert p + q == p;
        return l1;
      } else if l1 == NO_JUMP {
        assert p + q == q;
        return l2;
      }
      var list: int := l1;
      ghost var i := 0;
      var next := Link(code, list);
      while next != NO_JUMP
        invariant 0 <= i < |p| && list == p[i] && list < |code| && code[list].Jmp? && next == NextIn(p, i) && code == old(code)
        decreases |p| - i
      {
        list := next;
        i := i + 1;
        next := Link(code, list);
      }
      forall x | x in p
        ensures x !in q
      {
        MembersIn(p, x);
        MembersIn(q, x);
      }
      Joined(code, l1, p, l2, q);
      MembersIn(p, p[i]);
      FixJump(list, l2);
      l := l1;
      ConcatTargets(old(code), code, l, p, q);
    }

    // ------------------------------------------------------------------- emission

    /** luaK_code: the jumps that wait for the next instruction get their target. */
    method Emit1(i: Instr) returns (pc: nat)
      requires List(code, jpc, jl)
      modifies this`code, this`jpc, this`jl
      ensures code == Emit(old(code), old(Here()), i) && pc == |old(code)|
      ensures jpc == NO_JUMP && jl == [] && Here() == {}
    {
      PatchListAux(jpc, jl, |code|, NO_REG, |code|);
      jpc, jl := NO_JUMP, [];
      MembersNone();
      code := code + [i];
      pc := |code| - 1;
    }

    /** luaK_jump: an unconditional jump; whatever was to lead to it is kept on
        hold in its list. */
    method JumpOn() returns (j: int, ghost q: seq<nat>, ghost link: int)
      requires List(code, jpc, jl)
      modifies this`code, this`jpc, this`jl
      ensures jpc == NO_JUMP && jl == [] && Here() == {}
      ensures q == [|old(code)|] + old(jl) && List(code, j, q)
      ensures code == old(code) + [Jmp(link)]
    {
      hide List, Members, Patched, Relinked;
      var held := jpc;
      ghost var hl, c := jl, code;
      jpc, jl := NO_JUMP, [];
      ListEmpty(code);
      PatchNone(code, |code|, NO_REG, |code|);
      var pc := Emit1(Jmp(NO_JUMP));
      assert code == c + [Jmp(NO_JUMP)];
      OnHold(c, held, hl);
      j := Concat(pc, [pc], held, hl);
      RelinkedOne(c, code);
      q := [pc] + hl;
      link := code[pc].sbx;
    }

    /** condjump: a test and its jump. */
    method CondJump(i: Instr) returns (j: nat)
      requires List(code, jpc, jl)
      modifies this`code, this`jpc, this`jl
      ensures code == TestCode(old(code), old(Here()), i) && j == |old(code)| + 1
      ensures jpc == NO_JUMP && jl == [] && Here() == {} && List(code, j, [j])
    {
      var pc := Emit1(i);
      PatchNone(code, |code|, NO_REG, |code|);
      pc := Emit1(Jmp(NO_JUMP));
      j := pc;
    }

    /** luaK_getlabel. */
    method GetLabel() returns (pc: nat)
      modifies this`lasttarget
      ensures lasttarget == pc == |code|
    {
      lasttarget := |code|;
      pc := |code|;
    }

    /** luaK_patchtohere: the list is to lead to the next instruction. */
    method PatchToHere(list: int, ghost q: seq<nat>)
      requires List(code, jpc, jl) && List(code, list, q) && Here() !! Members(q)
      modifies this`code, this`jpc, this`jl, this`lasttarget
      ensures lasttarget == |code| && forall last :: Targets(old(code), last) ==> Targets(code, last)
      ensures List(code, jpc, jl) && jl == old(jl) + q && Here() == old(Here()) + Members(q)
      ensures Relinked(old(code), code, old(Here())) && (old(jpc) == NO_JUMP ==> code == old(code))
    {
      hide Targets;
      var pc := GetLabel();
      jpc := Concat(jpc, jl, list, q);
      MembersConcat(jl, q);
      jl := jl + q;
    }

    // ------------------------------------------------------------------ constants

    /** addk: a constant that is there already is used again. */
    method AddK(v: Value) returns (i: nat)
      modifies this`k
      ensures k == Add(old(k), v) && i == IndexOf(k, v)
    {
      i := 0;
      while i < |k|
        invariant i <= |k| && v !in k[..i]
      {
        if k[i] == v {
          IndexUnique(k, v, i);
          return;
        }
        i := i + 1;
      }
      assert k[..i] == k;
      k := k + [v];
      IndexUnique(k, v, i);
    }

    // ---------------------------------------------------------------- expressions

    /** The state of an unfinished expression: its lists, and code that computes
        it.  A value in a register is in a local variable or in the first free
        register. */
    ghost predicate Has(e: ExpDesc, t: seq<nat>, f: seq<nat>, g: Goal)
      reads this
    {
      && Valid() && List(code, e.t, t) && List(code, e.f, f) && Based(g, code, lasttarget, nactvar)
      && Computed(code, Here(), k, e.k, Members(t), Members(f), Real(g, code))
      && nactvar <= g.f0 && g.f0 + 1 < MAXSTACK
      && (e.k.VNonreloc? ==> e.k.i < nactvar || e.k.i == g.f0)
      && (e.k.VLocal? ==> e.k.i < nactvar)
    }

    /** The same, for an expression whose operator is still to come: its kind and the
        constants are those of its form, and so is whether a list is empty. */
    ghost predicate Offers(e: ExpDesc, t: seq<nat>, f: seq<nat>, g: Goal)
      reads this
    {
      && Has(e, t, f, g) && g.aim == Unfinished && Kinds(e.k, code, k, g.x, g.f0)
      && k == KAfter(g.x, g.k0)
      && (t == [] <==> !HasList(g.x, true)) && (f == [] <==> !HasList(g.x, false))
    }

    /** The register that the value occupies is taken, and no other. */
    predicate Takes(d: Kind, f0: nat)
      reads this`freereg, this`nactvar
    {
      freereg == if d.VNonreloc? && d.i >= nactvar then f0 + 1 else f0
    }

    /** luaK_dischargevars: a variable becomes a value. */
    method DischargeVars(e: ExpDesc, ghost t: seq<nat>, ghost f: seq<nat>, ghost g: Goal) returns (e': ExpDesc)
      requires Has(e, t, f, g)
      modifies this`code, this`jpc, this`jl
      ensures Has(e', t, f, g) && e'.t == e.t && e'.f == e.f
      ensures !e.k.VUpval? ==> code == old(code) && jl == old(jl) && jpc == old(jpc)
      ensures e'.k == match e.k
                      case VLocal(i) => VNonreloc(i)
                      case VUpval(_) => VRelocable(|old(code)|)
                      case _ => e.k
      ensures e.k.VUpval? ==> |old(code)| < |code| && code[|old(code)|].GetUpval?
    {
      hide Computed, AllOpen, Complete, Patched, List, Members, Targets, Wide, Widens;
      ghost var h, gr, c := Here(), Real(g, code), code;
      ComputedShape(code, h, k, e.k, Members(t), Members(f), gr);
      match e.k {
        case VLocal(i) =>
          LocalComputed(code, h, k, i, Members(t), Members(f), gr);
          e' := e.(k := VNonreloc(i));
        case VUpval(u) =>
          DelayComputed(code, h, k, u, Members(t), Members(f), gr);
          EmitKeepsList(code, h, GetUpval(0, u), e.t, t);
          EmitKeepsList(code, h, GetUpval(0, u), e.f, f);
          EmitTargets(code, h, GetUpval(0, u), lasttarget);
          var pc := Emit1(GetUpval(0, u));
          ListEmpty(code);
          e' := e.(k := VRelocable(pc));
          ComputedKeeps(g, c, code, Here(), k, e'.k, Members(t), Members(f), lasttarget, lasttarget, nactvar);
          ComputedShape(code, Here(), k, e'.k, Members(t), Members(f), gr);
        case _ =>
          e' := e;
      }
    }

    /** The load of a value that is not in a register yet, or in another one. */
    method EmitLoad(e: ExpDesc, i: Instr, ghost t: seq<nat>, ghost f: seq<nat>, ghost g: Goal) returns (e': ExpDesc)
      requires Has(e, t, f, g) && Plain(i) && i.a == g.f0 && Loads(k, i, code, e.k) && !e.k.VJmp? && !e.k.VRelocable?
      modifies this`code, this`jpc, this`jl
      ensures Has(e', t, f, g) && e' == e.(k := VNonreloc(g.f0))
    {
      hide Computed, AllOpen, Emit, Complete, Loads, List, Members, Targets, Wide, Widens;
      ghost var h, gr, c := Here(), Real(g, code), code;
      ComputedShape(code, h, k, e.k, Members(t), Members(f), gr);
      LoadComputed(code, h, k, e.k, Members(t), Members(f), gr, i);
      EmitKeepsList(code, h, i, e.t, t);
      EmitKeepsList(code, h, i, e.f, f);
      EmitTargets(code, h, i, lasttarget);
      EmitLonger(code, h, i);
      var pc := Emit1(i);
      ListEmpty(code);
      e' := e.(k := VNonreloc(i.a));
      ComputedKeeps(g, c, code, Here(), k, e'.k, Members(t), Members(f), lasttarget, lasttarget, nactvar);
      ComputedShape(code, Here(), k, e'.k, Members(t), Members(f), gr);
    }

    /** luaK_nil for one register.  At the start of a function registers without a
        variable are nil already; behind another LOADNIL that one may get wider; but
        neither where jumps lead to. */
    method NilToReg(e: ExpDesc, ghost t: seq<nat>, ghost f: seq<nat>, ghost g: Goal, reg: nat) returns (e': ExpDesc)
      requires Has(e, t, f, g) && e.k.VNil? && reg == g.f0
      modifies this`code, this`jpc, this`jl
      ensures Has(e', t, f, g) && e' == e.(k := VNonreloc(reg))
    {
      hide Computed, AllOpen, Complete, Loads, List, Members, Targets, Wide, Widens, Based;
      if |code| > lasttarget {
        if |code| == 0 {
          if reg >= nactvar {
            e' := e.(k := VNonreloc(reg));
            MergeNil(code, code, Here(), k, Members(t), Members(f), g, lasttarget, nactvar, reg);
            return;
          }
        } else {
          var previous := code[|code| - 1];
          if previous.LoadNil? && previous.a <= reg <= previous.b + 1 {
            ghost var c := code;
            if reg > previous.b {
              code := code[|code| - 1 := LoadNil(previous.a, reg)];
            }
            MergeNil(c, code, Here(), k, Members(t), Members(f), g, lasttarget, nactvar, reg);
            MergeKeeps(c, code, e.t, t, e.f, f, lasttarget);
            HeadNone(c, jpc, jl);
            ListEmpty(code);
            ComputedShape(code, Here(), k, VNonreloc(reg), Members(t), Members(f), Real(g, code));
            e' := e.(k := VNonreloc(reg));
            return;
          }
        }
      }
      LoadsConstant(k, code, e.k, LoadNil(reg, reg));
      e' := EmitLoad(e, LoadNil(reg, reg), t, f, g);
    }

    /** discharge2reg: the value goes to the first free register; a comparison has
        none yet. */
    method Discharge2Reg(e0: ExpDesc, ghost t: seq<nat>, ghost f: seq<nat>, ghost g: Goal, reg: nat) returns (e': ExpDesc)
      requires Has(e0, t, f, g) && reg == g.f0
      modifies this`code, this`jpc, this`jl, this`k
      ensures Has(e', t, f, g) && k == Numbered(e0.k, old(k)) && e'.t == e0.t && e'.f == e0.f
      ensures e'.k == if e0.k.VJmp? then e0.k else VNonreloc(reg)
    {
      hide Computed, AllOpen, Complete, Loads, List, Members, Targets, Based;
      var e := DischargeVars(e0, t, f, g);
      match e.k {
        case VNil =>
          e' := NilToReg(e, t, f, g, reg);
        case VTrue =>
          LoadsConstant(k, code, e.k, LoadBool(reg, true, false));
          e' := EmitLoad(e, LoadBool(reg, true, false), t, f, g);
        case VFalse =>
          LoadsConstant(k, code, e.k, LoadBool(reg, false, false));
          e' := EmitLoad(e, LoadBool(reg, false, false), t, f, g);
        case VK(i) =>
          ComputedShape(code, Here(), k, e.k, Members(t), Members(f), Real(g, code));
          LoadsConstant(k, code, e.k, LoadK(reg, i));
          e' := EmitLoad(e, LoadK(reg, i), t, f, g);
        case VKNum(n) =>
          ghost var k0 := k;
          var i := AddK(Num(n));
          MoreConstants(code, Here(), k0, k, e.k, Members(t), Members(f), Real(g, code));
          LoadsConstant(k, code, e.k, LoadK(reg, i));
          e' := EmitLoad(e, LoadK(reg, i), t, f, g);
        case VRelocable(i) =>
          e' := Settle(e, t, f, g, reg);
        case VNonreloc(i) =>
          if i != reg {
            LoadsConstant(k, code, e.k, Move(reg, i));
            e' := EmitLoad(e, Move(reg, i), t, f, g);
          } else {
            e' := e;
          }
        case _ =>
          e' := e;
      }
    }

    /** The instruction that waits gets its register. */
    method Settle(e: ExpDesc, ghost t: seq<nat>, ghost f: seq<nat>, ghost g: Goal, reg: nat) returns (e': ExpDesc)
      requires Has(e, t, f, g) && reg == g.f0 && e.k.VRelocable?
      modifies this`code
      ensures Has(e', t, f, g) && e' == e.(k := VNonreloc(reg))
    {
      hide Computed, AllOpen, Complete, Targets, Wide, Widens;
      ghost var gr, was := Real(g, code), code;
      ComputedShape(code, Here(), k, e.k, Members(t), Members(f), gr);
      SettleComputed(code, k, e.k.i, Members(t), Members(f), gr, reg);
      var c := code[e.k.i := WithA(code[e.k.i], reg)];
      ListKept(code, c, e.t, t);
      ListKept(code, c, e.f, f);
      HereNone(jl);
      HeadNone(code, jpc, jl);
      ListEmpty(c);
      SameTargets(code, c, lasttarget);
      code := c;
      e' := e.(k := VNonreloc(reg));
      ComputedKeeps(g, was, code, Here(), k, e'.k, Members(t), Members(f), lasttarget, lasttarget, nactvar);
      ComputedShape(code, Here(), k, e'.k, Members(t), Members(f), gr);
    }

    // -------------------------------------------------------- one final register

    /** The loads of false and true, each of them marked as a target. */
    method LoadBooleans(reg: nat) returns (pf: nat, pt: nat)
      requires List(code, jpc, jl) && jl == []
      modifies this`code, this`jpc, this`jl, this`lasttarget
      ensures code == WithLoads(old(code), reg) && pf == |old(code)| && pt == |old(code)| + 1 && jpc == NO_JUMP && jl == []
    {
      MembersNone();
      PatchNone(code, |code|, NO_REG, |code|);
      var label0 := GetLabel();
      pf := Emit1(LoadBool(reg, false, true));
      PatchNone(code, |code|, NO_REG, |code|);
      label0 := GetLabel();
      pt := Emit1(LoadBool(reg, true, false));
    }

    /** Both lists lead to the end of the code, which is marked as a target. */
    method PatchExits(tl: int, ghost t: seq<nat>, fl: int, ghost f: seq<nat>, reg: nat, pf: int, pt: int)
      requires List(code, tl, t) && List(code, fl, f) && Members(t) !! Members(f)
      requires List(code, jpc, jl) && Members(t) !! Here() && Members(f) !! Here()
      modifies this`code, this`lasttarget
      ensures code == PatchBoth(old(code), Members(t), Members(f), reg, pf, pt) && List(code, jpc, jl) && lasttarget == |code| == |old(code)|
    {
      hide List, Members, Patched;
      var last := GetLabel();
      PatchBothKeepsList(code, Members(t), Members(f), reg, pf, pt, jpc, jl);
      PatchKeepsList(code, Members(f), last, reg, pf, tl, t);
      PatchListAux(fl, f, last, reg, pf);
      PatchListAux(tl, t, last, reg, pt);
    }

    /** The two searches of need_value. */
    method NeedsLoads(tl: int, ghost t: seq<nat>, fl: int, ghost f: seq<nat>) returns (need: bool)
      requires List(code, tl, t) && List(code, fl, f)
      ensures need == (NeedsValue(code, Members(t)) || NeedsValue(code, Members(f)))
    {
      hide List, Members, NeedsValue;
      need := NeedValue(tl, t);
      if !need {
        need := NeedValue(fl, f);
      }
    }

    /** exp2reg when the value is already in reg. */
    method FinishValue(e: ExpDesc, ghost t: seq<nat>, ghost f: seq<nat>, ghost g: Goal, reg: nat)
      requires Has(e, t, f, g) && g.aim == Unfinished && e.k == VNonreloc(reg) && reg == g.f0 && HasJumps(e)
      modifies this`code, this`jpc, this`jl, this`lasttarget
      ensures Has(ExpDesc(VNonreloc(reg), NO_JUMP, NO_JUMP), [], [], g.(aim := Finished))
      ensures lasttarget >= old(lasttarget)
    {
      hide Computed, AllOpen, Complete, List, Members, NeedsValue, PatchBoth, WithLoads, Targets, Wide, Widens, Based;
      ghost var c, h, hl, gr, last := code, Here(), jl, Real(g, code), lasttarget;
      ComputedShape(c, h, k, e.k, Members(t), Members(f), gr);
      ListJumps(c, e, t, f);
      var need := NeedsLoads(e.t, t, e.f, f);
      if need {
        var fj; ghost var q, link;
        fj, q, link := JumpOn();
        FinishLoads(c, h, k, Members(t), Members(f), gr, reg, link);
        HoldApart(c, e, t, f, hl);
        ListLonger(c, [Jmp(link)], e.t, t);
        ListLonger(c, [Jmp(link)], e.f, f);
        LoadsKeep(code, reg, e.t, t);
        LoadsKeep(code, reg, e.f, f);
        LoadsKeep(code, reg, fj, q);
        JumpTarget(c, link, fj, q);
        ListEmpty(code);
        var pf, pt := LoadBooleans(reg);
        ListEmpty(code);
        PatchToHere(fj, q);
        assert Here() == h + {|c|};
        FinishTargets(c, code, Members(t), Members(f), reg, pf, pt, last) by { LoadsLonger(c, link, reg); }
        PatchExits(e.t, t, e.f, f, reg, pf, pt);
      } else {
        FinishPlainly(c, h, k, Members(t), Members(f), gr, reg);
        FinishTargets(c, c, Members(t), Members(f), reg, NO_JUMP, NO_JUMP, last);
        PatchExits(e.t, t, e.f, f, reg, NO_JUMP, NO_JUMP);
      }
      ListEmpty(code);
      FinishedKeeps(g, c, code, Here(), k, VNonreloc(reg), last, lasttarget, nactvar);
      ComputedShape(code, Here(), k, VNonreloc(reg), {}, {}, gr.(aim := Finished));
    }

    /** exp2reg on a comparison: its jump joins the list of true. */
    method FinishCompare(e: ExpDesc, ghost t: seq<nat>, ghost f: seq<nat>, ghost g: Goal, reg: nat)
      requires Has(e, t, f, g) && g.aim == Unfinished && e.k.VJmp? && reg == g.f0 && BoolTail(g.x)
      modifies this`code, this`jpc, this`jl, this`lasttarget
      ensures Has(ExpDesc(VNonreloc(reg), NO_JUMP, NO_JUMP), [], [], g.(aim := Finished))
      ensures lasttarget >= old(lasttarget)
    {
      hide Computed, AllOpen, Complete, List, Members, NeedsValue, PatchBoth, WithLoads, Relinked, BoolTail, Targets, Wide, Widens, Based;
      ghost var c, gr, last := code, Real(g, code), lasttarget;
      var i := e.k.i;
      ComputedShape(c, Here(), k, e.k, Members(t), Members(f), gr);
      ListOne(c, i);
      var tl := Concat(e.t, t, i, [i]);
      MembersConcat(t, [i]);
      ghost var q := t + [i];
      RelinkComputed(c, code, Members(t), Here(), k, e.k, Members(t), Members(f), gr);
      RelinkedList(c, code, Members(t), e.f, f);
      ComputedShape(code, Here(), k, e.k, Members(t), Members(f), gr);
      var need := NeedsLoads(tl, q, e.f, f);
      NeedsSplit(code, Members(t), i);
      FinishComparison(code, k, i, Members(t), Members(f), gr, reg);
      LoadsKeep(code, reg, tl, q);
      LoadsKeep(code, reg, e.f, f);
      HereNone(jl);
      HeadNone(c, jpc, jl);
      ListEmpty(code);
      ghost var c1 := code;
      ComparisonLists(c1, k, i, Members(t), Members(f), gr);
      RelinkedLength(c, c1, Members(t));
      var pf, pt := LoadBooleans(reg);
      ListEmpty(code);
      LoadsOnly(c1, reg);
      FinishTargets(c1, code, Members(q), Members(f), reg, pf, pt, last);
      PatchExits(tl, q, e.f, f, reg, pf, pt);
      ListEmpty(code);
      FinishedKeeps(g, c, code, Here(), k, VNonreloc(reg), last, lasttarget, nactvar);
      ComputedShape(code, Here(), k, VNonreloc(reg), {}, {}, gr.(aim := Finished));
    }

    /** exp2reg: the value, whichever way it leaves its code, in one register. */
    method Exp2Reg(e0: ExpDesc, ghost t: seq<nat>, ghost f: seq<nat>, ghost g: Goal, reg: nat) returns (e': ExpDesc)
      requires Has(e0, t, f, g) && g.aim == Unfinished && reg == g.f0 && (e0.k.VJmp? ==> BoolTail(g.x))
      modifies this`code, this`jpc, this`jl, this`k, this`lasttarget
      ensures Has(e', [], [], g.(aim := Finished)) && k == Numbered(e0.k, old(k)) && e' == ExpDesc(VNonreloc(reg), NO_JUMP, NO_JUMP)
      ensures lasttarget >= old(lasttarget)
    {
      hide Computed, Complete, AllOpen, BoolTail, Targets, Based, Wide;
      var e := Discharge2Reg(e0, t, f, g, reg);
      if e.k.VJmp? {
        FinishCompare(e, t, f, g, reg);
      } else {
        ComputedShape(code, Here(), k, e.k, Members(t), Members(f), Real(g, code));
        ListJumps(code, e, t, f);
        if HasJumps(e) {
          FinishValue(e, t, f, g, reg);
        } else {
          NoJumps(code, e, t, f);
          ListEmpty(code);
          AloneFinished(code, Here(), k, e.k, Real(g, code));
          BasedAim(g, code, lasttarget, nactvar);
        }
      }
      e' := ExpDesc(VNonreloc(reg), NO_JUMP, NO_JUMP);
    }

    // ------------------------------------------------------------------ registers

    /** freereg. */
    method FreeReg(reg: nat)
      requires nactvar <= freereg && (reg >= nactvar ==> freereg == reg + 1)
      modifies this`freereg
      ensures freereg == if reg >= nactvar then reg else old(freereg)
    {
      if reg >= nactvar {
        freereg := freereg - 1;
        assert reg == freereg;
      }
    }

    /** freeexp. */
    method FreeExp(d: Kind, ghost f0: nat)
      requires Takes(d, f0) && nactvar <= f0 && (d.VNonreloc? ==> d.i < nactvar || d.i == f0)
      modifies this`freereg
      ensures freereg == f0
    {
      if d.VNonreloc? {
        FreeReg(d.i);
      }
    }

    /** luaK_exp2nextreg. */
    method Exp2NextReg(e0: ExpDesc, ghost t: seq<nat>, ghost f: seq<nat>, ghost g: Goal) returns (e': ExpDesc)
      requires Has(e0, t, f, g) && g.aim == Unfinished && Takes(e0.k, g.f0) && (e0.k.VJmp? ==> BoolTail(g.x))
      modifies this`code, this`jpc, this`jl, this`k, this`freereg, this`lasttarget
      ensures Has(e', [], [], g.(aim := Finished)) && k == Numbered(e0.k, old(k)) && e' == ExpDesc(VNonreloc(g.f0), NO_JUMP, NO_JUMP)
      ensures Takes(e'.k, g.f0)
      ensures lasttarget >= old(lasttarget)
    {
      hide Computed, Complete, AllOpen, BoolTail, Targets, Based, Wide;
      var e := DischargeVars(e0, t, f, g);
      FreeExp(e.k, g.f0);
      freereg := freereg + 1;
      e' := Exp2Reg(e, t, f, g, freereg - 1);
    }

    /** luaK_exp2anyreg.  A value without jumps stays where it is. */
    method Exp2AnyReg(e0: ExpDesc, ghost t: seq<nat>, ghost f: seq<nat>, ghost g: Goal) returns (e': ExpDesc)
      requires Has(e0, t, f, g) && g.aim == Unfinished && Takes(e0.k, g.f0) && (e0.k.VJmp? ==> BoolTail(g.x))
      modifies this`code, this`jpc, this`jl, this`k, this`freereg, this`lasttarget
      ensures Has(e', [], [], g.(aim := Finished)) && k == Numbered(e0.k, old(k)) && e'.k.VNonreloc? && Takes(e'.k, g.f0)
      ensures e'.k.i == if t == [] && f == [] && (e0.k.VNonreloc? || e0.k.VLocal?) then e0.k.i else g.f0
      ensures lasttarget >= old(lasttarget)
    {
      hide Computed, Complete, AllOpen, BoolTail, Targets, Based, Wide;
      var e := DischargeVars(e0, t, f, g);
      if e.k.VNonreloc? {
        ComputedShape(code, Here(), k, e.k, Members(t), Members(f), Real(g, code));
        ListJumps(code, e, t, f);
        if !HasJumps(e) {
          NoJumps(code, e, t, f);
          ListEmpty(code);
          AloneFinished(code, Here(), k, e.k, Real(g, code));
          BasedAim(g, code, lasttarget, nactvar);
          return e;
        }
        if e.k.i >= nactvar {
          e' := Exp2Reg(e, t, f, g, e.k.i);
          return;
        }
      }
      e' := Exp2NextReg(e, t, f, g);
    }

    /** luaK_exp2RK, and luaK_exp2val as its beginning: an operand of an instruction, a
        constant if it can be one.  Where nothing had to be emitted, what waits there
        still waits. */
    method Exp2RK(e0: ExpDesc, ghost t: seq<nat>, ghost f: seq<nat>, ghost g: Goal) returns (e': ExpDesc, o: nat)
      requires Offers(e0, t, f, g) && Takes(e0.k, g.f0)
      modifies this`code, this`jpc, this`jl, this`k, this`freereg, this`lasttarget
      ensures Has(e', [], [], g.(aim := Finished)) && Takes(e'.k, g.f0)
      ensures k == KOperand(g.x, g.k0) && (Carries(e'.k, g.f0) <==> Quiet(g.x, g.k0))
      ensures (e'.k == VNonreloc(o) && o < BITRK) || (e'.k.VK? && o == BITRK + e'.k.i && e'.k.i <= MAXINDEXRK)
      ensures lasttarget >= old(lasttarget)
    {
      hide Computed, Complete, AllOpen, Tail, LocalTail, BoolTail, HasList, KAfter, List, Targets, Based, Wide;
      ComputedShape(code, Here(), k, e0.k, Members(t), Members(f), Real(g, code));
      ListJumps(code, e0, t, f);
      TailKinds(g.x);
      if HasJumps(e0) {
        e' := Exp2AnyReg(e0, t, f, g);
        o := e'.k.i;
      } else {
        NoJumps(code, e0, t, f);
        e', o := Alone2RK(e0, g);
      }
    }

    /** The same without jumps. */
    method Alone2RK(e0: ExpDesc, ghost g: Goal) returns (e': ExpDesc, o: nat)
      requires Offers(e0, [], [], g) && Takes(e0.k, g.f0) && Lone(g.x)
      modifies this`code, this`jpc, this`jl, this`k, this`freereg, this`lasttarget
      ensures Has(e', [], [], g.(aim := Finished)) && Takes(e'.k, g.f0)
      ensures k == KOperand(g.x, g.k0) && (Carries(e'.k, g.f0) <==> Quiet(g.x, g.k0))
      ensures (e'.k == VNonreloc(o) && o < BITRK) || (e'.k.VK? && o == BITRK + e'.k.i && e'.k.i <= MAXINDEXRK)
      ensures lasttarget >= old(lasttarget)
    {
      hide Computed, Complete, AllOpen, Tail, LocalTail, BoolTail, HasList, KAfter, List, Targets, Based, Wide;
      TailKinds(g.x);
      var e := DischargeVars(e0, [], [], g);
      match e.k {
        case VNil =>
          if |k| <= MAXINDEXRK {
            e', o := ConstantOperand(e, g, Nil);
            return;
          }
        case VTrue =>
          if |k| <= MAXINDEXRK {
            e', o := ConstantOperand(e, g, Bool(true));
            return;
          }
        case VFalse =>
          if |k| <= MAXINDEXRK {
            e', o := ConstantOperand(e, g, Bool(false));
            return;
          }
        case VKNum(n) =>
          if |k| <= MAXINDEXRK {
            e', o := ConstantOperand(e, g, Num(n));
            return;
          }
        case VK(i) =>
          if i <= MAXINDEXRK {
            MembersNone();
            AloneFinished(code, Here(), k, e.k, Real(g, code));
            BasedAim(g, code, lasttarget, nactvar);
            return e, BITRK + i;
          }
        case _ =>
      }
      e' := Exp2AnyReg(e, [], [], g);
      o := e'.k.i;
    }

    /** A constant becomes an entry of the table of constants. */
    method ConstantOperand(e: ExpDesc, ghost g: Goal, v: Value) returns (e': ExpDesc, o: nat)
      requires Has(e, [], [], g) && g.aim == Unfinished && Takes(e.k, g.f0) && |k| <= MAXINDEXRK
      requires match e.k
               case VNil => v == Nil
               case VTrue => v == Bool(true)
               case VFalse => v == Bool(false)
               case VKNum(n) => v == Num(n)
               case _ => false
      modifies this`k
      ensures Has(e', [], [], g.(aim := Finished)) && k == Add(old(k), v) && Takes(e'.k, g.f0)
      ensures e'.k.VK? && o == BITRK + e'.k.i && e'.k.i <= MAXINDEXRK
    {
      hide Computed, Complete, AllOpen, Targets, Based, Wide;
      ghost var k0 := k;
      var i := AddK(v);
      MembersNone();
      AddIndex(k0, v);
      MoreConstants(code, Here(), k0, k, e.k, {}, {}, Real(g, code));
      KeptConstant(code, Here(), k, e.k, i, {}, {}, Real(g, code));
      AloneFinished(code, Here(), k, VK(i), Real(g, code));
      BasedAim(g, code, lasttarget, nactvar);
      e' := e.(k := VK(i));
      o := BITRK + i;
    }

    // ----------------------------------------------------------------- conditions

    /** The state of a condition: the list of the jumps that leave when the
        expression is not as wanted. */
    ghost predicate Goes(list: int, q: seq<nat>, g: Goal, want: bool)
      reads this
    {
      && Valid() && List(code, list, q) && Based(g, code, lasttarget, nactvar)
      && Conditional(code, Members(q), Here(), k, Real(g, code), want)
    }

    /** The code before the goal is what it was, but for a wider LOADNIL. */
    ghost predicate Rests(g: Goal)
      reads this
    {
      Based(g, code, lasttarget, nactvar) && Targets(code, lasttarget) && lasttarget <= |code|
    }

    /** Discharge2anyreg. */
    method Discharge2AnyReg(e: ExpDesc, ghost t: seq<nat>, ghost f: seq<nat>, ghost g: Goal) returns (e': ExpDesc)
      requires Has(e, t, f, g) && Takes(e.k, g.f0) && !e.k.VJmp? && !e.k.VLocal? && !e.k.VUpval?
      modifies this`code, this`jpc, this`jl, this`k, this`freereg
      ensures Has(e', t, f, g) && k == Numbered(e.k, old(k)) && e'.k.VNonreloc? && e'.t == e.t && e'.f == e.f && Takes(e'.k, g.f0)
    {
      hide Computed, Complete, AllOpen, Targets, Based, Wide;
      e' := e;
      if !e.k.VNonreloc? {
        freereg := freereg + 1;
        e' := Discharge2Reg(e, t, f, g, freereg - 1);
      }
    }

    /** jumponcond: a jump that is taken when the value is `cond`.  A negation in
        front of it is taken away and tested the other way round. */
    method JumpOnCond(e: ExpDesc, ghost t: seq<nat>, ghost f: seq<nat>, ghost g: Goal, cond: bool) returns (pc: nat)
      requires Has(e, t, f, g) && g.aim == Unfinished && Takes(e.k, g.f0) && !e.k.VJmp? && !e.k.VLocal? && !e.k.VUpval?
      requires BoolTail(g.x) <==> e.k.VRelocable? && e.k.i < |code| && code[e.k.i].Not?
      requires Tail(g.x).Some? ==> Truthy(Tail(g.x).value) == cond && Tail(g.x).value != Bool(cond)
      modifies this`code, this`jpc, this`jl, this`k, this`freereg
      ensures k == Numbered(e.k, old(k)) && freereg == g.f0 && jpc == NO_JUMP && jl == [] && Rests(g)
      ensures List(code, e.t, t) && List(code, e.f, f) && List(code, pc, [pc]) && pc !in Members(t) && pc !in Members(f)
      ensures var stay, go := if cond then t else f, if cond then f else t;
              Conditional(code, Members(stay) + {pc}, Members(go), k, Real(g, code), !cond)
    {
      hide Computed, Complete, AllOpen, List, Members, TestCode, Conditional, DecidesFor, Tail, BoolTail, Targets, Based, Wide;
      ghost var ts, fs := Members(t), Members(f);
      ghost var stay, go := if cond then ts else fs, if cond then fs else ts;
      ComputedShape(code, Here(), k, e.k, ts, fs, Real(g, code));
      if e.k.VRelocable? && code[e.k.i].Not? {
        var i := code[e.k.i];
        ghost var c := code;
        NotDecides(k, c, e.k, cond);
        TestComputed(c, Here(), k, e.k, ts, fs, Real(g, c), Test(i.b, !cond), cond);
        ShorterLists(c, e, t, f, jpc, jl, k, Real(g, c));
        ShorterTargets(c, Test(i.b, !cond), lasttarget);
        code := code[..|code| - 1];
        EmitKeepsList(code, Here(), Test(i.b, !cond), e.t, t);
        EmitKeepsList(code, Here(), Test(i.b, !cond), e.f, f);
        pc := CondJump(Test(i.b, !cond));
        JumpApart(c, e, t, f, pc);
        TestLonger(c[..|c| - 1], {}, Test(i.b, !cond));
        ConditionalKeeps(g, c, code, stay + {pc}, go, k, !cond, lasttarget, lasttarget, nactvar);
      } else {
        var v := Discharge2AnyReg(e, t, f, g);
        FreeExp(v.k, g.f0);
        ghost var c, h := code, Here();
        ComputedShape(c, h, k, v.k, ts, fs, Real(g, c));
        SetDecides(k, c, v.k, cond);
        TestComputed(c, h, k, v.k, ts, fs, Real(g, c), TestSet(NO_REG, v.k.i, cond), cond);
        EmitKeepsList(c, h, TestSet(NO_REG, v.k.i, cond), e.t, t);
        EmitKeepsList(c, h, TestSet(NO_REG, v.k.i, cond), e.f, f);
        JumpApart(c, e, t, f, |c| + 1);
        TestTargets(c, h, TestSet(NO_REG, v.k.i, cond), lasttarget);
        TestLonger(c, h, TestSet(NO_REG, v.k.i, cond));
        pc := CondJump(TestSet(NO_REG, v.k.i, cond));
        ConditionalKeeps(g, c, code, stay + {pc}, go, k, !cond, lasttarget, lasttarget, nactvar);
      }
    }

    /** invertjump. */
    method InvertJump(j: nat)
      requires 1 <= j < |code| && code[j - 1].Cmp?
      modifies this`code
      ensures code == old(code)[j - 1 := Inverted(old(code)[j - 1])]
    {
      var c := Control(code, j);
      code := code[c := Inverted(code[c])];
    }

    /** The end of luaK_goiftrue and luaK_goiffalse: the new jump, and what it has
        taken along, joins the list that leaves; the other list comes here. */
    method JoinJump(stayList: int, ghost stay: seq<nat>, goList: int, ghost go: seq<nat>, pc: int, ghost added: seq<nat>, ghost g: Goal, want: bool) returns (list: int)
      requires List(code, stayList, stay) && List(code, goList, go) && List(code, pc, added) && jpc == NO_JUMP && jl == [] && Rests(g)
      requires Conditional(code, Members(stay) + Members(added), Members(go), k, Real(g, code), want)
      requires Members(stay) !! Members(go) && Members(added) !! Members(stay) && Members(added) !! Members(go) && nactvar <= freereg
      modifies this`code, this`jpc, this`jl, this`lasttarget
      ensures Goes(list, stay + added, g, want) && jl == go
      ensures lasttarget >= old(lasttarget)
    {
      hide Conditional, List, Members, Relinked, Targets, Based, Wide;
      ghost var c, gr, last := code, Real(g, code), lasttarget;
      list := Concat(stayList, stay, pc, added);
      MembersConcat(stay, added);
      RelinkedList(c, code, Members(stay), goList, go);
      RelinkConditional(c, code, Members(stay), Members(stay) + Members(added), Members(go), k, gr, want);
      ListEmpty(code);
      assert Targets(code, last);
      ghost var c1 := code;
      PatchToHere(goList, go);
      RelinkedLength(c, c1, Members(stay));
      TargetsMore(code, last, lasttarget);
      assert {} + Members(go) == Members(go);
      ConditionalKeeps(g, c, code, Members(stay) + Members(added), Members(go), k, want, last, lasttarget, nactvar);
      ConditionalShape(code, Members(stay) + Members(added), Members(go), k, gr, want);
    }

    /** luaK_jump for a constant that decides its operator: the jumps that lead to this
        place are kept on hold in its list. */
    method JumpAlways(e: ExpDesc, ghost t: seq<nat>, ghost f: seq<nat>, ghost g: Goal, cond: bool) returns (list: int, ghost q: seq<nat>)
      requires Has(e, t, f, g) && g.aim == Unfinished && Takes(e.k, g.f0) && e.k == Truth(cond) && Tail(g.x).Some?
      modifies this`code, this`jpc, this`jl, this`lasttarget
      ensures Goes(list, q, g, !cond) && q == (if cond then t else f) + ([|old(code)|] + old(jl)) && jl == if cond then f else t
      ensures lasttarget >= old(lasttarget)
    {
      hide Computed, Complete, AllOpen, Conditional, List, Members, Tail, Targets, Based, Wide;
      ghost var c, h, hl, gr := code, Here(), jl, Real(g, code);
      ghost var ts, fs := Members(t), Members(f);
      ComputedShape(c, h, k, e.k, ts, fs, gr);
      var pc; ghost var added, link;
      pc, added, link := JumpOn();
      AlwaysComputed(c, h, k, ts, fs, gr, cond, link);
      HoldApart(c, e, t, f, hl);
      assert {|c|} + h == h + {|c|};
      ListLonger(c, [Jmp(link)], e.t, t);
      ListLonger(c, [Jmp(link)], e.f, f);
      ListHead(code, pc, added);
      JumpTargets(c, link, added, lasttarget);
      ConditionalKeeps(g, c, code, (if cond then ts else fs) + Members(added), if cond then fs else ts, k, !cond, lasttarget, lasttarget, nactvar);
      if cond {
        q := t + added;
        list := JoinJump(e.t, t, e.f, f, pc, added, g, false);
      } else {
        q := f + added;
        list := JoinJump(e.f, f, e.t, t, pc, added, g, true);
      }
    }

    /** A comparison has its jump already; luaK_goiftrue inverts it. */
    method JumpCompare(e: ExpDesc, ghost t: seq<nat>, ghost f: seq<nat>, ghost g: Goal, cond: bool)
      requires Has(e, t, f, g) && g.aim == Unfinished && Takes(e.k, g.f0) && e.k.VJmp? && BoolTail(g.x)
      modifies this`code
      ensures freereg == g.f0 && jpc == NO_JUMP && jl == [] && Rests(g)
      ensures List(code, e.t, t) && List(code, e.f, f) && List(code, e.k.i, [e.k.i]) && e.k.i !in Members(t) && e.k.i !in Members(f)
      ensures var stay, go := if cond then t else f, if cond then f else t;
              Conditional(code, Members(stay) + {e.k.i}, Members(go), k, Real(g, code), !cond)
    {
      hide Computed, Complete, AllOpen, Conditional, List, Members, TestCode, DecidesFor, Tail, BoolTail, Targets, Based, Wide;
      ghost var c, gr := code, Real(g, code);
      ghost var ts, fs := Members(t), Members(f);
      ComputedShape(c, Here(), k, e.k, ts, fs, gr);
      TailKinds(g.x);
      CompareTest(c, e.k);
      CmpDecides(k, c, e.k, !cond);
      TestComputed(c, {}, k, e.k, ts, fs, gr, if cond then c[e.k.i - 1] else Inverted(c[e.k.i - 1]), cond);
      if !cond {
        InvertJump(e.k.i);
        InvertKeepsList(c, e.k.i, e.t, t);
        InvertKeepsList(c, e.k.i, e.f, f);
        InvertTargets(c, e.k.i, lasttarget);
      }
      ListOne(code, e.k.i);
      HereNone(jl);
      HeadNone(c, jpc, jl);
      ConditionalKeeps(g, c, code, (if cond then ts else fs) + {e.k.i}, if cond then fs else ts, k, !cond, lasttarget, lasttarget, nactvar);
    }

    /** luaK_goiftrue. */
    method GoIfTrue(e0: ExpDesc, ghost t: seq<nat>, ghost f: seq<nat>, ghost g: Goal) returns (list: int, ghost q: seq<nat>)
      requires Offers(e0, t, f, g) && Takes(e0.k, g.f0)
      modifies this`code, this`jpc, this`jl, this`k, this`freereg, this`lasttarget
      ensures Goes(list, q, g, true) && k == KTested(g.x, g.k0, true) && freereg == g.f0
      ensures q == [] <==> !HasList(g.x, false) && Constantly(g.x, true)
      ensures lasttarget >= old(lasttarget)
    {
      hide Computed, Complete, AllOpen, Conditional, List, Members, TestCode, DecidesFor, Tail, LocalTail, BoolTail, HasList, KAfter, Targets, Based, Wide;
      TailKinds(g.x);
      var e := DischargeVars(e0, t, f, g);
      ComputedShape(code, Here(), k, e.k, Members(t), Members(f), Real(g, code));
      if e.k.VK? || e.k.VKNum? || e.k.VTrue? {
        list, q := e.f, f;
        ConstantComputed(code, Here(), k, e.k, Members(t), Members(f), Real(g, code), true);
        ComeHere(e.t, t, list, q, g, true);
      } else if e.k.VFalse? {
        list, q := JumpAlways(e, t, f, g, false);
      } else {
        var pc;
        if e.k.VJmp? {
          JumpCompare(e, t, f, g, false);
          pc := e.k.i;
        } else {
          pc := JumpOnCond(e, t, f, g, false);
        }
        MembersOne(pc);
        q := f + [pc];
        list := JoinJump(e.f, f, e.t, t, pc, [pc], g, true);
      }
    }

    /** luaK_goiffalse. */
    method GoIfFalse(e0: ExpDesc, ghost t: seq<nat>, ghost f: seq<nat>, ghost g: Goal) returns (list: int, ghost q: seq<nat>)
      requires Offers(e0, t, f, g) && Takes(e0.k, g.f0)
      modifies this`code, this`jpc, this`jl, this`k, this`freereg, this`lasttarget
      ensures Goes(list, q, g, false) && k == KTested(g.x, g.k0, false) && freereg == g.f0
      ensures q == [] <==> !HasList(g.x, true) && Constantly(g.x, false)
      ensures lasttarget >= old(lasttarget)
    {
      hide Computed, Complete, AllOpen, Conditional, List, Members, TestCode, DecidesFor, Tail, LocalTail, BoolTail, HasList, KAfter, Targets, Based, Wide;
      TailKinds(g.x);
      var e := DischargeVars(e0, t, f, g);
      ComputedShape(code, Here(), k, e.k, Members(t), Members(f), Real(g, code));
      if e.k.VNil? || e.k.VFalse? {
        list, q := e.t, t;
        ConstantComputed(code, Here(), k, e.k, Members(t), Members(f), Real(g, code), false);
        ComeHere(e.f, f, list, q, g, false);
      } else if e.k.VTrue? {
        list, q := JumpAlways(e, t, f, g, true);
      } else {
        var pc;
        if e.k.VJmp? {
          JumpCompare(e, t, f, g, true);
          pc := e.k.i;
        } else {
          pc := JumpOnCond(e, t, f, g, true);
        }
        MembersOne(pc);
        q := t + [pc];
        list := JoinJump(e.t, t, e.f, f, pc, [pc], g, false);
      }
    }

    /** No new jump: the other list comes here. */
    method ComeHere(goList: int, ghost go: seq<nat>, list: int, ghost q: seq<nat>, ghost g: Goal, want: bool)
      requires Valid() && List(code, goList, go) && List(code, list, q) && Members(go) !! Here() && Members(q) !! Here() && Members(q) !! Members(go)
      requires Conditional(code, Members(q), Here() + Members(go), k, Real(g, code), want) && Based(g, code, lasttarget, nactvar)
      modifies this`code, this`jpc, this`jl, this`lasttarget
      ensures Goes(list, q, g, want) && jl == old(jl) + go
      ensures lasttarget >= old(lasttarget)
    {
      hide Conditional, List, Members, Relinked, Targets, Based, Wide;
      ghost var c, h, gr, last := code, Here(), Real(g, code), lasttarget;
      PatchToHere(goList, go);
      RelinkConditional(c, code, h, Members(q), h + Members(go), k, gr, want);
      RelinkedList(c, code, h, list, q);
      RelinkedLength(c, code, h);
      TargetsMore(code, last, lasttarget);
      ConditionalKeeps(g, c, code, Members(q), h + Members(go), k, want, last, lasttarget, nactvar);
      ConditionalShape(code, Members(q), h + Members(go), k, gr, want);
    }

    // ------------------------------------------------------------------ operators

    /** The end of codenot: no jump of the two lists brings its operand along. */
    method RemoveBoth(tl: int, ghost t: seq<nat>, fl: int, ghost f: seq<nat>)
      requires List(code, tl, t) && List(code, fl, f) && List(code, jpc, jl)
      modifies this`code
      ensures code == Unset(old(code), Members(t) + Members(f))
      ensures List(code, tl, t) && List(code, fl, f) && List(code, jpc, jl)
    {
      hide List, Members, Unset;
      ghost var c := code;
      UnsetKeepsList(c, Members(t), tl, t);
      UnsetKeepsList(c, Members(t), fl, f);
      UnsetKeepsList(c, Members(t) + Members(f), tl, t);
      UnsetKeepsList(c, Members(t) + Members(f), fl, f);
      UnsetKeepsList(c, Members(t) + Members(f), jpc, jl);
      UnsetTwice(c, tl, t, fl, f);
      RemoveValues(tl, t);
      RemoveValues(fl, f);
    }

    /** codenot on a value: it goes to a register, and is negated from there. */
    method EmitNot(e: ExpDesc, ghost t: seq<nat>, ghost f: seq<nat>, ghost g: Goal) returns (pc: nat)
      requires Has(e, t, f, g) && g.aim == Unfinished && Takes(e.k, g.f0) && (e.k.VRelocable? || e.k.VNonreloc?)
      modifies this`code, this`jpc, this`jl, this`k, this`freereg
      ensures k == old(k) && freereg == g.f0 && List(code, e.t, t) && List(code, e.f, f) && List(code, jpc, jl) && jl == [] && Targets(code, lasttarget) && lasttarget <= |code|
      ensures var c := Unset(code, Members(t) + Members(f));
              && pc < |c| && c[pc].Not? && Based(g, c, lasttarget, nactvar)
              && Computed(c, Here(), k, VRelocable(pc), Members(f), Members(t), Real(g.(x := NotExp(g.x)), c))
    {
      hide Computed, Complete, AllOpen, List, Members, Unset, Emit, Targets, Based, Wide;
      ghost var ts, fs := Members(t), Members(f);
      var v := Discharge2AnyReg(e, t, f, g);
      FreeExp(v.k, g.f0);
      ghost var c, h := code, Here();
      ComputedShape(c, h, k, v.k, ts, fs, Real(g, c));
      NotComputed(c, h, k, v.k.i, ts, fs, Real(g, c));
      EmitKeepsList(c, h, Not(0, v.k.i), e.t, t);
      EmitKeepsList(c, h, Not(0, v.k.i), e.f, f);
      EmitTargets(c, h, Not(0, v.k.i), lasttarget);
      EmittedNot(c, h, v.k.i, ts + fs);
      pc := Emit1(Not(0, v.k.i));
      ListEmpty(code);
      BasedExpr(g, NotExp(g.x), c, lasttarget, nactvar);
      ComputedKeeps(g.(x := NotExp(g.x)), c, Unset(code, ts + fs), {}, k, VRelocable(pc), fs, ts, lasttarget, lasttarget, nactvar);
      BasedExpr(g, NotExp(g.x), Unset(code, ts + fs), lasttarget, nactvar);
    }

    /** codenot: the two lists change their roles, and their jumps bring no value
        any more. */
    method CodeNot(e0: ExpDesc, ghost t: seq<nat>, ghost f: seq<nat>, ghost g: Goal) returns (e': ExpDesc)
      requires Offers(e0, t, f, g) && Takes(e0.k, g.f0)
      modifies this`code, this`jpc, this`jl, this`k, this`freereg
      ensures Offers(e', f, t, g.(x := NotExp(g.x))) && Takes(e'.k, g.f0)
    {
      hide Computed, Complete, AllOpen, List, Members, Unset, Emit, Tail, LocalTail, BoolTail, HasList, KAfter, Targets, Based, Wide, Kinds;
      ghost var g', was := g.(x := NotExp(g.x)), code;
      ghost var ts, fs := Members(t), Members(f);
      KindsTail(e0.k, code, k, g.x, g.f0);
      var e := DischargeVars(e0, t, f, g);
      var d := e.k;
      ghost var c := code;
      ComputedShape(code, Here(), k, d, ts, fs, Real(g, c));
      BasedExpr(g, NotExp(g.x), c, lasttarget, nactvar);
      if d.VNil? || d.VTrue? || d.VFalse? || d.VK? || d.VKNum? {
        NotConstantComputed(code, Here(), k, d, ts, fs, Real(g, c), !d.VNil? && !d.VFalse?);
        d := if d.VNil? || d.VFalse? then VTrue else VFalse;
        ComputedKeeps(g', c, Unset(code, ts + fs), Here(), k, d, fs, ts, lasttarget, lasttarget, nactvar);
      } else if d.VJmp? {
        NotJmpComputed(code, k, d.i, ts, fs, Real(g, c));
        InvertKeepsList(code, d.i, e.t, t);
        InvertKeepsList(code, d.i, e.f, f);
        InvertKeepsList(code, d.i, jpc, jl);
        InvertTargets(code, d.i, lasttarget);
        InvertJump(d.i);
        ComputedKeeps(g', c, Unset(code, ts + fs), Here(), k, d, fs, ts, lasttarget, lasttarget, nactvar);
      } else {
        var pc := EmitNot(e, t, f, g);
        d := VRelocable(pc);
        BasedExpr(g, NotExp(g.x), Unset(code, ts + fs), lasttarget, nactvar);
      }
      UnsetTargets(code, ts + fs, lasttarget);
      UnsetLength(code, ts + fs);
      RemoveBoth(e.t, t, e.f, f);
      ComputedShape(code, Here(), k, d, fs, ts, Real(g', code));
      e' := ExpDesc(d, e.f, e.t);
      NotKinds(g.x, e0.k, was, d, code, k, g.f0);
      NotForm(g.x, g.k0);
    }

    /** luaK_posfix on `and` and `or`: the list of the first operand joins that of
        the second. */
    method JoinOperands(list: int, ghost q: seq<nat>, e0: ExpDesc, ghost t: seq<nat>, ghost f: seq<nat>, ghost ca: Code, ghost ha: set<nat>, ghost ka: seq<Value>, ghost last: int, ghost b: Expr, ghost g: Goal, want: bool)
      returns (e': ExpDesc, ghost t': seq<nat>, ghost f': seq<nat>)
      requires Offers(e0, t, f, Goal(ca, ha, g.f0, KTested(g.x, g.k0, want), nactvar, last < |ca|, b, Unfinished)) && Takes(e0.k, g.f0) && List(ca, list, q)
      requires Conditional(ca, Members(q), ha, ka, Real(g, ca), want) && Based(g, ca, last, nactvar) && Targets(ca, last) && last <= lasttarget
      requires ka <= k && g.aim == Unfinished && Scoped(b, nactvar) && nactvar <= g.f0
      modifies this`code, this`jpc, this`jl
      ensures Has(e', t', f', g.(x := if want then And(g.x, b) else Or(g.x, b))) && Takes(e'.k, g.f0)
      ensures if want then t' == t && f' == f + q else t' == t + q && f' == f
      ensures Kinds(e'.k, code, k, b, g.f0)
    {
      hide Computed, Complete, AllOpen, List, Members, Conditional, Relinked, Tail, LocalTail, BoolTail, HasList, KAfter, Targets, Based, Wide;
      ghost var gb := Goal(ca, ha, g.f0, KTested(g.x, g.k0, want), nactvar, last < |ca|, b, Unfinished);
      ghost var x' := if want then And(g.x, b) else Or(g.x, b);
      ghost var g' := g.(x := x');
      e' := DischargeVars(e0, t, f, gb);
      ghost var ts, fs, qs := Members(t), Members(f), Members(q);
      ghost var w, c, last1 := Wide(ca, code), code, lasttarget;
      ghost var ga := Real(g, w);
      Rebase(ca, qs, ha, ka, g, want, last, nactvar, gb, code, last1);
      WideList(ca, list, q, gb, code, last1, nactvar);
      SecondComputed(w, qs, ha, ka, ga, code, Here(), k, e'.k, ts, fs, b, want, last < |ca|, nactvar);
      OperandLists(w, list, q, ha, ka, ga, want, code, Here(), k, e'.k, ts, fs, Real(gb, code));
      if want {
        var l := Concat(e'.f, f, list, q);
        MembersConcat(f, q);
        RelinkedList(c, code, fs, e'.t, t);
        RelinkedList(c, code, fs, jpc, jl);
        RelinkComputed(c, code, fs, Here(), k, e'.k, ts, fs + qs, ga.(x := x'));
        RelinkedKinds(c, code, fs, e'.k, k, b, g.f0);
        RelinkedLength(c, code, fs);
        JoinedKeeps(g, x', w, code, Here(), k, e'.k, ts, fs + qs, last, last1, nactvar);
        ComputedShape(code, Here(), k, e'.k, ts, fs + qs, Real(g', code));
        e', t', f' := e'.(f := l), t, f + q;
      } else {
        var l := Concat(e'.t, t, list, q);
        MembersConcat(t, q);
        RelinkedList(c, code, ts, e'.f, f);
        RelinkedList(c, code, ts, jpc, jl);
        RelinkComputed(c, code, ts, Here(), k, e'.k, ts + qs, fs, ga.(x := x'));
        RelinkedKinds(c, code, ts, e'.k, k, b, g.f0);
        RelinkedLength(c, code, ts);
        JoinedKeeps(g, x', w, code, Here(), k, e'.k, ts + qs, fs, last, last1, nactvar);
        ComputedShape(code, Here(), k, e'.k, ts + qs, fs, Real(g', code));
        e', t', f' := e'.(t := l), t + q, f;
      }
    }

    /** codecomp, once both operands are there: `>` and `>=` exchange them, and
        `~=` is `==` with the opposite sense. */
    method CodeComp(op: CmpOp, cond0: bool, o1: nat, o2: nat) returns (j: nat)
      requires List(code, jpc, jl)
      modifies this`code, this`jpc, this`jl
      ensures code == TestCode(old(code), old(Here()), if !cond0 && op != EQ then Cmp(op, true, o2, o1) else Cmp(op, cond0, o1, o2))
      ensures j == |old(code)| + 1 && jpc == NO_JUMP && jl == [] && Here() == {}
    {
      var cond, x, y := cond0, o1, o2;
      if !cond && op != EQ {
        x, y := o2, o1;
        cond := true;
      }
      j := CondJump(Cmp(op, cond, x, y));
    }

    // -------------------------------------------------------- whole expressions

    /** Compiles an expression: the calls that the parser makes for it
        (luaK_prefix, luaK_infix, luaK_posfix and the simple expressions). */
    method Compile(x: Expr) returns (e: ExpDesc, ghost t: seq<nat>, ghost f: seq<nat>)
      requires Valid() && Scoped(x, nactvar) && freereg + Depth(x) < MAXSTACK
      modifies this`code, this`jpc, this`jl, this`k, this`freereg, this`lasttarget
      ensures Offers(e, t, f, Goal(old(code), old(Here()), old(freereg), old(k), nactvar, old(lasttarget < |code|), x, Unfinished)) && Takes(e.k, old(freereg))
      ensures lasttarget >= old(lasttarget)
      decreases x, 0
    {
      hide Computed, Complete, AllOpen, List, Members, Conditional, Kinds, HasList, KAfter, Targets, Based, Wide;
      ghost var g := Goal(code, Here(), freereg, k, nactvar, lasttarget < |code|, x, Unfinished);
      match x {
        case NotExp(a) =>
          e, t, f := Compile(a);
          e := CodeNot(e, t, f, g.(x := a));
          t, f := f, t;
        case And(a, b) =>
          e, t, f := Compile(a);
          var list; ghost var q;
          list, q := GoIfTrue(e, t, f, g.(x := a));
          e, t, f := CompileSecond(list, q, b, g.(x := a), true);
        case Or(a, b) =>
          e, t, f := Compile(a);
          var list; ghost var q;
          list, q := GoIfFalse(e, t, f, g.(x := a));
          e, t, f := CompileSecond(list, q, b, g.(x := a), false);
        case Relation(op, a, b) =>
          e, t, f := Compile(a);
          var v1, o1 := Exp2RK(e, t, f, g.(x := a));
          e, t, f := CompileRight(v1, o1, op, b, g.(x := a));
        case _ =>
          e, t, f := Simple(x);
      }
    }

    /** A constant or a variable. */
    method Simple(x: Expr) returns (e: ExpDesc, ghost t: seq<nat>, ghost f: seq<nat>)
      requires Valid() && Scoped(x, nactvar) && freereg + Depth(x) < MAXSTACK
      requires x.Constant? || x.Local? || x.Upvalue?
      modifies this`k
      ensures Offers(e, t, f, Goal(code, Here(), freereg, old(k), nactvar, lasttarget < |code|, x, Unfinished)) && Takes(e.k, freereg)
    {
      hide Computed, Targets, Based, Wide, Kinds, HasList, KAfter, List, Members, AllOpen, Complete;
      ghost var g := Goal(code, Here(), freereg, k, nactvar, lasttarget < |code|, x, Unfinished);
      var d;
      if x.Local? {
        d := VLocal(x.r);
      } else if x.Upvalue? {
        d := VUpval(x.u);
      } else if x.v.Nil? {
        d := VNil;
      } else if x.v.Bool? {
        d := if x.v.b then VTrue else VFalse;
      } else if x.v.Num? {
        d := VKNum(x.v.n);
      } else {
        var i := AddK(x.v);
        d := VK(i);
      }
      BasedNow(g, lasttarget) by { HereNow(code, jpc, jl); }
      Begin(code, Here(), k, d, g);
      SimpleForm(x, d, code, old(k), k, freereg);
      ListEmpty(code);
      e, t, f := ExpDesc(d, NO_JUMP, NO_JUMP), [], [];
    }

    /** The second operand of `and` and `or`, and luaK_posfix. */
    method CompileSecond(list: int, ghost q: seq<nat>, b: Expr, ghost g: Goal, want: bool) returns (e: ExpDesc, ghost t: seq<nat>, ghost f: seq<nat>)
      requires Goes(list, q, g, want) && g.aim == Unfinished && freereg == g.f0 && nactvar <= g.f0 && k == KTested(g.x, g.k0, want)
      requires q == [] <==> !HasList(g.x, !want) && Constantly(g.x, want)
      requires Scoped(b, nactvar) && freereg + Depth(b) < MAXSTACK
      modifies this`code, this`jpc, this`jl, this`k, this`freereg, this`lasttarget
      ensures Offers(e, t, f, g.(x := if want then And(g.x, b) else Or(g.x, b))) && Takes(e.k, g.f0)
      ensures lasttarget >= old(lasttarget)
      decreases b, 1
    {
      hide Computed, Complete, AllOpen, List, Members, Conditional, Kinds, HasList, KAfter, KTested, Constantly, Targets, Based, Wide;
      ghost var ca, ha, ka, last := code, Here(), k, lasttarget;
      e, t, f := Compile(b);
      KGrows(b, ka);
      ghost var tb, fb := t, f;
      var e2 := e;
      e, t, f := JoinOperands(list, q, e2, t, f, ca, ha, ka, last, b, g, want);
      SecondForm(g.x, b, g.k0, want);
      SecondKinds(e.k, code, k, g.x, b, g.f0, want);
      assert tb + q == [] <==> tb == [] && q == [];
      assert fb + q == [] <==> fb == [] && q == [];
    }

    /** The second operand of a comparison, and luaK_posfix.  (The first operand
        is an operand of an instruction already.) */
    method CompileRight(v1: ExpDesc, o1: nat, op: BinOp, b: Expr, ghost g: Goal) returns (e: ExpDesc, ghost t: seq<nat>, ghost f: seq<nat>)
      requires Has(v1, [], [], g.(aim := Finished)) && Takes(v1.k, g.f0) && k == KOperand(g.x, g.k0) && g.aim == Unfinished
      requires (v1.k == VNonreloc(o1) && o1 < BITRK) || (v1.k.VK? && o1 == BITRK + v1.k.i)
      requires Carries(v1.k, g.f0) <==> Quiet(g.x, g.k0)
      requires Scoped(b, nactvar) && freereg + Depth(b) < MAXSTACK
      modifies this`code, this`jpc, this`jl, this`k, this`freereg, this`lasttarget
      ensures Offers(e, t, f, g.(x := Relation(op, g.x, b))) && Takes(e.k, g.f0)
      ensures lasttarget >= old(lasttarget)
      decreases b, 1
    {
      hide Computed, Complete, AllOpen, List, Members, Operand, TestCode, Kinds, HasList, KAfter, KOperand, Quiet, Targets, Based, Wide;
      MembersNone();
      ghost var ca, ha, ka, f1, last := code, Here(), k, freereg, lasttarget;
      OperandOf(ca, ha, ka, v1.k, o1, Real(g.(aim := Finished), ca));
      e, t, f := Compile(b);
      ghost var gb := Goal(ca, ha, f1, ka, nactvar, last < |ca|, b, Unfinished);
      var v2, o2 := Exp2RK(e, t, f, gb);
      OperandOf(code, Here(), k, v2.k, o2, Real(gb.(aim := Finished), code));
      KGrows(b, ka);
      BasedAim(g, ca, last, nactvar);
      BasedAim(gb, code, lasttarget, nactvar);
      e := Compared(v1, o1, v2, o2, op, ca, ha, ka, last, b, g, gb);
      t, f := [], [];
      RelationForm(op, g.x, b, g.k0);
      RelationKinds(e.k, code, k, op, g.x, b, g.f0);
    }

    /** Both operands are there: luaK_posfix. */
    method Compared(v1: ExpDesc, o1: nat, v2: ExpDesc, o2: nat, op: BinOp, ghost ca: Code, ghost ha: set<nat>, ghost ka: seq<Value>, ghost last: int, ghost b: Expr, ghost g: Goal, ghost gb: Goal) returns (e: ExpDesc)
      requires Valid() && Operand(ca, ha, ka, o1, Quiet(g.x, g.k0), Real(g.(aim := Finished), ca)) && ka == KOperand(g.x, g.k0) && g.aim == Unfinished
      requires gb == Goal(ca, ha, gb.f0, ka, nactvar, last < |ca|, b, Unfinished) && Based(gb, code, lasttarget, nactvar)
      requires Operand(code, Here(), k, o2, Carries(v2.k, gb.f0), Real(gb.(aim := Finished), code)) && ka <= k
      requires Based(g, ca, last, nactvar) && Targets(ca, last) && last <= lasttarget
      requires v2.k.VNonreloc? ==> v2.k.i < nactvar || v2.k.i == gb.f0
      requires v1.k.VNonreloc? ==> v1.k.i < nactvar || v1.k.i == g.f0
      requires Takes(v2.k, gb.f0) && gb.f0 == (if v1.k.VNonreloc? && v1.k.i >= nactvar then g.f0 + 1 else g.f0)
      requires (o1 < BITRK ==> o1 < gb.f0) && nactvar <= g.f0 && g.f0 + 1 < MAXSTACK && Scoped(b, nactvar)
      modifies this`code, this`jpc, this`jl, this`freereg
      ensures Has(e, [], [], g.(x := Relation(op, g.x, b))) && Takes(e.k, g.f0) && e.k.VJmp?
    {
      hide Computed, Complete, AllOpen, List, Members, Operand, TestCode, KOperand, Quiet, Targets, Based, Wide, Carries, Scoped, CmpInstr, Emit;
      FreeExp(v2.k, gb.f0);
      FreeExp(v1.k, g.f0);
      BothCompared(ca, ha, ka, o1, g, last, nactvar, gb, code, Here(), k, o2, Carries(v2.k, gb.f0), op, lasttarget);
      CmpInstrIs(op, o1, o2);
      var j := CodeComp(
        if op.OpEq? || op.OpNe? then EQ else if op.OpLt? || op.OpGt? then LT else LE,
        op.OpEq? || op.OpLt? || op.OpLe?, o1, o2);
      ListEmpty(code);
      e := ExpDesc(VJmp(j), NO_JUMP, NO_JUMP);
      ComputedShape(code, Here(), k, e.k, {}, {}, Real(g.(x := Relation(op, g.x, b)), code));
    }

    /** Compiles an expression into the first free register. */
    method CompileToReg(x: Expr) returns (reg: nat)
      requires Valid() && Scoped(x, nactvar) && freereg + Depth(x) < MAXSTACK
      modifies this`code, this`jpc, this`jl, this`k, this`freereg, this`lasttarget
      ensures Valid() && reg == old(freereg) && freereg == reg + 1 && k == KLoaded(x, old(k))
      ensures var g := Goal(old(code), old(Here()), old(freereg), old(k), nactvar, old(lasttarget < |code|), x, Finished);
              Operand(code, Here(), k, reg, false, Real(g, code)) && Based(g, code, lasttarget, nactvar)
    {
      hide Computed, Complete, AllOpen, List, Members, Operand, KAfter, Tail, LocalTail, BoolTail, HasList, Targets, Based, Wide;
      ghost var g := Goal(code, Here(), freereg, k, nactvar, lasttarget < |code|, x, Unfinished);
      var e; ghost var t, f;
      e, t, f := Compile(x);
      e := Exp2NextReg(e, t, f, g);
      MembersNone();
      reg := e.k.i;
      OperandOf(code, Here(), k, e.k, reg, Real(g.(aim := Finished), code));
    }
  }

  // ------------------------------------------------------- a value that gets lost

  /** `((c or false) and true) or false`: `and` ends in true there, and a jump from c
      leads to that place. */
  function InPlace(c: Expr): Expr {
    Or(And(Or(c, Expr.Constant(Bool(false))), Expr.Constant(Bool(true))), Expr.Constant(Bool(false)))
  }

  const LEAKING := InPlace(Expr.Constant(Num(1)))

  /** Its code: the jump at 2 brings the 1 to the end.  The jump at 6 leads there
      too; l is its link, as long as it waits. */
  function Leak(l: int): Code {
    [LoadK(0, 0), Test(0, true), Jmp(6), Jmp(1), Jmp(3), LoadBool(0, false, false), Jmp(l), LoadBool(0, false, true), LoadBool(0, true, false)]
  }

  /** The same before the last patch. */
  function Unpatched(l: int): Code {
    [LoadK(0, 0), TestSet(NO_REG, 0, true), Jmp(NO_JUMP), Jmp(1), Jmp(-3), LoadBool(0, false, false), Jmp(l), LoadBool(0, false, true), LoadBool(0, true, false)]
  }

  lemma PatchOneJump(c: Code, j: nat, d: int)
    requires j < |c| && c[j].Jmp? && !TakesValue(c, j)
    ensures Patched(c, {j}, d, NO_REG, d) == c[j := Jmp(d - (j + 1))]
  {
  }

  /** The last patch: both jumps of the list of true get their targets. */
  lemma PatchLeak(l: int)
    ensures Patched(Unpatched(l), {4, 2}, 9, 0, 8) == Leak(l) && List(Unpatched(l), 4, [4, 2])
  {
  }

  lemma TwoMembers(i: nat, j: nat)
    ensures Members([i, j]) == {i, j}
  {
    assert [i, j][0] == i && [i, j][1] == j;
  }

  /** The calls that the parser makes for LEAKING in a fresh function:
      luaK_goiffalse on 1, luaK_goiftrue on false, luaK_goiffalse on true, and
      exp2reg on the last false with what the lists hold by then. */
  method CompileLeaking(fs: FuncState) returns (ghost l: int)
    requires fs.code == [] && fs.jpc == NO_JUMP && fs.jl == [] && fs.k == []
    modifies fs
    ensures fs.code == Leak(l) && fs.k == [Num(1)] && fs.Here() == {6}
  {
    hide Patched, NeedsValue;
    var t := CompileLeakingOperand(fs);
    ghost var c := fs.code;
    PatchOneJump(c, 3, 5);
    MembersOne(3);
    var pc := fs.Emit1(LoadBool(0, false, false));
    assert fs.code == c[3 := Jmp(1)] + [LoadBool(0, false, false)];
    ListFrame(c, fs.code, t, [4, 2]);
    var need := fs.NeedValue(t, [4, 2]);
    var f; ghost var q;
    f, q, l := fs.JumpOn();
    c := fs.code;
    var pf, pt := fs.LoadBooleans(0);
    MembersOne(6);
    ListFrame(c, fs.code, f, q);
    fs.PatchToHere(f, q);
    assert fs.code == Unpatched(l);
    TwoMembers(4, 2);
    PatchLeak(l);
    fs.PatchListAux(t, [4, 2], |fs.code|, 0, pt);
  }

  /** As far as the first operand of the outer `or`. */
  method CompileLeakingOperand(fs: FuncState) returns (t: int)
    requires fs.code == [] && fs.jpc == NO_JUMP && fs.jl == [] && fs.k == []
    modifies fs
    ensures fs.code == [LoadK(0, 0), TestSet(NO_REG, 0, true), Jmp(NO_JUMP), Jmp(NO_JUMP), Jmp(-3)] || fs.code == [LoadK(0, 0), TestSet(NO_REG, 0, true), Jmp(NO_JUMP), Jmp(-5), Jmp(-3)]
    ensures t == 4 && List(fs.code, t, [4, 2]) && fs.k == [Num(1)]
    ensures List(fs.code, fs.jpc, fs.jl) && fs.jl == [3]
  {
    hide Patched;
    MembersNone();
    var i := fs.AddK(Num(1));
    PatchNone([], 0, NO_REG, 0);
    var pc := fs.Emit1(LoadK(0, i));
    PatchNone(fs.code, 1, NO_REG, 1);
    var t1 := fs.CondJump(TestSet(NO_REG, 0, true));
    assert fs.code == [LoadK(0, 0), TestSet(NO_REG, 0, true), Jmp(NO_JUMP)];
    var f1, q1, l1 := fs.JumpOn();
    ghost var c := fs.code;
    MembersOne(2);
    fs.PatchToHere(t1, [2]);
    var t2, q2, l2 := fs.JumpOn();
    t := t2;
    assert q2 == [4, 2] && l2 == -3 by {
      assert Link(fs.code, 4) == 2;
    }
    MembersOne(3);
    ListFrame(c, fs.code, f1, q1);
    fs.PatchToHere(f1, q1);
  }

  /** The value should be true, and the code gives 1: the jump that carries the 1 is
      caught by the true. */
  lemma Leaks(m: Machine, r: Regs, l: int)
    requires m.k != [] && m.k[0] == Num(1) && |r| == NO_REG
    ensures Eval(m, LEAKING, r) == Bool(true) && Given(m, [], LEAKING, r) == Num(1)
    ensures Caught(m, [], LEAKING, r, None) == Some((Bool(true), Num(1)))
    ensures Exec(m, Leak(l), {6}, 0, r) == Fall(r[0 := Num(1)])
  {
    var s := r[0 := Num(1)];
    assert Exec(m, Leak(l), {6}, 9, s) == Fall(s);
    assert Exec(m, Leak(l), {6}, 2, s) == Fall(s);
    assert Exec(m, Leak(l), {6}, 1, s) == Fall(s);
    var one := Or(Expr.Constant(Num(1)), Expr.Constant(Bool(false)));
    assert Eval(m, one, r) == Num(1);
    assert Eval(m, And(one, Expr.Constant(Bool(true))), r) == Bool(true);
    assert Course(m, [], one, r, None) == Out(true, Some(Num(1)));
    assert Course(m, [], And(one, Expr.Constant(Bool(true))), r, None) == End(Bool(true), Some(Num(1)));
  }

  lemma InPlaceClean(c: Expr)
    requires c.Relation? && Clean(c, false)
    ensures Clean(InPlace(c), false)
  {
    var no, yes := Expr.Constant(Bool(false)), Expr.Constant(Bool(true));
    var a := Or(c, no);
    assert Clean(a, false) && !HasValue(a, true) && Tail(a) == Some(Bool(false)) by { InnerClean(c, no); }
    OuterClean(a, yes);
    hide *;
    LastClean(And(a, yes), no);
    InPlaceIs(c);
  }

  lemma InnerClean(c: Expr, no: Expr)
    requires c.Relation? && Clean(c, false) && no == Expr.Constant(Bool(false))
    ensures var a := Or(c, no); Clean(a, false) && !HasValue(a, true) && Tail(a) == Some(Bool(false))
  {
    assert !HasValue(c, true) && BoolTail(c) && Tail(c) == None && !HasValue(no, true);
  }

  lemma OuterClean(a: Expr, yes: Expr)
    requires Clean(a, false) && !HasValue(a, true) && Tail(a) == Some(Bool(false)) && yes == Expr.Constant(Bool(true)) && !Waits(a, false)
    ensures var b := And(a, yes); Clean(b, false) && !Waits(b, false)
  {
    assert !WaitsBehind(a, false, true);
  }

  lemma LastClean(b: Expr, no: Expr)
    requires Clean(b, false) && !Waits(b, false) && no.Constant?
    ensures Clean(Or(b, no), false)
  {
  }

  lemma InPlaceIs(c: Expr)
    ensures InPlace(c) == Or(And(Or(c, Expr.Constant(Bool(false))), Expr.Constant(Bool(true))), Expr.Constant(Bool(false)))
  {
  }

  /** If c is a comparison, its jump carries no value and nothing is lost. */
  lemma NothingLost(m: Machine, k: seq<Value>, c: Expr, r: Regs)
    requires c.Relation? && Clean(c, false)
    ensures Given(m, k, InPlace(c), r) == Eval(m, InPlace(c), r)
  {
    hide *;
    InPlaceClean(c);
    CleanExact(m, k, InPlace(c), r, None);
    GivenIs(m, k, InPlace(c), r);
  }

  lemma GivenIs(m: Machine, k: seq<Value>, x: Expr, r: Regs)
    ensures Given(m, k, x, r) == Final(Course(m, k, x, r, None))
  {
  }

  lemma PrefixIn(q: seq<nat>, i: nat)
    requires i <= |q|
    ensures Members(q[..i]) <= Members(q)
  {
  }
}
