/** Runs of code that grows: how the jumps that wait are resolved, and what a run of
    the longer code has to do with one of the shorter (src/lcode.c:59-196,
    src/lvm.c:486-692). */
module Runs {
  import opened Seqs
  import opened Bytecode
  import opened JumpLists

  /** A run that takes the jump at j, by its test if it has one. */
  function Follow(m: Machine, code: Code, pending: set<nat>, j: nat, r: Regs): Outcome {
    if j >= |code| || !code[j].Jmp? then Stuck
    else
      var s := if j > 0 then AfterTest(code[j - 1], r) else r;
      if j in pending then Jump(j, s)
      else if j < j + 1 + code[j].sbx <= |code| then Exec(m, code, pending, j + 1 + code[j].sbx, s)
      else Stuck
  }

  /** Code is entered at its start, or by a jump that was to lead there. */
  function Enter(m: Machine, code: Code, pending: set<nat>, e: Option<nat>, start: nat, r: Regs): Outcome {
    match e
    case None => Exec(m, code, pending, start, r)
    case Some(j) => Follow(m, code, pending, j, r)
  }

  /** A run only leaves through jumps that wait, and there is no new register. */
  lemma {:induction false} JumpPending(m: Machine, code: Code, pending: set<nat>, pc: nat, r: Regs)
    ensures var o := Exec(m, code, pending, pc, r); (o.Jump? ==> o.j in pending && o.j < |code|) && (o != Stuck ==> |o.r| == |r|)
    decreases |code| - pc
  {
    if pc < |code| {
      if code[pc].Jmp? {
        if pc < pc + 1 + code[pc].sbx <= |code| { JumpPending(m, code, pending, pc + 1 + code[pc].sbx, r); }
      } else if code[pc].TMode() {
        if !Taken(m, code[pc], r) { JumpPending(m, code, pending, pc + 2, r); }
        else { JumpPending(m, code, pending, pc + 1, AfterTest(code[pc], r)); }
      } else {
        JumpPending(m, code, pending, NextPc(code[pc], pc), Step(m, code[pc], r));
      }
    }
  }

  lemma EnterPending(m: Machine, code: Code, pending: set<nat>, e: Option<nat>, start: nat, r: Regs)
    ensures var o := Enter(m, code, pending, e, start, r); (o.Jump? ==> o.j in pending && o.j < |code|) && (o != Stuck ==> |o.r| == |r|)
  {
    match e
    case None => JumpPending(m, code, pending, start, r);
    case Some(j) =>
      if j < |code| && code[j].Jmp? && j !in pending && j < j + 1 + code[j].sbx {
        JumpPending(m, code, pending, j + 1 + code[j].sbx, if j > 0 then AfterTest(code[j - 1], r) else r);
      }
  }

  // ----------------------------------------------------------------- longer code

  /** What may become of a test whose jump waited and whose register was not
      known. */
  predicate Loosened(i: Instr, i': Instr) {
    i.TestSet? && i.a == NO_REG && (i' == Test(i.b, i.c) || (i'.TestSet? && i'.b == i.b && i'.c == i.c))
  }

  /** code' is longer; the jumps of `wait` have got targets or still wait for
      them. */
  ghost predicate Extends(code: Code, wait: set<nat>, code': Code) {
    && |code| <= |code'|
    && (forall i: nat :: i < |code| ==> ExtendsAt(code, wait, code', i))
  }

  ghost predicate ExtendsAt(code: Code, wait: set<nat>, code': Code, i: nat)
    requires i < |code| <= |code'|
  {
    if i in wait then code[i].Jmp? && code'[i].Jmp?
    else code'[i] == code[i] || (i + 1 in wait && Loosened(code[i], code'[i]))
  }

  lemma ExtendsTransitive(a: Code, ha: set<nat>, b: Code, hb: set<nat>, c: Code)
    requires Extends(a, ha, b) && Extends(b, hb, c) && Complete(a) && AllOpen(a, ha)
    requires forall i: nat :: i in hb && i < |a| ==> i in ha
    ensures Extends(a, ha, c)
  {
    forall i: nat | i < |a|
      ensures ExtendsAt(a, ha, c, i)
    {
      assert ExtendsAt(a, ha, b, i) && ExtendsAt(b, hb, c, i);
      assert i + 1 in ha ==> Open(a, i + 1);
    }
  }

  /** Jumps of the shorter code stay what they are while others are patched. */
  lemma KeepOpen(code: Code, wait: set<nat>, code': Code, s: set<nat>)
    requires Extends(code, wait, code') && AllOpen(code, s) && s !! wait
    ensures AllOpen(code', s)
    ensures forall x: nat, r :: x in s ==> Carried(code', x, r) == Carried(code, x, r)
  {
    forall x: nat | x in s
      ensures Open(code', x) && TakesValue(code', x) == TakesValue(code, x) && (TakesValue(code, x) ==> code'[x - 1] == code[x - 1])
    {
      assert Open(code, x);
      assert ExtendsAt(code, wait, code', x);
      if x > 0 {
        assert ExtendsAt(code, wait, code', x - 1);
      }
    }
  }

  /** Goes on in longer code where a run of the shorter code ended, by a jump of
      `wait` too. */
  function Then(m: Machine, o: Outcome, code': Code, pending': set<nat>, wait: set<nat>, end: nat): Outcome {
    match o
    case Fall(r) => Exec(m, code', pending', end, r)
    case Jump(j, r) => if j in wait then Follow(m, code', pending', j, r) else o
    case Stuck => o
  }

  /** Which jumps of the shorter code wait, and which of the longer. */
  ghost predicate Waiting(code: Code, x: set<nat>, wait: set<nat>, code': Code, pending': set<nat>) {
    && Extends(code, wait, code') && x !! wait && Complete(code) && AllOpen(code, wait)
    && (forall i: nat :: i < |code| && i !in wait ==> (i in x <==> i in pending'))
  }

  /** One step at an instruction that is neither a test nor a jump. */
  lemma ExtPlain(m: Machine, code: Code, x: set<nat>, wait: set<nat>, code': Code, pending': set<nat>, pc: nat, r: Regs)
    requires Waiting(code, x, wait, code', pending') && pc < |code| && |r| == NO_REG
    requires !code[pc].TMode() && !code[pc].Jmp? && Exec(m, code, x + wait, pc, r) != Stuck
    ensures var n, w := NextPc(code[pc], pc), Step(m, code[pc], r);
            && n <= |code| && |w| == NO_REG
            && Exec(m, code, x + wait, pc, r) == Exec(m, code, x + wait, n, w)
            && Exec(m, code', pending', pc, r) == Exec(m, code', pending', n, w)
  {
    assert ExtendsAt(code, wait, code', pc);
  }

  /** One step at a jump. */
  lemma ExtJump(m: Machine, code: Code, x: set<nat>, wait: set<nat>, code': Code, pending': set<nat>, pc: nat, r: Regs)
    requires Waiting(code, x, wait, code', pending') && pc < |code| && |r| == NO_REG
    requires code[pc].Jmp? && Exec(m, code, x + wait, pc, r) != Stuck
    ensures if pc in x then Exec(m, code, x + wait, pc, r) == Jump(pc, r) == Exec(m, code', pending', pc, r) && pc !in wait
            else if pc in wait then Exec(m, code, x + wait, pc, r) == Jump(pc, r)
                                    && Exec(m, code', pending', pc, r) == Follow(m, code', pending', pc, r)
            else
              var n := pc + 1 + code[pc].sbx;
              && pc < n <= |code|
              && Exec(m, code, x + wait, pc, r) == Exec(m, code, x + wait, n, r)
              && Exec(m, code', pending', pc, r) == Exec(m, code', pending', n, r)
  {
    assert ExtendsAt(code, wait, code', pc);
    if pc > 0 {
      assert ExtendsAt(code, wait, code', pc - 1);
    }
  }

  /** One step at a test. */
  lemma ExtTest(m: Machine, code: Code, x: set<nat>, wait: set<nat>, code': Code, pending': set<nat>, pc: nat, r: Regs)
    requires Waiting(code, x, wait, code', pending') && pc < |code| && |r| == NO_REG
    requires code[pc].TMode() && Exec(m, code, x + wait, pc, r) != Stuck
    ensures pc + 1 < |code| && |AfterTest(code[pc], r)| == NO_REG
    ensures if !Taken(m, code[pc], r) then
              && pc + 2 <= |code|
              && Exec(m, code, x + wait, pc, r) == Exec(m, code, x + wait, pc + 2, r)
              && Exec(m, code', pending', pc, r) == Exec(m, code', pending', pc + 2, r)
            else if pc + 1 in x then
              && Exec(m, code, x + wait, pc, r) == Jump(pc + 1, AfterTest(code[pc], r)) == Exec(m, code', pending', pc, r)
              && pc + 1 !in wait
            else if pc + 1 in wait then
              && Exec(m, code, x + wait, pc, r) == Jump(pc + 1, r)
              && Exec(m, code', pending', pc, r) == Follow(m, code', pending', pc + 1, r)
            else
              && Exec(m, code, x + wait, pc, r) == Exec(m, code, x + wait, pc + 1, AfterTest(code[pc], r))
              && Exec(m, code', pending', pc, r) == Exec(m, code', pending', pc + 1, AfterTest(code[pc], r))
  {
    assert pc + 1 < |code|;
    assert ExtendsAt(code, wait, code', pc) && ExtendsAt(code, wait, code', pc + 1);
    assert pc in wait ==> Open(code, pc);
    assert pc + 1 in wait ==> Open(code, pc + 1);
  }

  /** Running longer code is running the shorter code first. */
  lemma {:induction false} ExecExt(m: Machine, code: Code, x: set<nat>, wait: set<nat>, code': Code, pending': set<nat>, pc: nat, r: Regs)
    requires Waiting(code, x, wait, code', pending') && pc <= |code| && |r| == NO_REG
    requires Exec(m, code, x + wait, pc, r) != Stuck
    ensures Exec(m, code', pending', pc, r) == Then(m, Exec(m, code, x + wait, pc, r), code', pending', wait, |code|)
    decreases |code| - pc
  {
    hide Waiting, Follow;
    if pc < |code| {
      if code[pc].TMode() {
        ExtTest(m, code, x, wait, code', pending', pc, r);
        if !Taken(m, code[pc], r) {
          ExecExt(m, code, x, wait, code', pending', pc + 2, r);
        } else if pc + 1 !in x && pc + 1 !in wait {
          ExecExt(m, code, x, wait, code', pending', pc + 1, AfterTest(code[pc], r));
        }
      } else if code[pc].Jmp? {
        ExtJump(m, code, x, wait, code', pending', pc, r);
        if pc !in x && pc !in wait {
          ExecExt(m, code, x, wait, code', pending', pc + 1 + code[pc].sbx, r);
        }
      } else {
        ExtPlain(m, code, x, wait, code', pending', pc, r);
        ExecExt(m, code, x, wait, code', pending', NextPc(code[pc], pc), Step(m, code[pc], r));
      }
    }
  }

  lemma EnterExt(m: Machine, code: Code, x: set<nat>, wait: set<nat>, code': Code, pending': set<nat>, e: Option<nat>, start: nat, r: Regs)
    requires Waiting(code, x, wait, code', pending') && start <= |code| && |r| == NO_REG
    requires Enter(m, code, x + wait, e, start, r) != Stuck
    ensures Enter(m, code', pending', e, start, r) == Then(m, Enter(m, code, x + wait, e, start, r), code', pending', wait, |code|)
  {
    match e
    case None => ExecExt(m, code, x, wait, code', pending', start, r);
    case Some(j) =>
      assert ExtendsAt(code, wait, code', j);
      if j > 0 { assert ExtendsAt(code, wait, code', j - 1); }
      var s := if j > 0 then AfterTest(code[j - 1], r) else r;
      if j in wait {
        assert Open(code, j);
      } else {
        if j > 0 && j - 1 in wait { assert Open(code, j - 1); }
        if j !in x { ExecExt(m, code, x, wait, code', pending', j + 1 + code[j].sbx, s); }
      }
  }

  // --------------------------------------------------------- one more instruction

  /** One more instruction: the jumps that led here get their target. */
  function Emit(code: Code, here: set<nat>, i: Instr): Code {
    Patched(code, here, |code|, NO_REG, |code|) + [i]
  }

  /** The jumps of `here` lead to the end of `code` in code'. */
  ghost predicate Lands(code: Code, here: set<nat>, code': Code) {
    && |code| <= |code'|
    && (forall i: nat :: i < |code| ==> LandsAt(code, here, code', i))
  }

  ghost predicate LandsAt(code: Code, here: set<nat>, code': Code, i: nat)
    requires i < |code| <= |code'|
  {
    if i in here then code[i].Jmp? && code'[i] == Jmp(|code| - (i + 1))
    else code'[i] == code[i] || (i + 1 in here && code[i].TestSet? && code[i].a == NO_REG && code'[i] == Test(code[i].b, code[i].c))
  }

  lemma EmitLands(code: Code, here: set<nat>, i: Instr)
    requires AllOpen(code, here)
    ensures Lands(code, here, Emit(code, here, i)) && Lands(code, here, Patched(code, here, |code|, NO_REG, |code|))
  {
    var c := Emit(code, here, i);
    forall x: nat | x < |code|
      ensures LandsAt(code, here, c, x) && LandsAt(code, here, Patched(code, here, |code|, NO_REG, |code|), x)
    {
      if x in here {
        assert Open(code, x);
      }
      if x + 1 in here {
        assert Open(code, x + 1);
      }
      assert c[x] == PatchAt(code, here, |code|, NO_REG, |code|, x);
    }
  }

  lemma LandsLonger(code: Code, here: set<nat>, c: Code, c': Code)
    requires Lands(code, here, c) && |c| <= |c'| && c == c'[..|c|]
    ensures Lands(code, here, c')
  {
    forall x: nat | x < |code|
      ensures LandsAt(code, here, c', x)
    {
      assert LandsAt(code, here, c, x) && c[x] == c'[x];
    }
  }

  lemma LandsExtends(code: Code, here: set<nat>, code': Code)
    requires Lands(code, here, code')
    ensures Extends(code, here, code')
  {
    forall x: nat | x < |code|
      ensures ExtendsAt(code, here, code', x)
    {
      assert LandsAt(code, here, code', x);
    }
  }

  /** The run has come to the end of the code, by itself or by a jump that is to lead
      there. */
  predicate Ends(o: Outcome, here: set<nat>) {
    o.Fall? || (o.Jump? && o.j in here)
  }

  /** A run of code that lands is a run of the shorter code, and then of the rest from
      its end. */
  lemma EnterLands(m: Machine, code: Code, x: set<nat>, here: set<nat>, code': Code, p: set<nat>, e: Option<nat>, start: nat, r: Regs)
    requires Lands(code, here, code') && x !! here && Complete(code) && AllOpen(code, here) && AllOpen(code, x)
    requires start <= |code| && |r| == NO_REG && forall i: nat :: i in p ==> i >= |code|
    requires Enter(m, code, x + here, e, start, r) != Stuck
    ensures var o := Enter(m, code, x + here, e, start, r);
            Enter(m, code', x + p, e, start, r) == if Ends(o, here) then Exec(m, code', x + p, |code|, o.r) else o
  {
    LandsExtends(code, here, code');
    assert Waiting(code, x, here, code', x + p);
    EnterPending(m, code, x + here, e, start, r);
    var o := Enter(m, code, x + here, e, start, r);
    if o.Jump? && o.j in here {
      FollowLanded(m, code, here, code', x + p, o.j, o.r);
    }
    hide *;
    EnterExt(m, code, x, here, code', x + p, e, start, r);
  }

  lemma FollowLanded(m: Machine, code: Code, here: set<nat>, code': Code, p: set<nat>, j: nat, r: Regs)
    requires Lands(code, here, code') && AllOpen(code, here) && j in here && j !in p && |r| == NO_REG
    ensures Follow(m, code', p, j, r) == Exec(m, code', p, |code|, r)
  {
    assert Open(code, j) && LandsAt(code, here, code', j);
    if j > 0 {
      assert LandsAt(code, here, code', j - 1);
      assert j - 1 in here ==> Open(code, j - 1);
    }
  }

  // ------------------------------------------------------------- the same outcome

  /** Only which jumps wait from pc on matters from there on. */
  lemma {:induction false} ExecForward(m: Machine, code: Code, p: set<nat>, p': set<nat>, pc: nat, r: Regs)
    requires forall i: nat :: i >= pc ==> (i in p <==> i in p')
    ensures Exec(m, code, p, pc, r) == Exec(m, code, p', pc, r)
    decreases |code| - pc
  {
    if pc < |code| {
      if code[pc].Jmp? {
        if pc < pc + 1 + code[pc].sbx <= |code| { ExecForward(m, code, p, p', pc + 1 + code[pc].sbx, r); }
      } else if code[pc].TMode() {
        if !Taken(m, code[pc], r) { ExecForward(m, code, p, p', pc + 2, r); }
        else { ExecForward(m, code, p, p', pc + 1, AfterTest(code[pc], r)); }
      } else {
        ExecForward(m, code, p, p', NextPc(code[pc], pc), Step(m, code[pc], r));
      }
    }
  }

  /** Without their values the tests decide as before. */
  lemma {:induction false} ExecUnset(m: Machine, code: Code, s: set<nat>, pending: set<nat>, pc: nat, r: Regs)
    requires AllOpen(code, s) && |r| == NO_REG
    ensures Exec(m, Unset(code, s), pending, pc, r) == Exec(m, code, pending, pc, r)
    decreases |code| - pc
  {
    if pc < |code| {
      var c := Unset(code, s);
      if pc + 1 in s { assert Open(code, pc + 1); }
      if pc in s { assert Open(code, pc); }
      if code[pc].Jmp? {
        if pc < pc + 1 + code[pc].sbx <= |code| { ExecUnset(m, code, s, pending, pc + 1 + code[pc].sbx, r); }
      } else if code[pc].TMode() {
        if !Taken(m, code[pc], r) { ExecUnset(m, code, s, pending, pc + 2, r); }
        else { ExecUnset(m, code, s, pending, pc + 1, AfterTest(code[pc], r)); }
      } else {
        ExecUnset(m, code, s, pending, NextPc(code[pc], pc), Step(m, code[pc], r));
      }
    }
  }

  lemma UnsetAt(code: Code, s: set<nat>, j: nat)
    requires AllOpen(code, s) && j < |code|
    ensures code[j].Jmp? ==> Unset(code, s)[j] == code[j]
    ensures j in s ==> !TakesValue(Unset(code, s), j)
    ensures j !in s && j > 0 ==> Unset(code, s)[j - 1] == code[j - 1]
    ensures j > 0 ==> forall r :: |r| == NO_REG ==> AfterTest(Unset(code, s)[j - 1], r) == AfterTest(code[j - 1], r)
  {
    if j in s { assert Open(code, j); }
    if j > 0 && j - 1 in s { assert Open(code, j - 1); }
  }

  lemma EnterUnset(m: Machine, code: Code, s: set<nat>, pending: set<nat>, e: Option<nat>, start: nat, r: Regs)
    requires AllOpen(code, s) && |r| == NO_REG
    ensures Enter(m, Unset(code, s), pending, e, start, r) == Enter(m, code, pending, e, start, r)
  {
    match e
    case None => ExecUnset(m, code, s, pending, start, r);
    case Some(j) =>
      if j < |code| {
        UnsetAt(code, s, j);
        var s1 := if j > 0 then AfterTest(code[j - 1], r) else r;
        assert |s1| == NO_REG;
        if code[j].Jmp? && j < j + 1 + code[j].sbx { ExecUnset(m, code, s, pending, j + 1 + code[j].sbx, s1); }
      }
  }

  /** Only the links of open jumps differ. */
  ghost predicate Relinked(code: Code, code': Code, s: set<nat>) {
    && |code'| == |code|
    && forall x: nat :: x < |code| ==> code'[x] == code[x] || (x in s && code[x].Jmp? && code'[x].Jmp?)
  }

  lemma {:induction false} ExecRelinked(m: Machine, code: Code, code': Code, pending: set<nat>, pc: nat, r: Regs)
    requires Relinked(code, code', pending)
    ensures Exec(m, code', pending, pc, r) == Exec(m, code, pending, pc, r)
    decreases |code| - pc
  {
    if pc < |code| {
      if code[pc].Jmp? {
        assert pc > 0 ==> code'[pc - 1].TMode() == code[pc - 1].TMode();
        if pc !in pending && pc < pc + 1 + code[pc].sbx <= |code| { ExecRelinked(m, code, code', pending, pc + 1 + code[pc].sbx, r); }
      } else if code[pc].TMode() {
        if !Taken(m, code[pc], r) { ExecRelinked(m, code, code', pending, pc + 2, r); }
        else { ExecRelinked(m, code, code', pending, pc + 1, AfterTest(code[pc], r)); }
      } else {
        ExecRelinked(m, code, code', pending, NextPc(code[pc], pc), Step(m, code[pc], r));
      }
    }
  }

  lemma EnterRelinked(m: Machine, code: Code, code': Code, pending: set<nat>, e: Option<nat>, start: nat, r: Regs)
    requires Relinked(code, code', pending)
    ensures Enter(m, code', pending, e, start, r) == Enter(m, code, pending, e, start, r)
  {
    match e
    case None => ExecRelinked(m, code, code', pending, start, r);
    case Some(j) =>
      if j < |code| {
        var s := if j > 0 then AfterTest(code[j - 1], r) else r;
        assert j > 0 ==> AfterTest(code'[j - 1], r) == AfterTest(code[j - 1], r);
        if code[j].Jmp? && j !in pending && j < j + 1 + code[j].sbx { ExecRelinked(m, code, code', pending, j + 1 + code[j].sbx, s); }
      }
  }

  lemma RelinkOpen(code: Code, code': Code, s: set<nat>, u: set<nat>)
    requires Relinked(code, code', s) && AllOpen(code, u)
    ensures AllOpen(code', u)
    ensures forall j: nat, r :: j <= |code| ==> Carried(code', j, r) == Carried(code, j, r)
  {
    forall x: nat | x in u
      ensures Open(code', x)
    {
      assert Open(code, x);
      assert x > 0 ==> code'[x - 1].TMode() == code[x - 1].TMode() && (code[x - 1].TMode() ==> code'[x - 1] == code[x - 1]);
    }
    forall j: nat | 1 <= j <= |code|
      ensures TakesValue(code', j) == TakesValue(code, j) && (TakesValue(code, j) ==> code'[j - 1] == code[j - 1])
    {
    }
  }

  lemma RelinkExtends(c0: Code, h0: set<nat>, code: Code, code': Code, s: set<nat>)
    requires Extends(c0, h0, code) && Relinked(code, code', s) && forall x: nat :: x in s && x < |c0| ==> x in h0
    ensures Extends(c0, h0, code')
  {
    forall i: nat | i < |c0|
      ensures ExtendsAt(c0, h0, code', i)
    {
      assert ExtendsAt(c0, h0, code, i);
    }
  }

  // ---------------------------------------------------------- a wider last LOADNIL

  /** No instruction but the last one leads to the end of the code. */
  ghost predicate Sealed(code: Code) {
    && (forall j: nat :: j < |code| && code[j].Jmp? ==> j + 1 + code[j].sbx < |code|)
    && (forall j: nat :: j < |code| && code[j].LoadBool? ==> code[j].skip ==> j + 2 < |code|)
    && (forall j: nat :: j + 1 < |code| && code[j].TMode() ==> code[j + 1].Jmp?)
  }

  /** luaK_nil has made the last LOADNIL wider, by registers that are not below f0. */
  ghost predicate Widens(c: Code, w: Code, f0: nat) {
    w == c ||
    (&& |w| == |c| > 0 && c[|c| - 1].LoadNil? && w[|c| - 1].LoadNil? && w == c[|c| - 1 := w[|c| - 1]]
     && w[|c| - 1].a == c[|c| - 1].a && c[|c| - 1].b <= w[|c| - 1].b && f0 <= c[|c| - 1].b + 1)
  }

  /** The wider instruction sets its registers at the end of every run. */
  lemma {:induction false} ExecWiden(m: Machine, c: Code, w: Code, p: set<nat>, pc: nat, r: Regs)
    requires Sealed(c) && |w| == |c| > 0 && c[|c| - 1].LoadNil? && w[|c| - 1].LoadNil? && w == c[|c| - 1 := w[|c| - 1]]
    requires w[|c| - 1].a == c[|c| - 1].a && c[|c| - 1].b <= w[|c| - 1].b && pc < |c|
    ensures Exec(m, w, p, pc, r) ==
            var o := Exec(m, c, p, pc, r);
            if o.Fall? then Fall(Nils(o.r, w[|c| - 1].a, w[|c| - 1].b)) else o
    decreases |c| - pc
  {
    assert pc + 1 < |c| && c[pc].TMode() ==> c[pc + 1].Jmp?;
    assert forall x: nat :: x + 1 < |c| ==> w[x] == c[x];
    if c[pc].Jmp? {
      if pc < pc + 1 + c[pc].sbx { ExecWiden(m, c, w, p, pc + 1 + c[pc].sbx, r); }
    } else if c[pc].TMode() {
      if !Taken(m, c[pc], r) { ExecWiden(m, c, w, p, pc + 2, r); }
      else { ExecWiden(m, c, w, p, pc + 1, AfterTest(c[pc], r)); }
    } else if pc + 1 < |c| {
      ExecWiden(m, c, w, p, NextPc(c[pc], pc), Step(m, c[pc], r));
    } else {
      WidenLast(m, c, w, p, r);
    }
  }

  lemma WidenLast(m: Machine, c: Code, w: Code, p: set<nat>, r: Regs)
    requires |w| == |c| > 0 && c[|c| - 1].LoadNil? && w[|c| - 1].LoadNil?
    requires w[|c| - 1].a == c[|c| - 1].a && c[|c| - 1].b <= w[|c| - 1].b
    ensures Exec(m, c, p, |c| - 1, r) == Fall(Nils(r, c[|c| - 1].a, c[|c| - 1].b))
    ensures Exec(m, w, p, |c| - 1, r) == Fall(Nils(Nils(r, c[|c| - 1].a, c[|c| - 1].b), w[|c| - 1].a, w[|c| - 1].b))
  {
    var s := Nils(r, c[|c| - 1].a, c[|c| - 1].b);
    var s' := Nils(r, w[|c| - 1].a, w[|c| - 1].b);
    assert Exec(m, c, p, |c|, s) == Fall(s) && Exec(m, w, p, |c|, s') == Fall(s');
    assert s' == Nils(s, w[|c| - 1].a, w[|c| - 1].b);
  }

  /** Jumps lead into the code, or to its end if that has been marked as a target. */
  ghost predicate Targets(code: Code, last: int) {
    && (forall j: nat :: j < |code| && code[j].Jmp? ==> j + 1 + code[j].sbx < |code| || j + 1 + code[j].sbx <= last)
    && (forall j: nat :: j < |code| && code[j].LoadBool? ==> code[j].skip ==> j + 2 < |code| || j + 2 <= last)
    && (forall j: nat :: j + 1 < |code| && code[j].TMode() ==> code[j + 1].Jmp?)
  }

  lemma TargetsSealed(code: Code, last: int)
    requires Targets(code, last) && last < |code|
    ensures Sealed(code)
  {
  }
}
