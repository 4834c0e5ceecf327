/** Lists of jumps whose target is not known yet, threaded through the jumps
    themselves (src/lcode.c:80-196). */
module JumpLists {
  import opened Seqs
  import opened Bytecode

  /** getjump: the next jump of a list. */
  function Link(code: Code, j: nat): int
    requires j < |code| && code[j].Jmp?
  {
    if code[j].sbx == NO_JUMP then NO_JUMP else j + 1 + code[j].sbx
  }

  ghost function NextIn(q: seq<nat>, i: nat): int {
    if i + 1 < |q| then q[i + 1] else NO_JUMP
  }

  ghost function HeadOf(q: seq<nat>): int {
    if q == [] then NO_JUMP else q[0]
  }

  /** Following the links from `list` runs through q, a jump at each place. */
  ghost predicate List(code: Code, list: int, q: seq<nat>) {
    && list == HeadOf(q) && NoDup(q)
    && (forall i :: 0 <= i < |q| ==> q[i] < |code| && code[q[i]].Jmp? && Link(code, q[i]) == NextIn(q, i))
  }

  ghost function Members(q: seq<nat>): set<nat> {
    set i | 0 <= i < |q| :: q[i]
  }

  lemma MembersIn(q: seq<nat>, x: nat)
    ensures x in Members(q) <==> x in q
  {
  }

  lemma ListFrame(code: Code, code': Code, list: int, q: seq<nat>)
    requires List(code, list, q) && forall x :: x in q ==> x < |code'| && code'[x] == code[x]
    ensures List(code', list, q)
  {
    assert forall i :: 0 <= i < |q| ==> q[i] in q;
  }

  // ------------------------------------------------------------------- patching

  /** getjumpcontrol. */
  function Control(code: Code, j: nat): (c: nat)
    requires j < |code|
    ensures c < |code|
  {
    if j >= 1 && code[j - 1].TMode() then j - 1 else j
  }

  /** What patchtestreg makes of a TESTSET. */
  function Retarget(i: Instr, reg: nat): Instr
    requires i.TestSet?
  {
    if reg != NO_REG && reg != i.b then TestSet(reg, i.b, i.c) else Test(i.b, i.c)
  }

  function PatchAt(code: Code, s: set<nat>, vtarget: int, reg: nat, dtarget: int, x: nat): Instr
    requires x < |code|
  {
    if x in s then Jmp((if TakesValue(code, x) then vtarget else dtarget) - (x + 1))
    else if x + 1 in s && code[x].TestSet? then Retarget(code[x], reg)
    else code[x]
  }

  /** All jumps of s get a target: those that are taken with a value vtarget, the
      others dtarget; the values go to reg. */
  function Patched(code: Code, s: set<nat>, vtarget: int, reg: nat, dtarget: int): (r: Code)
    ensures |r| == |code|
  {
    seq(|code|, x requires 0 <= x < |code| => PatchAt(code, s, vtarget, reg, dtarget, x))
  }

  /** Values are taken away: the tests only test. */
  function Unset(code: Code, s: set<nat>): (r: Code)
    ensures |r| == |code|
  {
    seq(|code|, x requires 0 <= x < |code| =>
      if x !in s && x + 1 in s && code[x].TestSet? then Test(code[x].b, code[x].c) else code[x])
  }

  /** One more jump is patched. */
  lemma PatchOne(code: Code, s: set<nat>, vtarget: int, reg: nat, dtarget: int, j: nat)
    requires j < |code| && code[j].Jmp? && j !in s && forall x: nat :: x in s ==> x < |code| && code[x].Jmp?
    ensures var c := Patched(code, s, vtarget, reg, dtarget);
            && c[j] == code[j] && TakesValue(c, j) == TakesValue(code, j)
            && Patched(code, s + {j}, vtarget, reg, dtarget) ==
               (if TakesValue(code, j) then c[j - 1 := Retarget(code[j - 1], reg)] else c)[j := Jmp((if TakesValue(code, j) then vtarget else dtarget) - (j + 1))]
            && (TakesValue(code, j) ==> c[j - 1] == code[j - 1])
  {
    var c := Patched(code, s, vtarget, reg, dtarget);
    var d := (if TakesValue(code, j) then c[j - 1 := Retarget(code[j - 1], reg)] else c)[j := Jmp((if TakesValue(code, j) then vtarget else dtarget) - (j + 1))];
    assert j + 1 in s ==> !code[j].TestSet?;
    assert TakesValue(code, j) ==> j - 1 !in s;
    forall x | 0 <= x < |code|
      ensures Patched(code, s + {j}, vtarget, reg, dtarget)[x] == d[x]
    {
    }
  }

  lemma UnsetOne(code: Code, s: set<nat>, j: nat)
    requires j < |code| && code[j].Jmp? && j !in s && forall x: nat :: x in s ==> x < |code| && code[x].Jmp?
    ensures var c := Unset(code, s);
            && c[j] == code[j] && TakesValue(c, j) == TakesValue(code, j)
            && Unset(code, s + {j}) == (if TakesValue(code, j) then c[j - 1 := Test(code[j - 1].b, code[j - 1].c)] else c)
            && (TakesValue(code, j) ==> c[j - 1] == code[j - 1])
  {
    var c := Unset(code, s);
    assert TakesValue(code, j) ==> j - 1 !in s;
  }

  lemma PatchNone(code: Code, vtarget: int, reg: nat, dtarget: int)
    ensures Patched(code, {}, vtarget, reg, dtarget) == code && Unset(code, {}) == code
  {
  }

  /** Two lists become one. */
  lemma Joined(code: Code, l1: int, p: seq<nat>, l2: int, q: seq<nat>)
    requires List(code, l1, p) && List(code, l2, q) && p != [] && q != [] && forall x :: x in p ==> x !in q
    ensures var last := p[|p| - 1];
            List(code[last := Jmp(l2 - (last + 1))], l1, p + q)
  {
    var last := p[|p| - 1];
    var c := code[last := Jmp(l2 - (last + 1))];
    assert last in p && q[0] in q;
    forall i | 0 <= i < |p + q|
      ensures (p + q)[i] < |c| && c[(p + q)[i]].Jmp? && Link(c, (p + q)[i]) == NextIn(p + q, i)
    {
      if i < |p| {
        assert p[i] in p && Link(code, p[i]) == NextIn(p, i);
      } else {
        assert q[i - |p|] in q && Link(code, q[i - |p|]) == NextIn(q, i - |p|);
      }
    }
    NoDupConcat(p, q);
  }

  lemma NoDupConcat(p: seq<nat>, q: seq<nat>)
    requires NoDup(p) && NoDup(q) && forall x :: x in p ==> x !in q
    ensures NoDup(p + q)
  {
    forall i, j | 0 <= i < j < |p + q|
      ensures (p + q)[i] != (p + q)[j]
    {
      if i < |p| <= j {
        assert p[i] in p && q[j - |p|] in q;
      }
    }
  }
}
