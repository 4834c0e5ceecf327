/** string.find, string.match, string.gmatch and string.gsub
    (src/lstrlib.c:36-40, src/lstrlib.c:444-680) on top of the matcher. */
module StringFind {
  import opened Seqs
  import opened Patterns
  import opened Match
  import opened MatchTrail

  // -------------------------------------------------------- what captures deliver

  datatype Value = Text(s: string) | Index(i: nat)

  datatype Pushed = Values(vs: seq<Value>) | PushError(fault: Fault)

  /** Every capture delivers its text, or the index it stands at. */
  function ValueOf(src: string, cap: Capture): (v: Value)
    requires CaptureOk(cap, |src|) && cap.len != UNFINISHED
  {
    if cap.len == POSITION then Index(cap.init + 1) else Text(src[cap.init..cap.init + cap.len])
  }

  predicate Finished(caps: seq<Capture>) {
    forall k :: 0 <= k < |caps| ==> caps[k].len != UNFINISHED
  }

  /** The values of a match: its captures, or without any the whole match. */
  function ValuesOf(src: string, caps: seq<Capture>, whole: seq<Value>): (r: Pushed)
    requires CapturesOk(caps, |src|)
  {
    if !Finished(caps) then PushError(UnfinishedCapture)
    else if caps == [] then Values(whole)
    else Values(seq(|caps|, k requires 0 <= k < |caps| => ValueOf(src, caps[k])))
  }

  /** From one configuration to the next, captures stay and new ones are opened. */
  ghost predicate Grows(caps: seq<Capture>, caps': seq<Capture>, s: nat) {
    && |caps| <= |caps'|
    && (forall k :: 0 <= k < |caps| ==> caps'[k].init == caps[k].init && (caps[k].len != UNFINISHED ==> caps'[k] == caps[k]))
    && (forall k :: |caps| <= k < |caps'| ==> s <= caps'[k].init)
  }

  /** Captures are numbered in the order of their left parentheses. */
  ghost predicate InOrder(caps: seq<Capture>) {
    forall i, j :: 0 <= i < j < |caps| ==> caps[i].init <= caps[j].init
  }

  lemma GrowsTransitive(a: seq<Capture>, b: seq<Capture>, c: seq<Capture>, s: nat, s': nat)
    requires Grows(a, b, s) && Grows(b, c, s') && s <= s'
    ensures Grows(a, c, s)
  {
  }

  lemma StepGrows(src: string, pat: string, c: Config, k: nat)
    requires Ok(src, pat, c) && InOrder(c.caps)
    requires var r := ChoicesAt(src, pat, c); r.Continue? && k < |r.next|
    ensures var d := ChoicesAt(src, pat, c).next[k]; Grows(c.caps, d.caps, c.s) && InOrder(d.caps)
  {
    hide InSet, InClass, MaxRun, Height;
  }

  /** A match keeps the captures it finds; those it adds lie inside the match and are
      numbered by their left parentheses. */
  lemma {:induction false} MatchCaptures(src: string, pat: string, c: Config)
    requires Ok(src, pat, c) && InOrder(c.caps) && First(src, pat, c).Found?
    ensures var o := First(src, pat, c);
      Grows(c.caps, o.caps, c.s) && InOrder(o.caps) && CapturesOk(o.caps, o.e) && c.s <= o.e <= |src|
    decreases |pat| - c.p
  {
    hide InSet, InClass, MaxRun, Height;
    var r := ChoicesAt(src, pat, c);
    hide ChoicesAt, InOrder, Grows, Ok;
    if r.Continue? {
      ListCaptures(src, pat, c, r.next, 0);
    } else {
      GrowsSame(c.caps, c.s);
    }
  }

  lemma GrowsSame(caps: seq<Capture>, s: nat)
    ensures Grows(caps, caps, s)
  {
  }

  lemma {:induction false} ListCaptures(src: string, pat: string, c: Config, next: seq<Config>, j: nat)
    requires Ok(src, pat, c) && InOrder(c.caps) && ChoicesAt(src, pat, c) == Continue(next) && j <= |next|
    ensures AllOk(src, pat, c.s, c.p, next[j..])
    ensures var o := FirstOf(src, pat, c.s, c.p, next[j..]); o.Found? ==> Grows(c.caps, o.caps, c.s) && InOrder(o.caps)
    decreases |pat| - c.p, |next| - j
  {
    hide ChoicesAt, InOrder, Grows, First;
    if j < |next| {
      FirstOfFrom(src, pat, c.s, c.p, next, j);
      StepGrows(src, pat, c, j);
      if First(src, pat, next[j]).Found? {
        MatchCaptures(src, pat, next[j]);
        GrowsTransitive(c.caps, next[j].caps, First(src, pat, next[j]).caps, c.s, next[j].s);
      }
      ListCaptures(src, pat, c, next, j + 1);
    }
  }

  // -------------------------------------------------------------------- searching

  /** What matching the pattern from p0 on at s gives. */
  ghost function MatchAt(src: string, pat: string, p0: nat, s: nat): (o: Outcome)
    requires s <= |src| && p0 <= |pat|
    ensures o.Found? ==> s <= o.e <= |src| && CapturesOk(o.caps, |src|)
  {
    var o := First(src, pat, Config(s, p0, []));
    assert o.Found? ==> CapturesOk(o.caps, o.e);
    o
  }

  /** s is the first place from init on where the pattern gives something. */
  ghost predicate Leftmost(src: string, pat: string, p0: nat, init: nat, s: nat) {
    && init <= s <= |src| && p0 <= |pat| && MatchAt(src, pat, p0, s) != NotFound
    && (forall k {:trigger MatchAt(src, pat, p0, k)} :: init <= k < s ==> MatchAt(src, pat, p0, k) == NotFound)
  }

  ghost predicate NoneFound(src: string, pat: string, p0: nat, init: nat, last: nat)
    requires p0 <= |pat| && last <= |src|
  {
    forall k {:trigger MatchAt(src, pat, p0, k)} :: init <= k <= last ==> MatchAt(src, pat, p0, k) == NotFound
  }

  predicate OccursAt(src: string, s2: string, k: int) {
    0 <= k && k + |s2| <= |src| && src[k..k + |s2|] == s2
  }

  function PosRelat(pos: int, len: nat): (r: nat) {
    var p := if pos < 0 then pos + len + 1 else pos;
    if p >= 0 then p else 0
  }

  /** Where a search starts: counted from one or from the end, kept inside. */
  function StartOf(pos: int, len: nat): (r: nat)
    ensures r <= len
    ensures 1 <= pos <= len + 1 ==> r == pos - 1
    ensures -(len as int) <= pos < 0 ==> r as int == len + pos
    ensures pos == 0 || pos < -(len as int) ==> r == 0
    ensures pos > len + 1 ==> r == len
  {
    var init := PosRelat(pos, len) - 1;
    if init < 0 then 0 else if init > len then len else init
  }

  const SPECIALS := {'^', '$', '*', '+', '?', '.', '(', '[', '%', '-'}

  /** strpbrk: some character before the first zero is special. */
  predicate HasSpecial(pat: string) {
    exists k :: 0 <= k < |pat| && pat[k] in SPECIALS && '\0' !in pat[..k]
  }

  lemma OccursParts(src: string, s2: string, k: int)
    requires s2 != []
    ensures OccursAt(src, s2, k) ==> src[k] == s2[0] && src[k + 1..k + |s2|] == s2[1..]
  {
    if OccursAt(src, s2, k) {
      assert src[k..k + |s2|] == [src[k]] + src[k + 1..k + |s2|];
    }
  }

  /** memchr on s[from..from + l]. */
  method MemChr(s: string, from: nat, c: char, l: nat) returns (r: Option<nat>)
    requires from + l <= |s|
    ensures r.Some? ==> from <= r.value < from + l && s[r.value] == c && c !in s[from..r.value]
    ensures r.None? ==> c !in s[from..from + l]
  {
    var i := from;
    while i < from + l
      invariant from <= i <= from + l && c !in s[from..i]
    {
      if s[i] == c {
        return Some(i);
      }
      i := i + 1;
    }
    r := None;
  }

  /** lmemfind: the first occurrence of s2 from init on. */
  method LMemFind(src: string, init: nat, s2: string) returns (r: Option<nat>)
    requires init <= |src|
    ensures r.Some? ==> init <= r.value && OccursAt(src, s2, r.value) && forall k :: init <= k < r.value ==> !OccursAt(src, s2, k)
    ensures r.None? ==> forall k :: init <= k ==> !OccursAt(src, s2, k)
  {
    var l1, l2 := |src| - init, |s2|;
    if l2 == 0 {
      return Some(init);
    }
    if l2 > l1 {
      return None;
    }
    l2 := l2 - 1;
    l1 := l1 - l2;
    var s1 := init;
    while l1 > 0
      invariant l1 >= 0 && init <= s1 && s1 + l1 + l2 == |src|
      invariant forall k :: init <= k < s1 ==> !OccursAt(src, s2, k)
      decreases l1
    {
      var c := MemChr(src, s1, s2[0], l1);
      forall k | s1 <= k < (if c.Some? then c.value else s1 + l1)
        ensures !OccursAt(src, s2, k)
      {
        OccursParts(src, s2, k);
      }
      if c.None? {
        break;
      }
      var i := c.value + 1;
      if src[i..i + l2] == s2[1..] {
        assert src[i - 1..i + l2] == [src[i - 1]] + src[i..i + l2];
        assert s2 == [s2[0]] + s2[1..];
        return Some(i - 1);
      }
      OccursParts(src, s2, i - 1);
      l1 := l1 - (i - s1);
      s1 := i;
    }
    r := None;
  }

  /** One try, without captures to start with. */
  method Attempt(ms: MatchState, p0: nat, s: nat) returns (r: Result)
    requires ms.Valid() && p0 <= |ms.pat| && s <= |ms.src|
    modifies ms, ms.capture
    ensures ms.Valid() && Agrees(MatchAt(ms.src, ms.pat, p0, s), r, ms.Captures(), [])
    ensures r.EndAt? ==> s <= r.e <= |ms.src| && CapturesOk(ms.Captures(), |ms.src|)
  {
    hide First;
    ms.level := 0;
    assert ms.Captures() == [];
    r := ms.Match(s, p0);
  }

  /** The search loop: try every start, or only the first one of an anchored pattern. */
  method Search(ms: MatchState, p0: nat, init: nat, anchor: bool) returns (s: nat, r: Result)
    requires ms.Valid() && p0 <= |ms.pat| && init <= |ms.src|
    modifies ms, ms.capture
    ensures ms.Valid()
    ensures r.NoMatch? ==> NoneFound(ms.src, ms.pat, p0, init, if anchor then init else |ms.src|)
    ensures !r.NoMatch? ==> Leftmost(ms.src, ms.pat, p0, init, s) && (anchor ==> s == init)
    ensures !r.NoMatch? ==> Agrees(MatchAt(ms.src, ms.pat, p0, s), r, ms.Captures(), [])
  {
    hide MatchAt, CapturesOk;
    s := init;
    while true
      invariant ms.Valid() && init <= s <= |ms.src| && (anchor ==> s == init)
      invariant forall k {:trigger MatchAt(ms.src, ms.pat, p0, k)} :: init <= k < s ==> MatchAt(ms.src, ms.pat, p0, k) == NotFound
      decreases |ms.src| - s
    {
      r := Attempt(ms, p0, s);
      if r != NoMatch {
        return;
      }
      if s >= |ms.src| || anchor {
        return;
      }
      s := s + 1;
    }
  }

  /** push_captures. */
  method PushCaptures(ms: MatchState, whole: seq<Value>) returns (r: Pushed)
    requires ms.Valid() && CapturesOk(ms.Captures(), |ms.src|)
    ensures r == ValuesOf(ms.src, ms.Captures(), whole)
  {
    if ms.level == 0 {
      return Values(whole);
    }
    var vs, i := [], 0;
    ghost var caps := ms.Captures();
    while i < ms.level
      invariant 0 <= i <= ms.level && |vs| == i && Finished(caps[..i])
      invariant forall k :: 0 <= k < i ==> caps[k].len != UNFINISHED && vs[k] == ValueOf(ms.src, caps[k])
    {
      var cap := ms.capture[i];
      assert cap == caps[i];
      if cap.len == UNFINISHED {
        return PushError(UnfinishedCapture);
      }
      vs := vs + [if cap.len == POSITION then Index(cap.init + 1) else Text(ms.src[cap.init..cap.init + cap.len])];
      i := i + 1;
    }
    assert vs == seq(|caps|, k requires 0 <= k < |caps| => ValueOf(ms.src, caps[k]));
    r := Values(vs);
  }

  datatype FindResult = Nil | Match(first: nat, last: nat, captures: seq<Value>) | FindError(fault: Fault)

  /** What string.find and string.match deliver for an outcome at s (string.match
      delivers the whole match when there is no capture). */
  ghost function Delivered(src: string, s: nat, o: Outcome, find: bool): FindResult
    requires o.Found? ==> s <= o.e <= |src| && CapturesOk(o.caps, |src|)
  {
    match o
    case NotFound => Nil
    case Error(fault) => FindError(fault)
    case Found(e, caps) =>
      match ValuesOf(src, caps, if find then [] else [Text(src[s..e])])
      case PushError(fault) => FindError(fault)
      case Values(vs) => Match(s + 1, e, vs)
  }

  // ------------------------------------------- what is delivered, by way of the match

  /** v is what capture number k delivers when a match takes the way t.  A position
      capture, which is written "()", delivers the place where it is opened, counted
      from one; any other one the text between the places where it is opened and
      closed. */
  ghost predicate Delivers(src: string, pat: string, t: seq<Config>, k: nat, v: Value) {
    exists i: nat :: i < |t| && Opens(pat, t[i], k) &&
      if At(pat, t[i].p + 1) == ')' then v == Index(t[i].s + 1)
      else exists j: nat :: i < j < |t| && Closes(pat, t[j], k) && t[i].s <= t[j].s <= |src| && v == Text(src[t[i].s..t[j].s])
  }

  ghost predicate DeliversAll(src: string, pat: string, t: seq<Config>, vs: seq<Value>) {
    forall k :: 0 <= k < |vs| ==> Delivers(src, pat, t, k, vs[k])
  }

  /** A match that takes the way t ends at e and has opened as many captures as there
      are in vs, and vs is what they deliver; `whole` stands for them where there is
      none. */
  ghost predicate ToldAlong(src: string, pat: string, t: seq<Config>, e: nat, vs: seq<Value>, whole: seq<Value>) {
    && Trail(src, pat, t) && t[|t| - 1].s == e
    && if t[|t| - 1].caps == [] then vs == whole
       else |vs| == |t[|t| - 1].caps| && DeliversAll(src, pat, t, vs)
  }

  /** And that is the way that the pattern, from p0 on, prefers at s. */
  ghost predicate Told(src: string, pat: string, p0: nat, s: nat, e: nat, vs: seq<Value>, whole: seq<Value>) {
    && s <= |src| && p0 <= |pat|
    && exists path: seq<nat> {:trigger Best(src, pat, Config(s, p0, []), path)} ::
         Best(src, pat, Config(s, p0, []), path) && ToldAlong(src, pat, Along(src, pat, Config(s, p0, []), path), e, vs, whole)
  }

  lemma DeliversValue(src: string, pat: string, t: seq<Config>, k: nat)
    requires Trail(src, pat, t) && t[0].caps == [] && k < |t[|t| - 1].caps|
    requires CaptureOk(t[|t| - 1].caps[k], |src|) && t[|t| - 1].caps[k].len != UNFINISHED
    ensures Delivers(src, pat, t, k, ValueOf(src, t[|t| - 1].caps[k]))
  {
    hide ChoicesAt, LastOpen, At, Leads;
    var n: nat := |t| - 1;
    var i := FindOpen(src, pat, t, k, n);
    if At(pat, t[i].p + 1) == ')' {
      Stays(src, pat, t, i + 1, n, k);
    } else {
      var j := FindClose(src, pat, t, i + 1, n, k);
      TrailGrows(src, pat, t, i, j);
    }
  }

  /** What a match delivers is told by the way it takes. */
  lemma MatchTold(src: string, pat: string, p0: nat, s: nat, whole: seq<Value>)
    requires s <= |src| && p0 <= |pat| && MatchAt(src, pat, p0, s).Found?
    ensures var o := MatchAt(src, pat, p0, s);
      var r := ValuesOf(src, o.caps, whole);
      r.Values? ==> Told(src, pat, p0, s, o.e, r.vs, whole)
  {
    hide First, Trail, Delivers, Opens, Closes, Along, Follow, ChoicesAt, ValueOf;
    var c := Config(s, p0, []);
    var o := First(src, pat, c);
    var path := FirstIsBest(src, pat, c);
    AlongTrail(src, pat, c, path);
    var t := Along(src, pat, c, path);
    var r := ValuesOf(src, o.caps, whole);
    if r.Values? && o.caps != [] {
      forall k | 0 <= k < |r.vs|
        ensures Delivers(src, pat, t, k, r.vs[k])
      {
        DeliversValue(src, pat, t, k);
      }
    }
  }

  /** A position that is delivered lies inside the match or just behind it. */
  lemma PositionInside(src: string, pat: string, t: seq<Config>, e: nat, vs: seq<Value>, whole: seq<Value>, k: nat)
    requires ToldAlong(src, pat, t, e, vs, whole) && t[0].caps == [] && t[|t| - 1].caps != []
    requires k < |vs| && vs[k].Index?
    ensures t[0].s + 1 <= vs[k].i <= e + 1
  {
    hide Leads, ChoicesAt, LastOpen, At;
    assert Delivers(src, pat, t, k, vs[k]);
    var i: nat :| i < |t| && Opens(pat, t[i], k) && vs[k] == Index(t[i].s + 1);
    TrailGrows(src, pat, t, 0, i);
    TrailGrows(src, pat, t, i, |t| - 1);
  }

  /** A position capture that the pattern begins with delivers the beginning of the
      match. */
  lemma PositionFirst(src: string, pat: string, t: seq<Config>, e: nat, vs: seq<Value>, whole: seq<Value>)
    requires ToldAlong(src, pat, t, e, vs, whole) && t[0].caps == [] && |t| > 1
    requires At(pat, t[0].p) == '(' && At(pat, t[0].p + 1) == ')'
    ensures vs != [] && vs[0] == Index(t[0].s + 1)
  {
    hide ChoicesAt, LastOpen, At;
    StepAt(src, pat, t, 0);
    OpensOne(src, pat, t[0], t[1]);
    TrailGrows(src, pat, t, 1, |t| - 1);
    assert Delivers(src, pat, t, 0, vs[0]);
    forall i: nat | i < |t| && Opens(pat, t[i], 0)
      ensures i == 0
    {
      if i > 0 {
        TrailGrows(src, pat, t, 1, i);
      }
    }
  }

  lemma ToldBounds(src: string, pat: string, p0: nat, s: nat, e: nat, vs: seq<Value>, whole: seq<Value>)
    requires Told(src, pat, p0, s, e, vs, whole) && forall k :: 0 <= k < |whole| ==> whole[k].Text?
    ensures forall k :: 0 <= k < |vs| && vs[k].Index? ==> s + 1 <= vs[k].i <= e + 1
    ensures At(pat, p0) == '(' && At(pat, p0 + 1) == ')' ==> vs != [] && vs[0] == Index(s + 1)
  {
    hide ToldAlong, ChoicesAt, At;
    var c := Config(s, p0, []);
    var path :| Best(src, pat, c, path) && ToldAlong(src, pat, Along(src, pat, c, path), e, vs, whole);
    var t := Along(src, pat, c, path);
    AlongView(src, pat, t, e, vs, whole);
    forall k | 0 <= k < |vs| && vs[k].Index?
      ensures s + 1 <= vs[k].i <= e + 1
    {
      PositionInside(src, pat, t, e, vs, whole, k);
    }
    if At(pat, p0) == '(' && At(pat, p0 + 1) == ')' {
      LongEnough(src, pat, c, path);
      PositionFirst(src, pat, t, e, vs, whole);
    }
  }

  lemma AlongView(src: string, pat: string, t: seq<Config>, e: nat, vs: seq<Value>, whole: seq<Value>)
    requires ToldAlong(src, pat, t, e, vs, whole)
    ensures t != [] && (t[|t| - 1].caps == [] ==> vs == whole)
  {
    hide Leads;
  }

  lemma LongEnough(src: string, pat: string, c: Config, path: seq<nat>)
    requires Ok(src, pat, c) && Follow(src, pat, c, path) != Nowhere && At(pat, c.p) == '(' && |c.caps| < MAXCAPTURES
    ensures |Along(src, pat, c, path)| > 1
  {
  }

  /** r is the first occurrence of pat from init on. */
  ghost predicate PlainResult(src: string, pat: string, init: nat, r: FindResult) {
    match r
    case Nil => forall k :: init <= k ==> !OccursAt(src, pat, k)
    case FindError(_) => false
    case Match(first, last, captures) =>
      && init < first && last == first - 1 + |pat| && captures == [] && OccursAt(src, pat, first - 1)
      && (forall k :: init <= k < first - 1 ==> !OccursAt(src, pat, k))
  }

  lemma SpecialFirst(pat: string)
    ensures At(pat, 0) == '(' || At(pat, 0) == '^' ==> HasSpecial(pat)
  {
    if At(pat, 0) == '(' || At(pat, 0) == '^' {
      assert pat[0] in SPECIALS && '\0' !in pat[..0];
    }
  }

  /** str_find_aux: a plain search when asked for or when the pattern has no special
      character; otherwise the leftmost place where the pattern matches. */
  method StrFindAux(src: string, pat: string, pos: int, plain: bool, find: bool) returns (r: FindResult)
    ensures find && (plain || !HasSpecial(pat)) ==> PlainResult(src, pat, StartOf(pos, |src|), r)
    ensures !(find && (plain || !HasSpecial(pat))) ==>
              var anchor := At(pat, 0) == '^';
              var p0 := if anchor then 1 else 0;
              var init := StartOf(pos, |src|);
              (r == Nil && NoneFound(src, pat, p0, init, if anchor then init else |src|)) ||
              exists s {:trigger Leftmost(src, pat, p0, init, s)} ::
                Leftmost(src, pat, p0, init, s) && (anchor ==> s == init) && r == Delivered(src, s, MatchAt(src, pat, p0, s), find)
    ensures r.Match? && !(find && (plain || !HasSpecial(pat))) ==>
              && 1 <= r.first <= r.last + 1 <= |src| + 1
              && Told(src, pat, if At(pat, 0) == '^' then 1 else 0, r.first - 1, r.last, r.captures,
                      if find then [] else [Text(src[r.first - 1..r.last])])
    ensures r.Match? ==> forall k :: 0 <= k < |r.captures| && r.captures[k].Index? ==> r.first <= r.captures[k].i <= r.last + 1
    ensures r.Match? && !(find && plain) ==>
              var p0 := if At(pat, 0) == '^' then 1 else 0;
              At(pat, p0) == '(' && At(pat, p0 + 1) == ')' ==> r.captures != [] && r.captures[0] == Index(r.first)
  {
    hide First, ValuesOf, CapturesOk, Told;
    SpecialFirst(pat);
    var init := StartOf(pos, |src|);
    if find && (plain || !HasSpecial(pat)) {
      var i := LMemFind(src, init, pat);
      return if i.Some? then Match(i.value + 1, i.value + |pat|, []) else Nil;
    }
    var anchor := At(pat, 0) == '^';
    var p0 := if anchor then 1 else 0;
    var ms := new MatchState(src, pat);
    var s, m := Search(ms, p0, init, anchor);
    if m == NoMatch {
      return Nil;
    }
    assert Leftmost(src, pat, p0, init, s);
    if m.Raised? {
      return FindError(m.fault);
    }
    var whole := if find then [] else [Text(src[s..m.e])];
    var vs := PushCaptures(ms, whole);
    r := if vs.PushError? then FindError(vs.fault) else Match(s + 1, m.e, vs.vs);
    if vs.Values? {
      MatchTold(src, pat, p0, s, whole);
      ToldBounds(src, pat, p0, s, m.e, vs.vs, whole);
    }
  }

  /** gmatch_aux: the next match from `from` on.  The search after it starts behind the
      match, or one further behind an empty one, so matches never overlap. */
  method GmatchAux(ms: MatchState, from: nat) returns (r: FindResult, newstart: nat)
    requires ms.Valid()
    modifies ms, ms.capture
    ensures ms.Valid() && from <= newstart
    ensures from > |ms.src| ==> r == Nil
    ensures from <= |ms.src| ==>
              (r == Nil && NoneFound(ms.src, ms.pat, 0, from, |ms.src|)) ||
              exists s {:trigger Leftmost(ms.src, ms.pat, 0, from, s)} ::
                Leftmost(ms.src, ms.pat, 0, from, s) && r == Delivered(ms.src, s, MatchAt(ms.src, ms.pat, 0, s), false)
    ensures r.Match? ==> from < r.first <= newstart && r.last <= newstart && newstart <= r.last + 1
    ensures r.Match? ==>
              && r.first <= r.last + 1 <= |ms.src| + 1
              && Told(ms.src, ms.pat, 0, r.first - 1, r.last, r.captures, [Text(ms.src[r.first - 1..r.last])])
    ensures r.Match? ==> forall k :: 0 <= k < |r.captures| && r.captures[k].Index? ==> r.first <= r.captures[k].i <= r.last + 1
    ensures r.Match? && At(ms.pat, 0) == '(' && At(ms.pat, 1) == ')' ==> r.captures != [] && r.captures[0] == Index(r.first)
  {
    hide First, ValuesOf, CapturesOk, Told;
    newstart := from;
    if from > |ms.src| {
      return Nil, newstart;
    }
    var s, m := Search(ms, 0, from, false);
    if m == NoMatch {
      return Nil, newstart;
    }
    assert Leftmost(ms.src, ms.pat, 0, from, s);
    if m.Raised? {
      return FindError(m.fault), newstart;
    }
    newstart := if m.e == s then m.e + 1 else m.e;
    var whole := [Text(ms.src[s..m.e])];
    var vs := PushCaptures(ms, whole);
    r := if vs.PushError? then FindError(vs.fault) else Match(s + 1, m.e, vs.vs);
    if vs.Values? {
      MatchTold(ms.src, ms.pat, 0, s, whole);
      ToldBounds(ms.src, ms.pat, 0, s, m.e, vs.vs, whole);
    }
  }

  // ------------------------------------------------------------------------- gsub

  /** A replacement string, or a function from the captures of a match, which may
      decline with nil or false. */
  datatype Replacement = ByString(news: string) | ByFunction(f: seq<Value> -> Option<string>)

  datatype Added = Piece(s: string) | AddError(fault: Fault)

  function Decimal(n: nat): (d: string) {
    var digit := ['0' + (n % 10) as char];
    if n < 10 then digit else Decimal(n / 10) + digit
  }

  function AsText(v: Value): string {
    if v.Text? then v.s else Decimal(v.i)
  }

  /** push_onecapture: capture number l of the match src[s..e]. */
  function OneCapture(src: string, caps: seq<Capture>, l: nat, s: nat, e: nat): (r: Added)
    requires s <= e <= |src| && CapturesOk(caps, |src|)
  {
    if l >= |caps| then if l == 0 then Piece(src[s..e]) else AddError(InvalidCaptureIndex)
    else if caps[l].len == UNFINISHED then AddError(UnfinishedCapture)
    else Piece(AsText(ValueOf(src, caps[l])))
  }

  function Prepend(a: string, r: Added): Added {
    if r.AddError? then r else Piece(a + r.s)
  }

  /** The replacement string from i on, its escapes replaced. */
  function Expanded(news: string, i: nat, src: string, caps: seq<Capture>, s: nat, e: nat): (r: Added)
    requires s <= e <= |src| && CapturesOk(caps, |src|)
    decreases if i < |news| then |news| - i else 0
  {
    if i >= |news| then Piece("")
    else if news[i] != ESC then Prepend([news[i]], Expanded(news, i + 1, src, caps, s, e))
    else
      var c := At(news, i + 1);
      var rest := Expanded(news, i + 2, src, caps, s, e);
      if !IsDigit(c) then Prepend([c], rest)
      else if c == '0' then Prepend(src[s..e], rest)
      else
        var one := OneCapture(src, caps, c as int - '1' as int, s, e);
        if one.AddError? then one else Prepend(one.s, rest)
  }

  /** add_value: what replaces the match src[s..e]. */
  function Replaced(rep: Replacement, src: string, caps: seq<Capture>, s: nat, e: nat): (r: Added)
    requires s <= e <= |src| && CapturesOk(caps, |src|)
  {
    match rep
    case ByString(news) => Expanded(news, 0, src, caps, s, e)
    case ByFunction(f) =>
      match ValuesOf(src, caps, [Text(src[s..e])])
      case PushError(fault) => AddError(fault)
      case Values(vs) => Piece(match f(vs) case None => src[s..e] case Some(t) => t)
  }

  method AddValue(ms: MatchState, rep: Replacement, s: nat, e: nat) returns (r: Added)
    requires ms.Valid() && s <= e <= |ms.src| && CapturesOk(ms.Captures(), |ms.src|)
    ensures r == Replaced(rep, ms.src, ms.Captures(), s, e)
  {
    hide ValuesOf, CapturesOk, OneCapture;
    match rep
    case ByFunction(f) =>
      var vs := PushCaptures(ms, [Text(ms.src[s..e])]);
      if vs.PushError? {
        return AddError(vs.fault);
      }
      var t := f(vs.vs);
      return Piece(if t.None? then ms.src[s..e] else t.value);
    case ByString(news) =>
      var b, i := "", 0;
      ghost var caps := ms.Captures();
      ghost var all := Expanded(news, 0, ms.src, caps, s, e);
      while i < |news|
        invariant all == Prepend(b, Expanded(news, i, ms.src, caps, s, e))
        decreases |news| - i
      {
        ghost var b0, i0 := b, i;
        if news[i] != ESC {
          b := b + [news[i]];
        } else {
          i := i + 1;
          var c := At(news, i);
          if !IsDigit(c) {
            b := b + [c];
          } else if c == '0' {
            b := b + ms.src[s..e];
          } else {
            var one := PushOneCapture(ms, c as int - '1' as int, s, e);
            if one.AddError? {
              return one;
            }
            b := b + one.s;
          }
        }
        i := i + 1;
        ghost var rest := Expanded(news, i, ms.src, caps, s, e);
        assert b == b0 + b[|b0|..];
        PrependTwice(b0, b[|b0|..], rest);
      }
      r := Piece(b);
  }

  lemma PrependTwice(a: string, b: string, r: Added)
    ensures Prepend(a, Prepend(b, r)) == Prepend(a + b, r)
  {
    if r.Piece? {
      assert a + (b + r.s) == (a + b) + r.s;
    }
  }

  method PushOneCapture(ms: MatchState, l: nat, s: nat, e: nat) returns (r: Added)
    requires ms.Valid() && s <= e <= |ms.src| && CapturesOk(ms.Captures(), |ms.src|)
    ensures r == OneCapture(ms.src, ms.Captures(), l, s, e)
  {
    if l >= ms.level {
      return if l == 0 then Piece(ms.src[s..e]) else AddError(InvalidCaptureIndex);
    }
    var cap := ms.capture[l];
    assert cap == ms.Captures()[l];
    if cap.len == UNFINISHED {
      return AddError(UnfinishedCapture);
    }
    r := Piece(if cap.len == POSITION then Decimal(cap.init + 1) else ms.src[cap.init..cap.init + cap.len]);
  }

  /** The number that decimal digits denote. */
  function Numeral(d: string): int {
    if d == [] then 0 else 10 * Numeral(d[..|d| - 1]) + (d[|d| - 1] as int - 48)
  }

  /** d are the decimal digits of n, without a zero in front. */
  predicate Denotes(d: string, n: nat) {
    && d != [] && (forall k :: 0 <= k < |d| ==> 48 <= d[k] as int <= 57)
    && (|d| > 1 ==> d[0] as int != 48) && Numeral(d) == n
  }

  /** A position in a replacement is its decimal digits. */
  lemma {:induction false} DecimalDigits(n: nat)
    ensures Denotes(Decimal(n), n)
  {
    var d := Decimal(n);
    if n >= 10 {
      DecimalDigits(n / 10);
      assert d[..|d| - 1] == Decimal(n / 10);
      LeadingDigit(n / 10);
    } else {
      assert d[..0] == [];
    }
  }

  lemma {:induction false} LeadingDigit(n: nat)
    ensures Decimal(n) != [] && (n > 0 ==> Decimal(n)[0] as int != 48)
  {
    if n >= 10 {
      LeadingDigit(n / 10);
    }
  }

  /** What capture number k puts into a replacement for the match at s. */
  ghost predicate Inserts(src: string, pat: string, p0: nat, s: nat, k: nat, text: string) {
    && s <= |src| && p0 <= |pat|
    && exists path: seq<nat> {:trigger Best(src, pat, Config(s, p0, []), path)} ::
         && Best(src, pat, Config(s, p0, []), path)
         && var t := Along(src, pat, Config(s, p0, []), path);
         && exists v: Value :: Delivers(src, pat, t, k, v) && if v.Text? then text == v.s else Denotes(text, v.i)
  }

  lemma OneInserts(src: string, pat: string, p0: nat, s: nat, k: nat)
    requires s <= |src| && p0 <= |pat| && MatchAt(src, pat, p0, s).Found?
    requires k < |MatchAt(src, pat, p0, s).caps| && MatchAt(src, pat, p0, s).caps[k].len != UNFINISHED
    ensures Inserts(src, pat, p0, s, k, AsText(ValueOf(src, MatchAt(src, pat, p0, s).caps[k])))
  {
    hide First, Trail, Delivers, Along, Follow, ChoicesAt, ValueOf;
    var c := Config(s, p0, []);
    var path := FirstIsBest(src, pat, c);
    AlongTrail(src, pat, c, path);
    var t := Along(src, pat, c, path);
    DeliversValue(src, pat, t, k);
    var v := ValueOf(src, MatchAt(src, pat, p0, s).caps[k]);
    if v.Index? {
      DecimalDigits(v.i);
    }
    var text := AsText(v);
    assert Best(src, pat, c, path) && Delivers(src, pat, t, k, v);
  }

  lemma {:induction false} ExpandedFrom(a: string, rest: string, i: nat, src: string, caps: seq<Capture>, s: nat, e: nat)
    requires s <= e <= |src| && CapturesOk(caps, |src|) && i <= |rest|
    ensures Expanded(a + rest, |a| + i, src, caps, s, e) == Expanded(rest, i, src, caps, s, e)
    decreases |rest| - i
  {
    hide CapturesOk, OneCapture;
    var news := a + rest;
    if i < |rest| {
      assert news[|a| + i] == rest[i] && At(news, |a| + i + 1) == At(rest, i + 1);
      ExpandedFrom(a, rest, i + 1, src, caps, s, e);
      if i + 2 <= |rest| {
        ExpandedFrom(a, rest, i + 2, src, caps, s, e);
      }
    }
  }

  /** The replacement string, piece by piece: a character that is no "%" stands for
      itself; so does one behind "%" that is no digit; "%0" is the match; and "%1" to
      "%9" are what the captures deliver, where "%1" is the match when there is no
      capture. */
  lemma ReplacedText(src: string, pat: string, p0: nat, s: nat, c: char, rest: string)
    requires s <= |src| && p0 <= |pat| && MatchAt(src, pat, p0, s).Found?
    ensures var o := MatchAt(src, pat, p0, s);
      var others := Replaced(ByString(rest), src, o.caps, s, o.e);
      && Replaced(ByString(""), src, o.caps, s, o.e) == Piece("")
      && (c as int != 37 ==> Replaced(ByString([c] + rest), src, o.caps, s, o.e) == Prepend([c], others))
      && var escaped := Replaced(ByString(['%', c] + rest), src, o.caps, s, o.e);
         && (!(48 <= c as int <= 57) ==> escaped == Prepend([c], others))
         && (c as int == 48 ==> escaped == Prepend(src[s..o.e], others))
         && (49 <= c as int <= 57 ==>
               var k := c as int - 49;
               if k >= |o.caps| then escaped == if k == 0 then Prepend(src[s..o.e], others) else AddError(InvalidCaptureIndex)
               else if o.caps[k].len == UNFINISHED then escaped == AddError(UnfinishedCapture)
               else exists text {:trigger Inserts(src, pat, p0, s, k, text)} ::
                 Inserts(src, pat, p0, s, k, text) && escaped == Prepend(text, others))
  {
    hide MatchAt, CapturesOk, Inserts, ValueOf;
    var o := MatchAt(src, pat, p0, s);
    ExpandedFrom([c], rest, 0, src, o.caps, s, o.e);
    ExpandedFrom(['%', c], rest, 0, src, o.caps, s, o.e);
    var k := c as int - 49;
    if 49 <= c as int <= 57 && k < |o.caps| && o.caps[k].len != UNFINISHED {
      OneInserts(src, pat, p0, s, k);
    }
  }

  /** A function gets what the match delivers, and may decline. */
  lemma ReplacedByFunction(src: string, pat: string, p0: nat, s: nat, f: seq<Value> -> Option<string>)
    requires s <= |src| && p0 <= |pat| && MatchAt(src, pat, p0, s).Found?
    ensures var o := MatchAt(src, pat, p0, s);
      var r := Replaced(ByFunction(f), src, o.caps, s, o.e);
      r.Piece? ==> exists vs {:trigger Told(src, pat, p0, s, o.e, vs, [Text(src[s..o.e])])} ::
        Told(src, pat, p0, s, o.e, vs, [Text(src[s..o.e])]) && r.s == if f(vs).Some? then f(vs).value else src[s..o.e]
  {
    hide MatchAt, CapturesOk, Told;
    MatchTold(src, pat, p0, s, [Text(src[s..MatchAt(src, pat, p0, s).e])]);
  }

  datatype GsubResult = Gsubbed(text: string, n: int) | GsubError(fault: Fault)

  function After(a: string, r: GsubResult): GsubResult {
    if r.GsubError? then r else Gsubbed(a + r.text, r.n)
  }

  /** One round of gsub at s: what it adds, how many replacements it makes, and whether
      and where it goes on. */
  datatype Round = Wrong(fault: Fault) | Last(d: string, k: nat) | More(d: string, s: nat, k: nat)

  ghost function RoundAt(src: string, pat: string, p0: nat, rep: Replacement, s: nat): (r: Round)
    requires s <= |src| && p0 <= |pat|
    ensures r.More? ==> s < r.s <= |src|
  {
    match MatchAt(src, pat, p0, s)
    case Error(fault) => Wrong(fault)
    case NotFound => if s < |src| then More([src[s]], s + 1, 0) else Last("", 0)
    case Found(e, caps) =>
      match Replaced(rep, src, caps, s, e)
      case AddError(fault) => Wrong(fault)
      case Piece(piece) =>
        if e > s then More(piece, e, 1)
        else if s < |src| then More(piece + [src[s]], s + 1, 1)
        else Last(piece, 1)
  }

  /** What gsub makes of src[s..], n replacements done. */
  ghost function GsubFrom(src: string, pat: string, p0: nat, anchor: bool, max: int, rep: Replacement, s: nat, n: int): (r: GsubResult)
    requires s <= |src| && p0 <= |pat|
    decreases |src| - s
  {
    if n >= max then Gsubbed(src[s..], n)
    else
      match RoundAt(src, pat, p0, rep, s)
      case Wrong(fault) => GsubError(fault)
      case Last(d, k) => Gsubbed(d, n + k)
      case More(d, s', k) =>
        After(d, if anchor then Gsubbed(src[s'..], n + k) else GsubFrom(src, pat, p0, anchor, max, rep, s', n + k))
  }

  lemma AfterTwice(a: string, b: string, r: GsubResult)
    ensures After(a, After(b, r)) == After(a + b, r)
  {
    if r.Gsubbed? {
      assert a + (b + r.text) == (a + b) + r.text;
    }
  }

  method GsubRound(ms: MatchState, p0: nat, rep: Replacement, s: nat) returns (r: Round)
    requires ms.Valid() && p0 <= |ms.pat| && s <= |ms.src|
    modifies ms, ms.capture
    ensures ms.Valid() && r == RoundAt(ms.src, ms.pat, p0, rep, s)
  {
    hide MatchAt, CapturesOk, Replaced;
    var m := Attempt(ms, p0, s);
    if m.Raised? {
      return Wrong(m.fault);
    }
    var b := "";
    if m.EndAt? {
      var piece := AddValue(ms, rep, s, m.e);
      if piece.AddError? {
        return Wrong(piece.fault);
      }
      b := piece.s;
    }
    var k := if m.EndAt? then 1 else 0;
    if m.EndAt? && m.e > s {
      r := More(b, m.e, k);
    } else if s < |ms.src| {
      assert "" + [ms.src[s]] == [ms.src[s]];
      r := More(b + [ms.src[s]], s + 1, k);
    } else {
      r := Last(b, k);
    }
  }

  /** str_gsub. */
  method StrGsub(src: string, pat: string, rep: Replacement, max: int) returns (r: GsubResult)
    ensures var anchor := At(pat, 0) == '^';
      r == GsubFrom(src, pat, if anchor then 1 else 0, anchor, max, rep, 0, 0)
  {
    hide RoundAt;
    var anchor := At(pat, 0) == '^';
    var p0 := if anchor then 1 else 0;
    var ms := new MatchState(src, pat);
    var s, n, b := 0, 0, "";
    while n < max
      invariant ms.Valid() && ms.src == src && ms.pat == pat && fresh(ms) && fresh(ms.capture)
      invariant 0 <= s <= |src|
      invariant GsubFrom(src, pat, p0, anchor, max, rep, 0, 0) == After(b, GsubFrom(src, pat, p0, anchor, max, rep, s, n))
      decreases |src| - s
    {
      var round := GsubRound(ms, p0, rep, s);
      match round
      case Wrong(fault) => return GsubError(fault);
      case Last(d, k) => return Gsubbed(b + d, n + k);
      case More(d, s', k) =>
        AfterTwice(b, d, if anchor then Gsubbed(src[s'..], n + k) else GsubFrom(src, pat, p0, anchor, max, rep, s', n + k));
        b, s, n := b + d, s', n + k;
        if anchor {
          break;
        }
    }
    r := Gsubbed(b + src[s..], n);
  }

  // what gsub has done, without its loop

  /** A match and what replaces it. */
  datatype Hit = Hit(s: nat, e: nat, piece: string)

  ghost predicate IsHit(src: string, pat: string, p0: nat, rep: Replacement, h: Hit)
    requires p0 <= |pat|
  {
    && h.s <= h.e <= |src| && MatchAt(src, pat, p0, h.s).Found? && MatchAt(src, pat, p0, h.s).e == h.e
    && Replaced(rep, src, MatchAt(src, pat, p0, h.s).caps, h.s, h.e) == Piece(h.piece)
  }

  /** hits are the leftmost matches from s on, each searched for behind the one
      before and one further on if that was empty, as many as there are or as
      `left` allows; when anchored, the one at s only. */
  ghost predicate HitsFrom(src: string, pat: string, p0: nat, rep: Replacement, anchor: bool, s: nat, hits: seq<Hit>, left: int)
    requires s <= |src| && p0 <= |pat|
    decreases |hits|
  {
    if left <= 0 then hits == []
    else if hits == [] then NoneFound(src, pat, p0, s, if anchor then s else |src|)
    else
      var h := hits[0];
      && s <= h.s && IsHit(src, pat, p0, rep, h)
      && if anchor then h.s == s && |hits| == 1
         else
           && (s < h.s ==> NoneFound(src, pat, p0, s, h.s - 1))
           && var t := if h.e > h.s then h.e else h.s + 1;
              if t <= |src| then HitsFrom(src, pat, p0, rep, anchor, t, hits[1..], left - 1) else |hits| == 1
  }

  /** src[s..] with the hits replaced. */
  function Spliced(src: string, s: nat, hits: seq<Hit>): string
    requires s <= |src|
    decreases |hits|
  {
    if hits == [] || !(s <= hits[0].s <= hits[0].e <= |src|) then src[s..]
    else src[s..hits[0].s] + hits[0].piece + Spliced(src, hits[0].e, hits[1..])
  }

  lemma SplicedOn(src: string, s: nat, hits: seq<Hit>)
    requires s < |src| && (hits != [] ==> s < hits[0].s <= hits[0].e <= |src|)
    ensures Spliced(src, s, hits) == [src[s]] + Spliced(src, s + 1, hits)
  {
    if hits == [] {
      assert src[s..] == [src[s]] + src[s + 1..];
    } else {
      var h := hits[0];
      assert src[s..h.s] == [src[s]] + src[s + 1..h.s];
      var t := h.piece + Spliced(src, h.e, hits[1..]);
      assert Spliced(src, s, hits) == src[s..h.s] + t && Spliced(src, s + 1, hits) == src[s + 1..h.s] + t;
      assert [src[s]] + (src[s + 1..h.s] + t) == ([src[s]] + src[s + 1..h.s]) + t;
    }
  }

  lemma HitsLater(src: string, pat: string, p0: nat, rep: Replacement, s: nat, hits: seq<Hit>, left: int)
    requires s < |src| && p0 <= |pat| && MatchAt(src, pat, p0, s) == NotFound && HitsFrom(src, pat, p0, rep, false, s + 1, hits, left)
    ensures HitsFrom(src, pat, p0, rep, false, s, hits, left)
    ensures hits != [] ==> s < hits[0].s <= hits[0].e <= |src|
  {
    hide MatchAt, Replaced;
  }

  lemma HitsBounds(src: string, pat: string, p0: nat, rep: Replacement, s: nat, hits: seq<Hit>, left: int)
    requires s <= |src| && p0 <= |pat| && HitsFrom(src, pat, p0, rep, false, s, hits, left)
    ensures hits != [] ==> s <= hits[0].s <= hits[0].e <= |src|
  {
    hide MatchAt, Replaced;
  }

  lemma HitFirst(src: string, pat: string, p0: nat, rep: Replacement, h: Hit, rest: seq<Hit>, left: int)
    requires p0 <= |pat| && IsHit(src, pat, p0, rep, h) && left > 0
    requires var t := if h.e > h.s then h.e else h.s + 1;
             if t <= |src| then HitsFrom(src, pat, p0, rep, false, t, rest, left - 1) else rest == []
    ensures HitsFrom(src, pat, p0, rep, false, h.s, [h] + rest, left)
    ensures Spliced(src, h.s, [h] + rest) == h.piece + Spliced(src, h.e, rest)
  {
    hide MatchAt, Replaced;
    assert ([h] + rest)[1..] == rest;
    assert src[h.s..h.s] + h.piece == h.piece;
  }

  /** One round, taken apart. */
  lemma RoundView(src: string, pat: string, p0: nat, rep: Replacement, s: nat)
    requires s <= |src| && p0 <= |pat| && !RoundAt(src, pat, p0, rep, s).Wrong?
    ensures MatchAt(src, pat, p0, s) == NotFound ==>
              RoundAt(src, pat, p0, rep, s) == if s < |src| then More([src[s]], s + 1, 0) else Last("", 0)
    ensures MatchAt(src, pat, p0, s) != NotFound ==>
              && var h := HitAt(src, pat, p0, rep, s);
              && h.s == s <= h.e && IsHit(src, pat, p0, rep, h)
              && RoundAt(src, pat, p0, rep, s) == if h.e > s then More(h.piece, h.e, 1)
                                                 else if s < |src| then More(h.piece + [src[s]], s + 1, 1)
                                                 else Last(h.piece, 1)
  {
    hide MatchAt, Replaced;
  }

  ghost function HitAt(src: string, pat: string, p0: nat, rep: Replacement, s: nat): Hit
    requires s <= |src| && p0 <= |pat|
  {
    match MatchAt(src, pat, p0, s)
    case Found(e, caps) => Hit(s, e, match Replaced(rep, src, caps, s, e) case Piece(piece) => piece case _ => "")
    case _ => Hit(s, s, "")
  }

  lemma GsubStep(src: string, pat: string, p0: nat, anchor: bool, max: int, rep: Replacement, s: nat, n: int)
    requires s <= |src| && p0 <= |pat| && GsubFrom(src, pat, p0, anchor, max, rep, s, n).Gsubbed?
    ensures n >= max ==> GsubFrom(src, pat, p0, anchor, max, rep, s, n) == Gsubbed(src[s..], n)
    ensures n < max ==>
              && var r := RoundAt(src, pat, p0, rep, s);
              && !r.Wrong?
              && (r.Last? ==> GsubFrom(src, pat, p0, anchor, max, rep, s, n) == Gsubbed(r.d, n + r.k))
              && (r.More? && anchor ==> GsubFrom(src, pat, p0, anchor, max, rep, s, n) == Gsubbed(r.d + src[r.s..], n + r.k))
              && (r.More? && !anchor ==>
                    && GsubFrom(src, pat, p0, anchor, max, rep, r.s, n + r.k).Gsubbed?
                    && GsubFrom(src, pat, p0, anchor, max, rep, s, n).text == r.d + GsubFrom(src, pat, p0, anchor, max, rep, r.s, n + r.k).text
                    && GsubFrom(src, pat, p0, anchor, max, rep, s, n).n == GsubFrom(src, pat, p0, anchor, max, rep, r.s, n + r.k).n)
  {
    hide RoundAt;
  }

  lemma NoHits(src: string, pat: string, p0: nat, rep: Replacement, anchor: bool, s: nat, left: int)
    requires s <= |src| && p0 <= |pat|
    requires left <= 0 || (MatchAt(src, pat, p0, s) == NotFound && (anchor || s == |src|))
    ensures HitsFrom(src, pat, p0, rep, anchor, s, [], left) && Spliced(src, s, []) == src[s..]
  {
    hide MatchAt;
  }

  lemma OneHit(src: string, pat: string, p0: nat, rep: Replacement, h: Hit, left: int)
    requires p0 <= |pat| && IsHit(src, pat, p0, rep, h) && left > 0
    ensures HitsFrom(src, pat, p0, rep, true, h.s, [h], left) && Spliced(src, h.s, [h]) == h.piece + src[h.e..]
  {
    hide MatchAt, Replaced;
    assert src[h.s..h.s] + h.piece == h.piece;
  }

  /** What a successful gsub gives: everything but the matches is kept, and each
      match is replaced. */
  lemma {:induction false} GsubHits(src: string, pat: string, p0: nat, anchor: bool, max: int, rep: Replacement, s: nat, n: int) returns (hits: seq<Hit>)
    requires s <= |src| && p0 <= |pat| && GsubFrom(src, pat, p0, anchor, max, rep, s, n).Gsubbed?
    ensures HitsFrom(src, pat, p0, rep, anchor, s, hits, max - n)
    ensures GsubFrom(src, pat, p0, anchor, max, rep, s, n) == Gsubbed(Spliced(src, s, hits), n + |hits|)
    decreases |src| - s
  {
    hide *;
    GsubStep(src, pat, p0, anchor, max, rep, s, n);
    hits := [];
    if n >= max {
      NoHits(src, pat, p0, rep, anchor, s, max - n);
      return;
    }
    RoundView(src, pat, p0, rep, s);
    if MatchAt(src, pat, p0, s) == NotFound {
      if s < |src| && !anchor {
        hits := GsubHits(src, pat, p0, anchor, max, rep, s + 1, n);
        HitsLater(src, pat, p0, rep, s, hits, max - n);
        SplicedOn(src, s, hits);
      } else {
        NoHits(src, pat, p0, rep, anchor, s, max - n);
        assert s < |src| ==> src[s..] == [src[s]] + src[s + 1..];
      }
    } else {
      var h := HitAt(src, pat, p0, rep, s);
      hits := GsubHit(src, pat, p0, anchor, max, rep, s, n, h);
    }
  }

  lemma {:induction false} GsubHit(src: string, pat: string, p0: nat, anchor: bool, max: int, rep: Replacement, s: nat, n: int, h: Hit) returns (hits: seq<Hit>)
    requires s <= |src| && p0 <= |pat| && GsubFrom(src, pat, p0, anchor, max, rep, s, n).Gsubbed? && n < max
    requires h.s == s && s <= h.e <= |src| && IsHit(src, pat, p0, rep, h)
    requires RoundAt(src, pat, p0, rep, s) == if h.e > s then More(h.piece, h.e, 1)
                                             else if s < |src| then More(h.piece + [src[s]], s + 1, 1)
                                             else Last(h.piece, 1)
    ensures HitsFrom(src, pat, p0, rep, anchor, s, hits, max - n)
    ensures GsubFrom(src, pat, p0, anchor, max, rep, s, n) == Gsubbed(Spliced(src, s, hits), n + |hits|)
    decreases |src| - s, 0
  {
    hide *;
    GsubStep(src, pat, p0, anchor, max, rep, s, n);
    var t := if h.e > s then h.e else s + 1;
    if anchor {
      hits := [h];
      OneHit(src, pat, p0, rep, h, max - n);
      assert h.e == s < |src| ==> src[s..] == [src[s]] + src[s + 1..];
    } else {
      var rest := [];
      if t <= |src| {
        rest := GsubHits(src, pat, p0, anchor, max, rep, t, n + 1);
        HitsBounds(src, pat, p0, rep, t, rest, max - n - 1);
        if h.e == s {
          SplicedOn(src, s, rest);
        }
      } else {
        NoHits(src, pat, p0, rep, anchor, s, 0);
      }
      HitFirst(src, pat, p0, rep, h, rest, max - n);
      hits := [h] + rest;
    }
  }

  /** A replacement that puts back the text of the match. */
  ghost predicate PutsBack(rep: Replacement) {
    rep == ByString("%0") || (rep.ByFunction? && forall vs :: rep.f(vs) == None)
  }

  lemma PutsBackText(rep: Replacement, src: string, caps: seq<Capture>, s: nat, e: nat)
    requires PutsBack(rep) && s <= e <= |src| && CapturesOk(caps, |src|)
    ensures Replaced(rep, src, caps, s, e).Piece? ==> Replaced(rep, src, caps, s, e).s == src[s..e]
  {
    hide CapturesOk, ValuesOf, OneCapture;
    if rep.ByString? {
      assert Expanded("%0", 2, src, caps, s, e) == Piece("");
      assert At("%0", 1) == '0';
    }
  }

  lemma RoundKeeps(src: string, pat: string, p0: nat, rep: Replacement, s: nat)
    requires s <= |src| && p0 <= |pat| && PutsBack(rep)
    ensures var r := RoundAt(src, pat, p0, rep, s);
      (r.More? ==> r.d == src[s..r.s]) && (r.Last? ==> r.d == src[s..])
  {
    hide Replaced, PutsBack;
    var o := MatchAt(src, pat, p0, s);
    hide MatchAt;
    if o.Found? {
      PutsBackText(rep, src, o.caps, s, o.e);
      assert src[s..s] == "";
    }
  }

  /** gsub with a replacement that puts matches back gives the subject back. */
  lemma {:induction false} GsubKeeps(src: string, pat: string, p0: nat, anchor: bool, max: int, rep: Replacement, s: nat, n: int)
    requires s <= |src| && p0 <= |pat| && PutsBack(rep) && GsubFrom(src, pat, p0, anchor, max, rep, s, n).Gsubbed?
    ensures GsubFrom(src, pat, p0, anchor, max, rep, s, n).text == src[s..]
    decreases |src| - s
  {
    hide RoundAt, PutsBack;
    RoundKeeps(src, pat, p0, rep, s);
    if n < max {
      var r := RoundAt(src, pat, p0, rep, s);
      if r.More? {
        assert src[s..] == src[s..r.s] + src[r.s..];
        if !anchor {
          GsubKeeps(src, pat, p0, anchor, max, rep, r.s, n + r.k);
        }
      }
    }
  }

  /** gsub never makes more replacements than asked for. */
  lemma {:induction false} GsubCounts(src: string, pat: string, p0: nat, anchor: bool, max: int, rep: Replacement, s: nat, n: int)
    requires s <= |src| && p0 <= |pat| && GsubFrom(src, pat, p0, anchor, max, rep, s, n).Gsubbed?
    ensures n <= GsubFrom(src, pat, p0, anchor, max, rep, s, n).n <= if n <= max then max else n
    decreases |src| - s
  {
    hide RoundAt;
    RoundCount(src, pat, p0, rep, s);
    if n < max {
      var r := RoundAt(src, pat, p0, rep, s);
      if r.More? && !anchor {
        GsubCounts(src, pat, p0, anchor, max, rep, r.s, n + r.k);
      }
    }
  }

  lemma RoundCount(src: string, pat: string, p0: nat, rep: Replacement, s: nat)
    requires s <= |src| && p0 <= |pat|
    ensures var r := RoundAt(src, pat, p0, rep, s); (r.More? || r.Last?) ==> r.k <= 1
  {
    hide MatchAt, Replaced;
  }

  // -------------------------------------------------- when the shortcut is exact

  /** What a plain search finds at s. */
  function PlainAt(src: string, pat: string, s: nat): Outcome {
    if OccursAt(src, pat, s) then Found(s + |pat|, []) else NotFound
  }

  lemma LiteralStep(src: string, pat: string, c: Config)
    requires Ok(src, pat, c) && c.p < |pat| && pat[c.p] !in SPECIALS && pat[c.p] != ')' && pat[c.p] != '\0'
    requires At(pat, c.p + 1) !in SPECIALS
    ensures if c.s < |src| && src[c.s] == pat[c.p] then
              CapturesOk(c.caps, c.s + 1) && First(src, pat, c) == First(src, pat, Config(c.s + 1, c.p + 1, c.caps))
            else First(src, pat, c) == NotFound
  {
    hide First, FirstOf;
    assert IsRepeat(src, pat, c, c.p + 1, Once);
    if c.s < |src| && src[c.s] == pat[c.p] {
      OnceTaken(src, pat, c, c.p + 1);
    } else {
      Stuck(src, pat, c);
    }
  }

  /** The length of the literal beginning of the pattern. */
  function LiteralLength(pat: string, p: nat): (n: nat)
    requires p <= |pat|
    ensures p + n <= |pat|
    ensures forall k :: p <= k < p + n ==> pat[k] !in SPECIALS && pat[k] != ')' && pat[k] != '\0'
    ensures p + n < |pat| ==> pat[p + n] in SPECIALS + {')', '\0'}
    decreases |pat| - p
  {
    if p < |pat| && pat[p] !in SPECIALS + {')', '\0'} then 1 + LiteralLength(pat, p + 1) else 0
  }

  /** The matcher reads a literal beginning as it stands. */
  lemma {:induction false} LiteralPrefix(src: string, pat: string, s: nat, p: nat, n: nat)
    requires s <= |src| && p + n <= |pat| && At(pat, p + n) !in SPECIALS
    requires forall k :: p <= k < p + n ==> pat[k] !in SPECIALS && pat[k] != ')' && pat[k] != '\0'
    ensures First(src, pat, Config(s, p, [])) ==
            if s + n <= |src| && src[s..s + n] == pat[p..p + n] then First(src, pat, Config(s + n, p + n, [])) else NotFound
    decreases n
  {
    hide First;
    if n > 0 {
      var c := Config(s, p, []);
      LiteralStep(src, pat, c);
      assert pat[p..p + n] == [pat[p]] + pat[p + 1..p + n];
      if s < |src| && src[s] == pat[p] {
        LiteralPrefix(src, pat, s + 1, p + 1, n - 1);
        if s + n <= |src| {
          assert src[s..s + n] == [src[s]] + src[s + 1..s + n];
        }
      } else if s + n <= |src| {
        assert src[s..s + n][0] == src[s];
      }
    } else {
      assert src[s..s] == pat[p..p];
    }
  }

  lemma NoSpecialBefore(pat: string, p: nat)
    requires !HasSpecial(pat) && p < |pat| && (forall k :: 0 <= k < p ==> pat[k] != '\0')
    ensures pat[p] !in SPECIALS
  {
    assert '\0' !in pat[..p];
  }

  /** Taking the plain search for a pattern without special characters is right exactly
      when the pattern holds neither a closing parenthesis, which SPECIALS leaves out
      and match refuses, nor a zero, where match stops reading. */
  lemma ShortcutExact(pat: string)
    requires !HasSpecial(pat)
    ensures (forall src, s {:trigger MatchAt(src, pat, 0, s)} :: 0 <= s <= |src| ==> MatchAt(src, pat, 0, s) == PlainAt(src, pat, s))
            <==> ')' !in pat && '\0' !in pat
  {
    hide First;
    var n := LiteralLength(pat, 0);
    if n < |pat| {
      NoSpecialBefore(pat, n);
      LiteralPrefix(pat, pat, 0, 0, n);
      StopsAt(pat, pat, n, n);
      assert MatchAt(pat, pat, 0, 0) != PlainAt(pat, pat, 0);
      assert pat[n] in pat;
    } else {
      assert pat[0..n] == pat;
      forall src: string, s: nat | s <= |src|
        ensures MatchAt(src, pat, 0, s) == PlainAt(src, pat, s)
      {
        LiteralPrefix(src, pat, s, 0, n);
        if s + n <= |src| {
          EndStep(src, pat, Config(s + n, n, []));
        }
      }
    }
  }

  lemma StopsAt(src: string, pat: string, s: nat, p: nat)
    requires s <= |src| && p < |pat| && pat[p] in {')', '\0'}
    ensures First(src, pat, Config(s, p, [])) == if pat[p] == ')' then Error(InvalidPatternCapture) else Found(s, [])
  {
    hide First;
    if pat[p] == ')' {
      CaptureEnds(src, pat, Config(s, p, []));
    } else {
      EndStep(src, pat, Config(s, p, []));
    }
  }
}
