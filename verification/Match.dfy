/** The backtracking matcher (src/lstrlib.c:186-440): it finds the first outcome of
    the choices a pattern offers, and leaves the captures as they were when it
    finds none. */
module Match {
  import opened Seqs
  import opened Patterns

  /** What a call of match returns: nothing, the end of the match, or an error. */
  datatype Result = NoMatch | EndAt(e: nat) | Raised(fault: Fault)

  /** r and the captures `now` are the outcome o, when the captures were `before`. */
  ghost predicate Agrees(o: Outcome, r: Result, now: seq<Capture>, before: seq<Capture>) {
    match o
    case Found(e, caps) => r == EndAt(e) && now == caps
    case NotFound => r == NoMatch && now == before
    case Error(fault) => r == Raised(fault)
  }

  // --------------------------------------------------------- facts about choices

  lemma Forced(src: string, pat: string, c: Config, d: Config)
    requires Ok(src, pat, c) && ChoicesAt(src, pat, c) == Continue([d])
    ensures Ok(src, pat, d) && First(src, pat, c) == First(src, pat, d)
  {
    hide ChoicesAt;
    assert [d][0] == d;
    assert FirstOf(src, pat, c.s, c.p, [d]) == First(src, pat, d);
  }

  lemma Stuck(src: string, pat: string, c: Config)
    requires Ok(src, pat, c) && ChoicesAt(src, pat, c) == Continue([])
    ensures First(src, pat, c) == NotFound
  {
    hide ChoicesAt;
  }

  lemma Fails(src: string, pat: string, c: Config, fault: Fault)
    requires Ok(src, pat, c) && ChoicesAt(src, pat, c) == Fail(fault)
    ensures First(src, pat, c) == Error(fault)
  {
    hide ChoicesAt;
  }

  lemma FirstOfFrom(src: string, pat: string, s: nat, p: nat, cs: seq<Config>, k: nat)
    requires p <= |pat| && AllOk(src, pat, s, p, cs) && k < |cs|
    ensures FirstOf(src, pat, s, p, cs[k..]) ==
            var o := First(src, pat, cs[k]); if o == NotFound then FirstOf(src, pat, s, p, cs[k + 1..]) else o
  {
    hide First, ChoicesAt;
    assert cs[k..][1..] == cs[k + 1..];
  }

  lemma {:induction false} FirstOfSame(src: string, pat: string, s: nat, s': nat, p: nat, cs: seq<Config>)
    requires p <= |pat| && AllOk(src, pat, s, p, cs) && AllOk(src, pat, s', p, cs)
    ensures FirstOf(src, pat, s, p, cs) == FirstOf(src, pat, s', p, cs)
    decreases |cs|
  {
    hide First, ChoicesAt;
    if cs != [] {
      FirstOfSame(src, pat, s, s', p, cs[1..]);
    }
  }

  lemma InSomeOf(c: char, it: SetItem, rest: seq<SetItem>)
    ensures InSome(c, [it] + rest) <==> InItem(c, it) || InSome(c, rest)
  {
    if InSome(c, rest) {
      var k :| 0 <= k < |rest| && InItem(c, rest[k]);
      assert InItem(c, ([it] + rest)[k + 1]);
    }
    if InItem(c, it) {
      assert InItem(c, ([it] + rest)[0]);
    }
    if InSome(c, [it] + rest) {
      var k :| 0 <= k < |[it] + rest| && InItem(c, ([it] + rest)[k]);
      assert k > 0 ==> InItem(c, rest[k - 1]);
    }
  }

  /** Reading one item of a set. */
  lemma BracketStep(c: char, pat: string, q: nat, ec: nat)
    ensures q >= ec ==> !InSome(c, SetItems(pat, q, ec))
    ensures q < ec ==> (InSome(c, SetItems(pat, q, ec)) <==>
              if At(pat, q) == ESC then MatchClass(c, At(pat, q + 1)) || InSome(c, SetItems(pat, q + 2, ec))
              else if At(pat, q + 1) == '-' && q + 2 < ec then
                At(pat, q) <= c <= At(pat, q + 2) || InSome(c, SetItems(pat, q + 3, ec))
              else At(pat, q) == c || InSome(c, SetItems(pat, q + 1, ec)))
  {
    hide MatchClass;
    if q < ec {
      if At(pat, q) == ESC {
        InSomeOf(c, Class(At(pat, q + 1)), SetItems(pat, q + 2, ec));
      } else if At(pat, q + 1) == '-' && q + 2 < ec {
        InSomeOf(c, Range(At(pat, q), At(pat, q + 2)), SetItems(pat, q + 3, ec));
      } else {
        InSomeOf(c, Literal(At(pat, q)), SetItems(pat, q + 1, ec));
      }
    }
  }

  /** The repetitions of an item, and what they have to satisfy. */
  ghost function Runs(src: string, pat: string, s: nat, p: nat, ep: nat, caps: seq<Capture>, counts: seq<nat>): (cs: seq<Config>)
    requires s <= |src| && 0 < ep < |pat| && p < ep && CapturesOk(caps, s)
    requires forall k :: 0 <= k < |counts| ==> counts[k] <= MaxRun(src, s, pat, p, ep)
    ensures AllOk(src, pat, s, p, cs) && |cs| == |counts|
    ensures forall k :: 0 <= k < |cs| ==> cs[k] == Config(s + counts[k], ep + 1, caps)
  {
    assert s + MaxRun(src, s, pat, p, ep) <= |src|;
    Repetitions(Config(s, p, caps), counts, ep + 1)
  }

  lemma RunStep(src: string, s: nat, pat: string, p: nat, ep: nat)
    requires s <= |src| && ep > 0
    ensures MaxRun(src, s, pat, p, ep) ==
            if s < |src| && InClass(src[s], pat, p, ep) then 1 + MaxRun(src, s + 1, pat, p, ep) else 0
  {
    hide InClass;
  }

  // ------------------------------------------------------------------ the matcher

  class MatchState {
    const src: string
    const pat: string
    var level: nat
    const capture: array<Capture>

    constructor (src: string, pat: string)
      ensures this.src == src && this.pat == pat && Valid() && level == 0 && fresh(capture)
    {
      this.src := src;
      this.pat := pat;
      level := 0;
      capture := new Capture[MAXCAPTURES](_ => Capture(0, 0));
    }

    ghost predicate Valid()
      reads this, capture
    {
      capture.Length == MAXCAPTURES && level <= MAXCAPTURES
    }

    /** The captures in use. */
    ghost function Captures(): (caps: seq<Capture>)
      requires Valid()
      reads this, capture
      ensures |caps| == level
    {
      capture[..level]
    }

    /** Where matching is. */
    ghost function At0(s: nat, p: nat): Config
      requires Valid()
      reads this, capture
    {
      Config(s, p, Captures())
    }

    // ---------------------------------------------------------------- capture list

    method CheckCapture(digit: char) returns (r: Option<nat>)
      requires Valid() && IsDigit(digit)
      ensures r == CaptureIndex(Captures(), digit)
    {
      var l := digit as int - '1' as int;
      if l < 0 || l >= level || capture[l].len == UNFINISHED {
        return None;
      }
      r := Some(l);
    }

    /** The last capture that is still open. */
    method CaptureToClose() returns (r: Option<nat>)
      requires Valid()
      ensures r == LastOpen(Captures())
    {
      var l: nat := level;
      ghost var caps := Captures();
      assert caps[..level] == caps;
      while l > 0
        invariant l <= level && LastOpen(caps) == LastOpen(caps[..l])
      {
        l := l - 1;
        assert caps[..l + 1][..l] == caps[..l];
        if capture[l].len == UNFINISHED {
          return Some(l);
        }
      }
      r := None;
    }

    // ------------------------------------------------------------ character classes

    method ClassEnd(p: nat) returns (r: Ended)
      requires p < |pat| && At(pat, p) != '\0'
      ensures r == ClassEndOf(pat, p)
    {
      if pat[p] == ESC {
        if At(pat, p + 1) == '\0' {
          return Malformed(EndsWithEscape);
        }
        return EndsAt(p + 2);
      }
      if pat[p] == '[' {
        var q := p + 1;
        if At(pat, q) == '^' {
          q := q + 1;
        }
        while true
          invariant q <= |pat| && SetEnd(pat, q) == SetEnd(pat, SetStart(pat, p))
          decreases |pat| - q
        {
          if At(pat, q) == '\0' {
            return Malformed(MissingBracketEnd);
          }
          q := q + 1;
          if pat[q - 1] == ESC && At(pat, q) != '\0' {
            q := q + 1;
          }
          if At(pat, q) == ']' {
            return EndsAt(q + 1);
          }
        }
      }
      r := EndsAt(p + 1);
    }

    /** Whether c is in the set between p and ec: the union of its items, or its
        complement. */
    method MatchBracketClass(c: char, p: nat, ec: nat) returns (r: bool)
      ensures r == InSet(c, pat, p, ec)
    {
      hide MatchClass, InSome, SetItems, At;
      var sig, q := true, p;
      if At(pat, q + 1) == '^' {
        sig := false;
        q := q + 1;
      }
      q := q + 1;
      ghost var start := q;
      while q < ec
        invariant InSome(c, SetItems(pat, start, ec)) <==> InSome(c, SetItems(pat, q, ec))
      {
        BracketStep(c, pat, q, ec);
        if At(pat, q) == ESC {
          q := q + 1;
          if MatchClass(c, At(pat, q)) {
            return sig;
          }
        } else if At(pat, q + 1) == '-' && q + 2 < ec {
          q := q + 2;
          if At(pat, q - 2) <= c <= At(pat, q) {
            return sig;
          }
        } else if At(pat, q) == c {
          return sig;
        }
        q := q + 1;
      }
      BracketStep(c, pat, q, ec);
      r := !sig;
    }

    method SingleMatch(c: char, p: nat, ep: nat) returns (r: bool)
      requires ep > 0
      ensures r == InClass(c, pat, p, ep)
    {
      var ch := At(pat, p);
      if ch == '.' {
        r := true;
      } else if ch == ESC {
        r := MatchClass(c, At(pat, p + 1));
      } else if ch == '[' {
        r := MatchBracketClass(c, p, ep - 1);
      } else {
        r := ch == c;
      }
    }

    /** The balanced part from s on, for the two characters at p. */
    method MatchBalance(s: nat, p: nat) returns (r: Result)
      requires s <= |src|
      ensures At(pat, p) == '\0' || At(pat, p + 1) == '\0' <==> r.Raised?
      ensures r.Raised? ==> r.fault == UnbalancedPattern
      ensures r.EndAt? ==> BalancedTo(src, s, At(pat, p), At(pat, p + 1), r.e)
      ensures r.NoMatch? ==> NoneBalanced(src, s, At(pat, p), At(pat, p + 1))
    {
      if At(pat, p) == '\0' || At(pat, p + 1) == '\0' {
        return Raised(UnbalancedPattern);
      }
      if At(src, s) != At(pat, p) {
        return NoMatch;
      }
      var b, e := At(pat, p), At(pat, p + 1);
      var cont, q := 1, s + 1;
      while q < |src|
        invariant s < q <= |src| && cont == Height(src, s, q, b, e)
        invariant forall j :: s < j <= q ==> Height(src, s, j, b, e) > 0
      {
        if src[q] == e {
          cont := cont - 1;
          if cont == 0 {
            return EndAt(q + 1);
          }
        } else if src[q] == b {
          cont := cont + 1;
        }
        q := q + 1;
      }
      r := NoMatch;
    }

    method MatchCapture(s: nat, digit: char) returns (r: Result)
      requires Valid() && IsDigit(digit) && s <= |src| && CapturesOk(Captures(), s)
      ensures var l := CaptureIndex(Captures(), digit);
        r == if l.None? then Raised(InvalidCaptureIndex)
             else if Repeats(src, Captures()[l.value], s) then EndAt(s + Captures()[l.value].len) else NoMatch
    {
      var l := CheckCapture(digit);
      if l.None? {
        return Raised(InvalidCaptureIndex);
      }
      var cap := capture[l.value];
      assert cap == Captures()[l.value];
      // as an unsigned number POSITION is larger than every length
      if cap.len >= 0 && cap.len <= |src| - s && src[cap.init..cap.init + cap.len] == src[s..s + cap.len] {
        return EndAt(s + cap.len);
      }
      r := NoMatch;
    }

    // -------------------------------------------------------------------- expansion

    method MaxExpand(s: nat, p: nat, ep: nat) returns (r: Result)
      requires Valid() && s <= |src| && p < ep < |pat| && CapturesOk(Captures(), s)
      modifies this, capture
      ensures Valid()
      ensures Agrees(FirstOf(src, pat, s, p, Runs(src, pat, s, p, ep, old(Captures()), Down(MaxRun(src, s, pat, p, ep), 0))),
                     r, Captures(), old(Captures()))
      decreases |pat| - ep - 1, 3
    {
      hide ChoicesAt, First, FirstOf, InClass, Runs, Down, Up, MaxRun;
      ghost var caps, n := Captures(), MaxRun(src, s, pat, p, ep);
      ghost var cs := Runs(src, pat, s, p, ep, caps, Down(n, 0));
      var i := 0;
      while s + i < |src|
        invariant Valid() && Captures() == caps
        invariant 0 <= i && s + i <= |src| && n == i + MaxRun(src, s + i, pat, p, ep)
      {
        RunStep(src, s + i, pat, p, ep);
        var m := SingleMatch(src[s + i], p, ep);
        if !m {
          break;
        }
        i := i + 1;
      }
      RunStep(src, s + i, pat, p, ep);
      assert i == n;
      assert cs[0..] == cs;
      while i >= 0
        invariant Valid() && Captures() == caps && -1 <= i <= n
        invariant FirstOf(src, pat, s, p, cs) == FirstOf(src, pat, s, p, cs[n - i..])
        decreases i + 1
      {
        FirstOfFrom(src, pat, s, p, cs, n - i);
        r := Match(s + i, ep + 1);
        if r != NoMatch {
          return;
        }
        i := i - 1;
      }
      FirstOfNone(src, pat, s, p);
      assert cs[n + 1..] == [];
      r := NoMatch;
    }

    method MinExpand(s0: nat, p: nat, ep: nat) returns (r: Result)
      requires Valid() && s0 <= |src| && p < ep < |pat| && CapturesOk(Captures(), s0)
      modifies this, capture
      ensures Valid()
      ensures Agrees(FirstOf(src, pat, s0, p, Runs(src, pat, s0, p, ep, old(Captures()), Up(MaxRun(src, s0, pat, p, ep)))),
                     r, Captures(), old(Captures()))
      decreases |pat| - ep - 1, 3
    {
      hide ChoicesAt, First, FirstOf, InClass, Runs, Down, Up, MaxRun;
      ghost var caps, n := Captures(), MaxRun(src, s0, pat, p, ep);
      ghost var cs := Runs(src, pat, s0, p, ep, caps, Up(n));
      var s := s0;
      assert cs[0..] == cs;
      while true
        invariant Valid() && Captures() == caps && s0 <= s <= |src| && n == s - s0 + MaxRun(src, s, pat, p, ep)
        invariant FirstOf(src, pat, s0, p, cs) == FirstOf(src, pat, s0, p, cs[s - s0..])
        decreases |src| - s
      {
        RunStep(src, s, pat, p, ep);
        FirstOfFrom(src, pat, s0, p, cs, s - s0);
        r := Match(s, ep + 1);
        if r != NoMatch {
          return;
        }
        if s >= |src| {
          break;
        }
        var m := SingleMatch(src[s], p, ep);
        if !m {
          break;
        }
        s := s + 1;
      }
      FirstOfNone(src, pat, s0, p);
      assert cs[n + 1..] == [];
      r := NoMatch;
    }

    // --------------------------------------------------------------------- captures

    method StartCapture(s: nat, p: nat, what: int) returns (r: Result)
      requires Valid() && s <= |src| && p <= |pat| && CapturesOk(Captures(), s) && what in {POSITION, UNFINISHED}
      modifies this, capture
      ensures Valid()
      ensures Agrees(if old(level) >= MAXCAPTURES then Error(TooManyCaptures)
                     else First(src, pat, Config(s, p, old(Captures()) + [Capture(s, what)])),
                     r, Captures(), old(Captures()))
      decreases |pat| - p, 3
    {
      hide ChoicesAt, First, FirstOf;
      ghost var caps := Captures();
      if level >= MAXCAPTURES {
        return Raised(TooManyCaptures);
      }
      capture[level] := Capture(s, what);
      level := level + 1;
      assert Captures() == caps + [Capture(s, what)];
      r := Match(s, p);
      if r == NoMatch {
        level := level - 1;
        assert Captures() == (caps + [Capture(s, what)])[..|caps|];
      }
    }

    method EndCapture(s: nat, p: nat) returns (r: Result)
      requires Valid() && s <= |src| && p <= |pat| && CapturesOk(Captures(), s)
      modifies this, capture
      ensures Valid()
      ensures var caps := old(Captures()); var l := LastOpen(caps);
        && (l.Some? ==> CapturesOk(Closed(caps, l.value, s), s))
        && Agrees(if l.None? then Error(InvalidPatternCapture) else First(src, pat, Config(s, p, Closed(caps, l.value, s))),
                  r, Captures(), caps)
      decreases |pat| - p, 3
    {
      hide ChoicesAt, First, FirstOf;
      ghost var caps := Captures();
      var o := CaptureToClose();
      if o.None? {
        return Raised(InvalidPatternCapture);
      }
      var l := o.value;
      capture[l] := capture[l].(len := s - capture[l].init);
      assert Captures() == Closed(caps, l, s);
      r := Match(s, p);
      if r == NoMatch {
        capture[l] := capture[l].(len := UNFINISHED);
        assert Captures() == Closed(caps, l, s)[l := caps[l]] == caps;
      }
    }

    // ------------------------------------------------------------------------ match

    /** The default case: a single-character class and how often it repeats.  Either
        the call is over, or matching goes on at s' and p'. */
    method Default(s: nat, p: nat) returns (done: bool, r: Result, s': nat, p': nat)
      requires Valid() && s <= |src| && p < |pat| && CapturesOk(Captures(), s)
      requires At(pat, p) != '\0' && ItemAt(pat, p).0 == SingleAt(pat, p)
      modifies this, capture
      ensures Valid()
      ensures done ==> Agrees(First(src, pat, old(At0(s, p))), r, Captures(), old(Captures()))
      ensures !done ==> s <= s' <= |src| && p < p' <= |pat| && Captures() == old(Captures())
      ensures !done ==> First(src, pat, old(At0(s, p))) == First(src, pat, old(At0(s', p')))
      decreases |pat| - p, 1
    {
      hide First, FirstOf, InClass;
      ghost var c := At0(s, p);
      done, s', p' := true, s, p;
      var e := ClassEnd(p);
      if e.Malformed? {
        Fails(src, pat, c, e.fault);
        return true, Raised(e.fault), s, p;
      }
      var ep := e.ep;
      var m := false;
      if s < |src| {
        m := SingleMatch(src[s], p, ep);
      }
      var rep := At(pat, ep);
      if rep == '?' {
        if m {
          r := Match(s + 1, ep + 1);
          OptionalTaken(src, pat, c, ep);
          if r != NoMatch {
            return;
          }
        } else {
          OptionalLeft(src, pat, c, ep);
        }
        return false, NoMatch, s, ep + 1;
      } else if rep == '*' {
        r := MaxExpand(s, p, ep);
        Repeated(src, pat, c, ep, Longest);
      } else if rep == '+' {
        if m {
          AtLeastOnce(src, pat, c, ep);
          r := MaxExpand(s + 1, p, ep);
        } else {
          Repeated(src, pat, c, ep, LongestNonEmpty);
          r := NoMatch;
        }
      } else if rep == '-' {
        r := MinExpand(s, p, ep);
        Repeated(src, pat, c, ep, Shortest);
      } else if m {
        OnceTaken(src, pat, c, ep);
        return false, NoMatch, s + 1, ep;
      } else {
        Stuck(src, pat, c);
        r := NoMatch;
      }
    }

    /** match: the first outcome of the choices, and the captures it has made; when
        nothing is found the captures are as before. */
    method Match(s0: nat, p0: nat) returns (r: Result)
      requires Valid() && s0 <= |src| && p0 <= |pat| && CapturesOk(Captures(), s0)
      modifies this, capture
      ensures Valid()
      ensures Agrees(First(src, pat, old(At0(s0, p0))), r, Captures(), old(Captures()))
      decreases |pat| - p0, 2
    {
      hide First, FirstOf, InSet, ChoicesAt, SingleAt, CapturesOk, MatchClass;
      var s: nat, p: nat := s0, p0;
      while true
        invariant Valid() && s <= |src| && p0 <= p <= |pat| && Captures() == old(Captures()) && CapturesOk(Captures(), s)
        invariant First(src, pat, At0(s, p)) == First(src, pat, old(At0(s0, p0)))
        decreases |pat| - p
      {
        ghost var c := At0(s, p);
        var ch, n := At(pat, p), At(pat, p + 1);
        if ch == '(' {
          CaptureStarts(src, pat, c);
          if n == ')' {
            r := StartCapture(s, p + 2, POSITION);
          } else {
            r := StartCapture(s, p + 1, UNFINISHED);
          }
          return;
        } else if ch == ')' {
          CaptureEnds(src, pat, c);
          r := EndCapture(s, p + 1);
          return;
        } else if ch == ESC && n == 'b' {
          r := MatchBalance(s, p + 2);
          BalanceStep(src, pat, c, r);
          if !r.EndAt? {
            return;
          }
          s, p := r.e, p + 4;
        } else if ch == ESC && n == 'f' {
          if At(pat, p + 2) != '[' {
            FaultAt(src, pat, c);
            return Raised(MissingFrontierSet);
          }
          var e := ClassEnd(p + 2);
          if e.Malformed? {
            FaultAt(src, pat, c);
            return Raised(e.fault);
          }
          var previous := if s == 0 then '\0' else src[s - 1];
          var inside := MatchBracketClass(previous, p + 2, e.ep - 1);
          var starts := MatchBracketClass(At(src, s), p + 2, e.ep - 1);
          FrontierStep(src, pat, c, e.ep);
          if inside || !starts {
            return NoMatch;
          }
          p := e.ep;
        } else if ch == ESC && IsDigit(n) {
          r := MatchCapture(s, n);
          ReferenceStep(src, pat, c, n, r);
          if !r.EndAt? {
            return;
          }
          s, p := r.e, p + 2;
        } else if ch == '\0' {
          EndStep(src, pat, c);
          return EndAt(s);
        } else if ch == '$' && n == '\0' {
          EndStep(src, pat, c);
          return if s == |src| then EndAt(s) else NoMatch;
        } else {
          var done, s', p';
          done, r, s', p' := Default(s, p);
          if done {
            return;
          }
          Later(Captures(), s, s');
          s, p := s', p';
        }
      }
    }
  }

  lemma FirstOfNone(src: string, pat: string, s: nat, p: nat)
    requires p <= |pat|
    ensures FirstOf(src, pat, s, p, []) == NotFound
  {
  }

  lemma Later(caps: seq<Capture>, s: nat, s': nat)
    requires CapturesOk(caps, s) && s <= s'
    ensures CapturesOk(caps, s')
  {
  }

  // ---------------------------------------------------- one lemma for every item

  lemma CaptureStarts(src: string, pat: string, c: Config)
    requires Ok(src, pat, c) && At(pat, c.p) == '('
    ensures var (what, next) := if At(pat, c.p + 1) == ')' then (POSITION, c.p + 2) else (UNFINISHED, c.p + 1);
      if |c.caps| >= MAXCAPTURES then First(src, pat, c) == Error(TooManyCaptures)
      else Ok(src, pat, Config(c.s, next, c.caps + [Capture(c.s, what)])) &&
           First(src, pat, c) == First(src, pat, Config(c.s, next, c.caps + [Capture(c.s, what)]))
  {
    hide First, FirstOf;
    var (what, next) := if At(pat, c.p + 1) == ')' then (POSITION, c.p + 2) else (UNFINISHED, c.p + 1);
    if |c.caps| >= MAXCAPTURES {
      Fails(src, pat, c, TooManyCaptures);
    } else {
      Forced(src, pat, c, Config(c.s, next, c.caps + [Capture(c.s, what)]));
    }
  }

  lemma CaptureEnds(src: string, pat: string, c: Config)
    requires Ok(src, pat, c) && At(pat, c.p) == ')'
    ensures var l := LastOpen(c.caps);
      if l.None? then First(src, pat, c) == Error(InvalidPatternCapture)
      else Ok(src, pat, Config(c.s, c.p + 1, Closed(c.caps, l.value, c.s))) &&
           First(src, pat, c) == First(src, pat, Config(c.s, c.p + 1, Closed(c.caps, l.value, c.s)))
  {
    hide First, FirstOf;
    var l := LastOpen(c.caps);
    if l.None? {
      Fails(src, pat, c, InvalidPatternCapture);
    } else {
      Forced(src, pat, c, Config(c.s, c.p + 1, Closed(c.caps, l.value, c.s)));
    }
  }

  lemma BalanceStep(src: string, pat: string, c: Config, r: Result)
    requires Ok(src, pat, c) && At(pat, c.p) == ESC && At(pat, c.p + 1) == 'b'
    requires At(pat, c.p + 2) == '\0' || At(pat, c.p + 3) == '\0' <==> r.Raised?
    requires r.Raised? ==> r.fault == UnbalancedPattern
    requires r.EndAt? ==> BalancedTo(src, c.s, At(pat, c.p + 2), At(pat, c.p + 3), r.e)
    requires r.NoMatch? ==> NoneBalanced(src, c.s, At(pat, c.p + 2), At(pat, c.p + 3))
    ensures match r
      case Raised(fault) => First(src, pat, c) == Error(fault)
      case NoMatch => First(src, pat, c) == NotFound
      case EndAt(e) => Ok(src, pat, Config(e, c.p + 4, c.caps)) && First(src, pat, c) == First(src, pat, Config(e, c.p + 4, c.caps))
  {
    hide First, FirstOf, Height;
    match r
    case Raised(fault) => Fails(src, pat, c, UnbalancedPattern);
    case NoMatch => Stuck(src, pat, c);
    case EndAt(e) =>
      var x, y := At(pat, c.p + 2), At(pat, c.p + 3);
      forall e': nat | BalancedTo(src, c.s, x, y, e')
        ensures e' == e
      {
        BalancedOnce(src, c.s, x, y, e, e');
      }
      Forced(src, pat, c, Config(e, c.p + 4, c.caps));
  }

  lemma FaultAt(src: string, pat: string, c: Config)
    requires Ok(src, pat, c) && ItemAt(pat, c.p).0.Bad?
    ensures First(src, pat, c) == Error(ItemAt(pat, c.p).0.fault)
  {
    hide First, FirstOf;
    Fails(src, pat, c, ItemAt(pat, c.p).0.fault);
  }

  lemma FrontierStep(src: string, pat: string, c: Config, ep: nat)
    requires Ok(src, pat, c) && At(pat, c.p) == ESC && At(pat, c.p + 1) == 'f' && At(pat, c.p + 2) == '['
    requires ClassEndOf(pat, c.p + 2) == EndsAt(ep)
    ensures c.p + 3 < ep
    ensures var before := if c.s == 0 then '\0' else src[c.s - 1];
      if !InSet(before, pat, c.p + 2, ep - 1) && InSet(At(src, c.s), pat, c.p + 2, ep - 1)
      then Ok(src, pat, Config(c.s, ep, c.caps)) && First(src, pat, c) == First(src, pat, Config(c.s, ep, c.caps))
      else First(src, pat, c) == NotFound
  {
    hide First, FirstOf, InSet;
    assert ItemAt(pat, c.p) == (Frontier, ep);
    var before := if c.s == 0 then '\0' else src[c.s - 1];
    if !InSet(before, pat, c.p + 2, ep - 1) && InSet(At(src, c.s), pat, c.p + 2, ep - 1) {
      Forced(src, pat, c, Config(c.s, ep, c.caps));
    } else {
      Stuck(src, pat, c);
    }
  }

  lemma ReferenceStep(src: string, pat: string, c: Config, digit: char, r: Result)
    requires Ok(src, pat, c) && At(pat, c.p) == ESC && At(pat, c.p + 1) == digit && IsDigit(digit)
    requires var l := CaptureIndex(c.caps, digit);
      r == if l.None? then Raised(InvalidCaptureIndex)
           else if Repeats(src, c.caps[l.value], c.s) then EndAt(c.s + c.caps[l.value].len) else NoMatch
    ensures match r
      case Raised(fault) => First(src, pat, c) == Error(fault)
      case NoMatch => First(src, pat, c) == NotFound
      case EndAt(e) => c.s <= e && Ok(src, pat, Config(e, c.p + 2, c.caps)) && First(src, pat, c) == First(src, pat, Config(e, c.p + 2, c.caps))
  {
    hide First, FirstOf;
    match r
    case Raised(fault) => Fails(src, pat, c, InvalidCaptureIndex);
    case NoMatch => Stuck(src, pat, c);
    case EndAt(e) => Forced(src, pat, c, Config(e, c.p + 2, c.caps));
  }

  lemma EndStep(src: string, pat: string, c: Config)
    requires Ok(src, pat, c) && (At(pat, c.p) == '\0' || (At(pat, c.p) == '$' && At(pat, c.p + 1) == '\0'))
    ensures First(src, pat, c) == if At(pat, c.p) == '\0' || c.s == |src| then Found(c.s, c.caps) else NotFound
  {
    hide FirstOf;
    if At(pat, c.p) != '\0' && c.s != |src| {
      Stuck(src, pat, c);
    }
  }

  /** The class at c.p ends at ep, and rep says how often it repeats. */
  ghost predicate IsRepeat(src: string, pat: string, c: Config, ep: nat, rep: Repeat) {
    Ok(src, pat, c) && ItemAt(pat, c.p).0 == Single(rep, ep)
  }

  lemma Repeated(src: string, pat: string, c: Config, ep: nat, rep: Repeat)
    requires IsRepeat(src, pat, c, ep, rep) && rep in {Longest, LongestNonEmpty, Shortest}
    ensures First(src, pat, c) ==
            FirstOf(src, pat, c.s, c.p, Runs(src, pat, c.s, c.p, ep, c.caps, Counts(rep, MaxRun(src, c.s, pat, c.p, ep))))
    ensures rep == LongestNonEmpty && MaxRun(src, c.s, pat, c.p, ep) == 0 ==> First(src, pat, c) == NotFound
  {
    hide FirstOf, MaxRun;
    var n := MaxRun(src, c.s, pat, c.p, ep);
    if rep == LongestNonEmpty && n == 0 {
      assert Down(n, 1) == [];
      assert Repetitions(c, [], ep + 1) == [];
      Stuck(src, pat, c);
    }
  }

  /** One character taken: the rest of a non-empty repetition may be empty. */
  lemma AtLeastOnce(src: string, pat: string, c: Config, ep: nat)
    requires IsRepeat(src, pat, c, ep, LongestNonEmpty) && c.s < |src| && InClass(src[c.s], pat, c.p, ep)
    ensures CapturesOk(c.caps, c.s + 1)
    ensures First(src, pat, c) ==
            FirstOf(src, pat, c.s + 1, c.p, Runs(src, pat, c.s + 1, c.p, ep, c.caps, Down(MaxRun(src, c.s + 1, pat, c.p, ep), 0)))
  {
    hide FirstOf, First, InClass, ChoicesAt, Runs, Down, MaxRun;
    var n := MaxRun(src, c.s, pat, c.p, ep);
    RunStep(src, c.s, pat, c.p, ep);
    Later(c.caps, c.s, c.s + 1);
    var cs := Runs(src, pat, c.s, c.p, ep, c.caps, Down(n, 1));
    var ds := Runs(src, pat, c.s + 1, c.p, ep, c.caps, Down(n - 1, 0));
    assert cs == ds;
    Repeated(src, pat, c, ep, LongestNonEmpty);
    FirstOfSame(src, pat, c.s, c.s + 1, c.p, cs);
  }

  lemma OptionalTaken(src: string, pat: string, c: Config, ep: nat)
    requires IsRepeat(src, pat, c, ep, Optional) && c.s < |src| && InClass(src[c.s], pat, c.p, ep)
    ensures CapturesOk(c.caps, c.s + 1)
    ensures var o := First(src, pat, Config(c.s + 1, ep + 1, c.caps));
      First(src, pat, c) == if o == NotFound then First(src, pat, Config(c.s, ep + 1, c.caps)) else o
  {
    hide InClass;
    var a, b := Config(c.s + 1, ep + 1, c.caps), Config(c.s, ep + 1, c.caps);
    assert Repetitions(c, [1, 0], ep + 1) == [a, b];
    assert ChoicesAt(src, pat, c) == Continue([a, b]);
    assert [a, b][1..] == [b];
    hide ChoicesAt;
    assert FirstOf(src, pat, c.s, c.p, [b]) == First(src, pat, b);
  }

  lemma OptionalLeft(src: string, pat: string, c: Config, ep: nat)
    requires IsRepeat(src, pat, c, ep, Optional) && (c.s < |src| ==> !InClass(src[c.s], pat, c.p, ep))
    ensures First(src, pat, c) == First(src, pat, Config(c.s, ep + 1, c.caps))
  {
    hide InClass, First, FirstOf;
    var b := Config(c.s, ep + 1, c.caps);
    assert Repetitions(c, [0], ep + 1) == [b];
    Forced(src, pat, c, b);
  }

  lemma OnceTaken(src: string, pat: string, c: Config, ep: nat)
    requires IsRepeat(src, pat, c, ep, Once) && c.s < |src| && InClass(src[c.s], pat, c.p, ep)
    ensures CapturesOk(c.caps, c.s + 1)
    ensures First(src, pat, c) == First(src, pat, Config(c.s + 1, ep, c.caps))
  {
    hide InClass, First, FirstOf;
    var b := Config(c.s + 1, ep, c.caps);
    assert Repetitions(c, [1], ep) == [b];
    Forced(src, pat, c, b);
  }

  // ---------------------------------------------------- longest and shortest first

  /** The number of the choice that decides. */
  lemma {:induction false} Picked(src: string, pat: string, s: nat, p: nat, cs: seq<Config>) returns (j: nat)
    requires p <= |pat| && AllOk(src, pat, s, p, cs)
    ensures j <= |cs| && forall i :: 0 <= i < j ==> First(src, pat, cs[i]) == NotFound
    ensures FirstOf(src, pat, s, p, cs) == if j < |cs| then First(src, pat, cs[j]) else NotFound
    ensures j < |cs| ==> First(src, pat, cs[j]) != NotFound
    decreases |cs|
  {
    hide First, ChoicesAt;
    if cs == [] || First(src, pat, cs[0]) != NotFound {
      j := 0;
    } else {
      var i := Picked(src, pat, s, p, cs[1..]);
      j := i + 1;
    }
  }

  /** What the rest of the pattern gives behind k repetitions of the class at c.p. */
  ghost function Rest(src: string, pat: string, c: Config, ep: nat, k: nat): Outcome
    requires Ok(src, pat, c) && c.p < ep < |pat| && k <= MaxRun(src, c.s, pat, c.p, ep)
  {
    Later(c.caps, c.s, c.s + k);
    First(src, pat, Config(c.s + k, ep + 1, c.caps))
  }

  /** `*` and `+` take the longest repetition that lets the rest of the pattern match. */
  lemma LongestFirst(src: string, pat: string, c: Config, ep: nat, rep: Repeat) returns (k: int)
    requires IsRepeat(src, pat, c, ep, rep) && rep in {Longest, LongestNonEmpty}
    ensures var least := if rep == Longest then 0 else 1;
      && least - 1 <= k <= MaxRun(src, c.s, pat, c.p, ep)
      && First(src, pat, c) == (if k >= least then Rest(src, pat, c, ep, k) else NotFound)
      && (k >= least ==> Rest(src, pat, c, ep, k) != NotFound)
      && (forall i: nat :: k < i <= MaxRun(src, c.s, pat, c.p, ep) && i >= least ==> Rest(src, pat, c, ep, i) == NotFound)
  {
    hide First, FirstOf, MaxRun, ChoicesAt, Runs, Down, Up;
    var n := MaxRun(src, c.s, pat, c.p, ep);
    var cs := Runs(src, pat, c.s, c.p, ep, c.caps, Counts(rep, n));
    Repeated(src, pat, c, ep, rep);
    var j := Picked(src, pat, c.s, c.p, cs);
    k := n - j;
    forall i: nat | k < i <= n && i >= (if rep == Longest then 0 else 1)
      ensures Rest(src, pat, c, ep, i) == NotFound
    {
      assert cs[n - i] == Config(c.s + i, ep + 1, c.caps);
    }
  }

  /** `-` takes the shortest one. */
  lemma ShortestFirst(src: string, pat: string, c: Config, ep: nat) returns (k: nat)
    requires IsRepeat(src, pat, c, ep, Shortest)
    ensures var n := MaxRun(src, c.s, pat, c.p, ep);
      && k <= n + 1
      && First(src, pat, c) == (if k <= n then Rest(src, pat, c, ep, k) else NotFound)
      && (k <= n ==> Rest(src, pat, c, ep, k) != NotFound)
      && (forall i: nat :: i < k && i <= n ==> Rest(src, pat, c, ep, i) == NotFound)
  {
    hide First, FirstOf, MaxRun, ChoicesAt, Runs, Down, Up;
    var n := MaxRun(src, c.s, pat, c.p, ep);
    var cs := Runs(src, pat, c.s, c.p, ep, c.caps, Counts(Shortest, n));
    Repeated(src, pat, c, ep, Shortest);
    k := Picked(src, pat, c.s, c.p, cs);
    forall i: nat | i < k && i <= n
      ensures Rest(src, pat, c, ep, i) == NotFound
    {
      assert cs[i] == Config(c.s + i, ep + 1, c.caps);
    }
  }
}
