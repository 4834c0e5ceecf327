/** Patterns as they are written (src/lstrlib.c:206-284, src/lstrlib.c:361-439;
    section 5.4.1 of the Lua 5.1 Reference Manual): what every kind of item matches,
    character code by character code. */
module PatternText {
  import opened Seqs
  import opened Patterns
  import opened Match

  // ---------------------------------------------------------- classes of characters

  datatype SetPart = One(c: char) | Span(lo: char, hi: char) | Named(x: char)

  datatype CharClass = Any | Plain(c: char) | Escaped(x: char) | Set(negated: bool, parts: seq<SetPart>)

  /** The character with code n belongs to %x.  A letter in upper case stands for what
      the lower one leaves out, and what is no letter of a class for itself. */
  predicate Belongs(n: int, x: char) {
    if x == 'a' then 65 <= n <= 90 || 97 <= n <= 122
    else if x == 'A' then !(65 <= n <= 90 || 97 <= n <= 122)
    else if x == 'c' then n <= 31 || n == 127
    else if x == 'C' then !(n <= 31 || n == 127)
    else if x == 'd' then 48 <= n <= 57
    else if x == 'D' then !(48 <= n <= 57)
    else if x == 'l' then 97 <= n <= 122
    else if x == 'L' then !(97 <= n <= 122)
    else if x == 'p' then 33 <= n <= 47 || 58 <= n <= 64 || 91 <= n <= 96 || 123 <= n <= 126
    else if x == 'P' then !(33 <= n <= 47 || 58 <= n <= 64 || 91 <= n <= 96 || 123 <= n <= 126)
    else if x == 's' then 9 <= n <= 13 || n == 32
    else if x == 'S' then !(9 <= n <= 13 || n == 32)
    else if x == 'u' then 65 <= n <= 90
    else if x == 'U' then !(65 <= n <= 90)
    else if x == 'w' then 48 <= n <= 57 || 65 <= n <= 90 || 97 <= n <= 122
    else if x == 'W' then !(48 <= n <= 57 || 65 <= n <= 90 || 97 <= n <= 122)
    else if x == 'x' then 48 <= n <= 57 || 65 <= n <= 70 || 97 <= n <= 102
    else if x == 'X' then !(48 <= n <= 57 || 65 <= n <= 70 || 97 <= n <= 102)
    else if x == 'z' then n == 0
    else if x == 'Z' then n != 0
    else n == x as int
  }

  predicate BelongsTo(n: int, part: SetPart) {
    match part
    case One(c) => n == c as int
    case Span(lo, hi) => lo as int <= n <= hi as int
    case Named(x) => Belongs(n, x)
  }

  ghost predicate BelongsToSome(n: int, parts: seq<SetPart>) {
    exists k :: 0 <= k < |parts| && BelongsTo(n, parts[k])
  }

  /** The character with code n fits the class. */
  ghost predicate Fits(n: int, cls: CharClass) {
    match cls
    case Any => true
    case Plain(c) => n == c as int
    case Escaped(x) => Belongs(n, x)
    case Set(negated, parts) => BelongsToSome(n, parts) != negated
  }

  // ------------------------------------------------------------ how they are written

  function PartText(part: SetPart): string {
    match part
    case One(c) => [c]
    case Span(lo, hi) => [lo, '-', hi]
    case Named(x) => ['%', x]
  }

  function PartsText(parts: seq<SetPart>): string {
    if parts == [] then [] else PartText(parts[0]) + PartsText(parts[1..])
  }

  function ClassText(cls: CharClass): (t: string) {
    match cls
    case Any => "."
    case Plain(c) => [c]
    case Escaped(x) => ['%', x]
    case Set(negated, parts) => "[" + ((if negated then "^" else "") + (PartsText(parts) + "]"))
  }

  /** A character that stands for itself inside a set. */
  predicate PlainMember(c: char) {
    c !in {'\0', '%', ']', '-', '^'}
  }

  predicate ClearPart(part: SetPart) {
    match part
    case One(c) => PlainMember(c)
    case Span(lo, hi) => PlainMember(lo) && hi !in {'\0', '%', ']'}
    case Named(x) => x != '\0'
  }

  /** What is written is read as this class. */
  predicate Clear(cls: CharClass) {
    match cls
    case Any => true
    case Plain(c) => c !in {'\0', '%', '(', ')', '.', '[', '$'}
    case Escaped(x) => x !in {'\0', 'b', 'f'} && !(48 <= x as int <= 57)
    case Set(_, parts) => parts != [] && forall k :: 0 <= k < |parts| ==> ClearPart(parts[k])
  }

  /** t stands at p. */
  predicate Stands(pat: string, p: nat, t: string) {
    p + |t| <= |pat| && pat[p..p + |t|] == t
  }

  lemma StandsAt(pat: string, p: nat, a: string, b: string)
    ensures Stands(pat, p, a + b) <==> Stands(pat, p, a) && Stands(pat, p + |a|, b)
  {
    if p + |a + b| <= |pat| {
      assert pat[p..p + |a + b|] == pat[p..p + |a|] + pat[p + |a|..p + |a| + |b|];
      if Stands(pat, p, a + b) {
        assert pat[p..p + |a|] == (a + b)[..|a|] && pat[p + |a|..p + |a| + |b|] == (a + b)[|a|..];
      }
    }
  }

  lemma StandsChar(pat: string, p: nat, t: string, i: nat)
    requires Stands(pat, p, t) && i < |t|
    ensures p + i < |pat| && At(pat, p + i) == t[i]
  {
    assert pat[p..p + |t|][i] == t[i];
  }

  // --------------------------------------------------------------------- membership

  lemma ClassCodes(c: char, x: char)
    ensures MatchClass(c, x) <==> Belongs(c as int, x)
  {
  }

  /** The parts between q and the closing bracket are read one by one, and the bracket
      is found. */
  lemma {:induction false} PartsRead(c: char, pat: string, q: nat, parts: seq<SetPart>)
    requires parts != [] && (forall k :: 0 <= k < |parts| ==> ClearPart(parts[k]))
    requires Stands(pat, q, PartsText(parts) + "]")
    ensures SetEnd(pat, q) == Some(q + |PartsText(parts)|)
    ensures InSome(c, SetItems(pat, q, q + |PartsText(parts)|)) <==> BelongsToSome(c as int, parts)
    decreases |parts|
  {
    hide MatchClass, Belongs, InSome, BelongsToSome, Stands, At;
    var part, rest := parts[0], parts[1..];
    var a, b := PartText(part), PartsText(rest) + "]";
    var ec := q + |PartsText(parts)|;
    assert PartsText(parts) + "]" == a + b;
    StandsAt(pat, q, a, b);
    NextStarts(pat, q + |a|, rest);
    PartStep(c, pat, q, part, ec);
    BracketStep(c, pat, ec, ec);
    SomeSplit(c as int, parts);
    if rest != [] {
      PartsRead(c, pat, q + |a|, rest);
    }
  }

  lemma SomeSplit(n: int, parts: seq<SetPart>)
    requires parts != []
    ensures BelongsToSome(n, parts) <==> BelongsTo(n, parts[0]) || BelongsToSome(n, parts[1..])
    ensures !BelongsToSome(n, [])
  {
    hide BelongsTo;
    if BelongsToSome(n, parts[1..]) {
      var k :| 0 <= k < |parts[1..]| && BelongsTo(n, parts[1..][k]);
      assert BelongsTo(n, parts[k + 1]);
    }
    if k :| 0 <= k < |parts| && BelongsTo(n, parts[k]) {
      if k > 0 {
        assert BelongsTo(n, parts[1..][k - 1]);
      }
    }
  }

  /** What follows a part begins with the bracket exactly if no part is left. */
  lemma NextStarts(pat: string, q: nat, rest: seq<SetPart>)
    requires Stands(pat, q, PartsText(rest) + "]") && forall k :: 0 <= k < |rest| ==> ClearPart(rest[k])
    ensures At(pat, q) == ']' <==> rest == []
    ensures At(pat, q) != '-'
  {
    StandsChar(pat, q, PartsText(rest) + "]", 0);
    if rest != [] {
      assert ClearPart(rest[0]);
      assert (PartsText(rest) + "]")[0] == PartText(rest[0])[0];
    }
  }

  /** One part is read, on the way to the bracket at ec. */
  lemma PartStep(c: char, pat: string, q: nat, part: SetPart, ec: nat)
    requires ClearPart(part) && Stands(pat, q, PartText(part)) && q + |PartText(part)| <= ec
    requires At(pat, q + |PartText(part)|) != '-'
    ensures var n := q + |PartText(part)|;
      && SetEnd(pat, q) == (if At(pat, n) == ']' then Some(n) else SetEnd(pat, n))
      && (InSome(c, SetItems(pat, q, ec)) <==> BelongsTo(c as int, part) || InSome(c, SetItems(pat, n, ec)))
  {
    hide MatchClass, Belongs, InSome, SetItems;
    StandsChar(pat, q, PartText(part), 0);
    BracketStep(c, pat, q, ec);
    match part
    case One(_) =>
    case Span(lo, hi) =>
      StandsChar(pat, q, PartText(part), 1);
      StandsChar(pat, q, PartText(part), 2);
      assert SetEnd(pat, q) == SetEnd(pat, q + 1);
      assert SetEnd(pat, q + 1) == SetEnd(pat, q + 2);
    case Named(x) =>
      StandsChar(pat, q, PartText(part), 1);
      ClassCodes(c, x);
  }

  /** The class that is written at p ends where its text does, and holds the
      characters that fit it. */
  lemma ClassReads(c: char, pat: string, p: nat, cls: CharClass)
    requires Clear(cls) && Stands(pat, p, ClassText(cls))
    ensures p < |pat| && At(pat, p) != '\0' && ClassEndOf(pat, p) == EndsAt(p + |ClassText(cls)|)
    ensures InClass(c, pat, p, p + |ClassText(cls)|) <==> Fits(c as int, cls)
  {
    hide MatchClass, Belongs, InSome, BelongsToSome, SetItems, SetEnd;
    StandsChar(pat, p, ClassText(cls), 0);
    match cls
    case Any =>
    case Plain(_) =>
    case Escaped(x) =>
      StandsChar(pat, p, ClassText(cls), 1);
      ClassCodes(c, x);
    case Set(negated, parts) =>
      SetReads(c, pat, p, negated, parts);
  }

  lemma SetReads(c: char, pat: string, p: nat, negated: bool, parts: seq<SetPart>)
    requires Clear(Set(negated, parts)) && Stands(pat, p, ClassText(Set(negated, parts)))
    ensures var ep := p + |ClassText(Set(negated, parts))|;
      At(pat, p) == '[' && ep > 0 && SetEnd(pat, SetStart(pat, p)) == Some(ep - 1) && (InSet(c, pat, p, ep - 1) <==> Fits(c as int, Set(negated, parts)))
  {
    hide MatchClass, Belongs, InSome, BelongsToSome, SetItems, SetEnd, PartsText, Stands, At;
    var sign := if negated then "^" else "";
    var inner := PartsText(parts) + "]";
    StandsChar(pat, p, "[" + (sign + inner), 0);
    StandsAt(pat, p, "[", sign + inner);
    StandsAt(pat, p + 1, sign, inner);
    if negated {
      StandsChar(pat, p + 1, sign, 0);
    } else {
      InnerStarts(pat, p + 1, parts);
    }
    PartsRead(c, pat, p + 1 + |sign|, parts);
  }

  lemma InnerStarts(pat: string, q: nat, parts: seq<SetPart>)
    requires parts != [] && ClearPart(parts[0]) && Stands(pat, q, PartsText(parts) + "]")
    ensures At(pat, q) != '^'
  {
    StandsChar(pat, q, PartsText(parts) + "]", 0);
    assert (PartsText(parts) + "]")[0] == PartText(parts[0])[0];
  }

  // ------------------------------------------------------------------ single items

  /** The characters src[s..s + n] fit, and the next one does not. */
  ghost predicate RunOf(src: string, s: nat, n: nat, cls: CharClass) {
    && s + n <= |src|
    && (forall i :: s <= i < s + n ==> Fits(src[i] as int, cls))
    && (s + n < |src| ==> !Fits(src[s + n] as int, cls))
  }

  /** A class is written at c.p and ends at ep. */
  ghost predicate Writes(src: string, pat: string, c: Config, cls: CharClass, ep: nat) {
    Ok(src, pat, c) && Clear(cls) && Stands(pat, c.p, ClassText(cls)) && ep == c.p + |ClassText(cls)|
  }

  lemma ItemReads(src: string, pat: string, c: Config, cls: CharClass, ep: nat)
    requires Writes(src, pat, c, cls, ep)
    ensures c.p < ep <= |pat| && IsRepeat(src, pat, c, ep, RepeatOf(At(pat, ep)))
    ensures RepeatOf(At(pat, ep)) != Once ==> ep < |pat|
    ensures forall i :: 0 <= i < |src| ==> (InClass(src[i], pat, c.p, ep) <==> Fits(src[i] as int, cls))
  {
    hide InClass, Fits;
    StandsChar(pat, c.p, ClassText(cls), 0);
    if cls.Escaped? {
      StandsChar(pat, c.p, ClassText(cls), 1);
    }
    ClassReads('\0', pat, c.p, cls);
    forall i | 0 <= i < |src|
      ensures InClass(src[i], pat, c.p, ep) <==> Fits(src[i] as int, cls)
    {
      ClassReads(src[i], pat, c.p, cls);
    }
    hide ClassEndOf, Clear, Stands, ClassText;
    assert ItemAt(pat, c.p).0 == SingleAt(pat, c.p);
  }

  lemma {:induction false} RunIsMaximal(src: string, s: nat, pat: string, p: nat, ep: nat, cls: CharClass, n: nat)
    requires ep > 0 && RunOf(src, s, n, cls)
    requires forall i :: 0 <= i < |src| ==> (InClass(src[i], pat, p, ep) <==> Fits(src[i] as int, cls))
    ensures MaxRun(src, s, pat, p, ep) == n
    decreases n
  {
    hide InClass, Fits, MaxRun;
    RunStep(src, s, pat, p, ep);
    if n > 0 {
      RunIsMaximal(src, s + 1, pat, p, ep, cls, n - 1);
    }
  }

  /** What the pattern gives from q on, behind k more characters. */
  ghost function Onward(src: string, pat: string, c: Config, k: nat, q: nat): Outcome
    requires Ok(src, pat, c) && c.s + k <= |src| && q <= |pat|
  {
    Later(c.caps, c.s, c.s + k);
    First(src, pat, Config(c.s + k, q, c.caps))
  }

  /** An item that is not repeated takes one character that fits. */
  lemma ItemOnce(src: string, pat: string, c: Config, cls: CharClass, ep: nat, n: nat)
    requires Writes(src, pat, c, cls, ep) && RunOf(src, c.s, n, cls)
    requires At(pat, ep) !in {'?', '*', '+', '-'}
    ensures ep <= |pat| && First(src, pat, c) == if n > 0 then Onward(src, pat, c, 1, ep) else NotFound
  {
    hide First, FirstOf, InClass, Fits, ItemAt, SingleAt, Writes, MaxRun;
    ItemReads(src, pat, c, cls, ep);
    RunIsMaximal(src, c.s, pat, c.p, ep, cls, n);
    if n > 0 {
      OnceTaken(src, pat, c, ep);
    } else {
      OnceRefused(src, pat, c, ep);
    }
  }

  lemma OnceRefused(src: string, pat: string, c: Config, ep: nat)
    requires IsRepeat(src, pat, c, ep, Once) && ep > 0 && MaxRun(src, c.s, pat, c.p, ep) == 0
    ensures First(src, pat, c) == NotFound
  {
    hide First, FirstOf;
    Stuck(src, pat, c);
  }

  /** With "?" it takes one, unless the rest then does not match. */
  lemma ItemOptional(src: string, pat: string, c: Config, cls: CharClass, ep: nat, n: nat)
    requires Writes(src, pat, c, cls, ep) && RunOf(src, c.s, n, cls)
    requires At(pat, ep) == '?'
    ensures ep < |pat|
    ensures First(src, pat, c) == if n > 0 && Onward(src, pat, c, 1, ep + 1) != NotFound then Onward(src, pat, c, 1, ep + 1)
                                  else Onward(src, pat, c, 0, ep + 1)
  {
    hide First, FirstOf, InClass, Fits, ChoicesAt, ItemAt, SingleAt, Writes, IsRepeat;
    ItemReads(src, pat, c, cls, ep);
    if n > 0 {
      OptionalTaken(src, pat, c, ep);
    } else {
      OptionalLeft(src, pat, c, ep);
    }
  }

  /** With "*" and "+" it takes the longest run that lets the rest match; with "+" at
      least one character. */
  lemma ItemLongest(src: string, pat: string, c: Config, cls: CharClass, ep: nat, n: nat) returns (k: int)
    requires Writes(src, pat, c, cls, ep) && RunOf(src, c.s, n, cls)
    requires At(pat, ep) == '*' || At(pat, ep) == '+'
    ensures ep < |pat|
    ensures var least, q := if At(pat, ep) == '*' then 0 else 1, ep + 1;
      && least - 1 <= k <= n
      && First(src, pat, c) == (if k >= least then Onward(src, pat, c, k, q) else NotFound)
      && (k >= least ==> Onward(src, pat, c, k, q) != NotFound)
      && (forall i: nat :: k < i <= n && i >= least ==> Onward(src, pat, c, i, q) == NotFound)
  {
    hide First, FirstOf, InClass, Fits, ChoicesAt, ItemAt, SingleAt, Writes, MaxRun;
    ItemReads(src, pat, c, cls, ep);
    RunIsMaximal(src, c.s, pat, c.p, ep, cls, n);
    k := LongestFirst(src, pat, c, ep, if At(pat, ep) == '*' then Longest else LongestNonEmpty);
    var q := ep + 1;
    forall i: nat | k < i <= n && i >= (if At(pat, ep) == '*' then 0 else 1)
      ensures Onward(src, pat, c, i, q) == NotFound
    {
      assert Rest(src, pat, c, ep, i) == NotFound;
    }
  }

  /** With "-" it takes the shortest one. */
  lemma ItemShortest(src: string, pat: string, c: Config, cls: CharClass, ep: nat, n: nat) returns (k: nat)
    requires Writes(src, pat, c, cls, ep) && RunOf(src, c.s, n, cls)
    requires At(pat, ep) == '-'
    ensures ep < |pat| && k <= n + 1
    ensures var q := ep + 1;
      && First(src, pat, c) == (if k <= n then Onward(src, pat, c, k, q) else NotFound)
      && (k <= n ==> Onward(src, pat, c, k, q) != NotFound)
      && (forall i: nat :: i < k && i <= n ==> Onward(src, pat, c, i, q) == NotFound)
  {
    hide First, FirstOf, InClass, Fits, ChoicesAt, ItemAt, SingleAt, Writes, MaxRun;
    ItemReads(src, pat, c, cls, ep);
    RunIsMaximal(src, c.s, pat, c.p, ep, cls, n);
    k := ShortestFirst(src, pat, c, ep);
    var q := ep + 1;
    forall i: nat | i < k && i <= n
      ensures Onward(src, pat, c, i, q) == NotFound
    {
      assert Rest(src, pat, c, ep, i) == NotFound;
    }
  }

  /** A pattern that is one class matches one character that fits it. */
  lemma ClassAlone(src: string, cls: CharClass, s: nat)
    requires Clear(cls) && s <= |src|
    ensures First(src, ClassText(cls), Config(s, 0, [])) ==
            if s < |src| && Fits(src[s] as int, cls) then Found(s + 1, []) else NotFound
  {
    hide First, Fits, ClassText, Clear, RunOf;
    var pat := ClassText(cls);
    var c := Config(s, 0, []);
    assert pat[0..|pat|] == pat;
    var n := RunThere(src, s, cls);
    ItemOnce(src, pat, c, cls, |pat|, n);
    RunView(src, s, n, cls);
    if n > 0 {
      EndStep(src, pat, Config(s + 1, |pat|, []));
    }
  }

  lemma {:induction false} RunThere(src: string, s: nat, cls: CharClass) returns (n: nat)
    requires s <= |src|
    ensures RunOf(src, s, n, cls)
    decreases |src| - s
  {
    hide Fits;
    n := 0;
    if s < |src| && Fits(src[s] as int, cls) {
      var m := RunThere(src, s + 1, cls);
      n := m + 1;
    }
  }

  lemma RunView(src: string, s: nat, n: nat, cls: CharClass)
    requires RunOf(src, s, n, cls)
    ensures n > 0 <==> s < |src| && Fits(src[s] as int, cls)
  {
    hide Fits;
  }

  // ------------------------------------------------------------------ other items

  /** "$" at the end of the pattern matches at the end of the subject only. */
  lemma EndMark(src: string, pat: string, c: Config)
    requires Ok(src, pat, c) && Stands(pat, c.p, "$") && c.p + 1 == |pat|
    ensures First(src, pat, c) == if c.s == |src| then Found(c.s, c.caps) else NotFound
  {
    hide First;
    StandsChar(pat, c.p, "$", 0);
    EndStep(src, pat, c);
  }

  /** How often x is in t. */
  function Occurs(t: string, x: char): nat {
    multiset(t)[x]
  }

  lemma {:induction false} DepthCounts(src: string, i: nat, j: nat, x: char, y: char)
    requires i <= j <= |src|
    ensures Depth(src, i, j, x, y) == (if x == y then 0 else Occurs(src[i..j], x)) - Occurs(src[i..j], y)
    decreases j
  {
    if i < j {
      DepthCounts(src, i, j - 1, x, y);
      assert src[i..j] == src[i..j - 1] + [src[j - 1]];
    } else {
      assert src[i..j] == [];
    }
  }

  /** How many more x than y there are in src[s..j], the x at s being the first; when x
      and y are the same character, every further one closes. */
  function Unclosed(src: string, s: nat, j: nat, x: char, y: char): int
    requires s < j <= |src|
  {
    1 + (if x == y then 0 else Occurs(src[s + 1..j], x)) - Occurs(src[s + 1..j], y)
  }

  /** src[s..e] begins with x and ends where all are closed for the first time. */
  ghost predicate Balanced(src: string, s: nat, x: char, y: char, e: nat) {
    && s + 1 < e <= |src| && src[s] == x
    && Unclosed(src, s, e, x, y) == 0 && (forall j :: s < j < e ==> Unclosed(src, s, j, x, y) > 0)
  }

  lemma BalancedSame(src: string, s: nat, x: char, y: char, e: nat)
    ensures Balanced(src, s, x, y, e) <==> BalancedTo(src, s, x, y, e)
  {
    hide Depth, Occurs;
    forall j | s < j <= |src|
      ensures Unclosed(src, s, j, x, y) == Height(src, s, j, x, y)
    {
      DepthCounts(src, s + 1, j, x, y);
    }
  }

  /** "%bxy" goes on behind the balanced part, if there is one. */
  lemma BalanceReads(src: string, pat: string, c: Config, x: char, y: char)
    requires Ok(src, pat, c) && Stands(pat, c.p, ['%', 'b', x, y]) && x != '\0' && y != '\0'
    ensures c.p + 4 <= |pat|
    ensures forall e: nat :: Balanced(src, c.s, x, y, e) ==> First(src, pat, c) == Onward(src, pat, c, e - c.s, c.p + 4)
    ensures (forall e: nat :: !Balanced(src, c.s, x, y, e)) ==> First(src, pat, c) == NotFound
  {
    hide First, Unclosed, Height;
    forall i: nat | i < 4
      ensures c.p + i < |pat| && At(pat, c.p + i) == ['%', 'b', x, y][i]
    {
      StandsChar(pat, c.p, ['%', 'b', x, y], i);
    }
    assert At(pat, c.p + 1) == 'b' && At(pat, c.p + 2) == x && At(pat, c.p + 3) == y && At(pat, c.p + 0) == '%';
    forall e: nat
      ensures Balanced(src, c.s, x, y, e) <==> BalancedTo(src, c.s, x, y, e)
    {
      BalancedSame(src, c.s, x, y, e);
    }
    hide Stands, Ok;
    if e: nat :| Balanced(src, c.s, x, y, e) {
      BalanceStep(src, pat, c, EndAt(e));
      forall e': nat | Balanced(src, c.s, x, y, e')
        ensures e' == e
      {
        BalancedOnce(src, c.s, x, y, e, e');
      }
    } else {
      BalanceStep(src, pat, c, NoMatch);
    }
  }

  /** "%f" with a set goes on, in place, where a character that fits the set follows one
      that does not; before the subject and behind it there is a zero. */
  lemma FrontierReads(src: string, pat: string, c: Config, negated: bool, parts: seq<SetPart>, ep: nat)
    requires Ok(src, pat, c) && Clear(Set(negated, parts)) && Stands(pat, c.p, "%f" + ClassText(Set(negated, parts)))
    requires ep == c.p + 2 + |ClassText(Set(negated, parts))|
    ensures ep <= |pat|
    ensures var before, next := if c.s == 0 then 0 else src[c.s - 1] as int, if c.s == |src| then 0 else src[c.s] as int;
      First(src, pat, c) ==
      if !Fits(before, Set(negated, parts)) && Fits(next, Set(negated, parts)) then Onward(src, pat, c, 0, ep) else NotFound
  {
    hide First, FirstOf, InSet, InClass, Fits, ClassText, Clear, ClassEndOf, SetEnd, SetStart, Stands, ItemAt, ChoicesAt, CapturesOk;
    var cls := Set(negated, parts);
    FrontierStands(pat, c.p, cls);
    var before, next := if c.s == 0 then '\0' else src[c.s - 1], At(src, c.s);
    ClassReads(before, pat, c.p + 2, cls);
    SetReads(before, pat, c.p + 2, negated, parts);
    SetReads(next, pat, c.p + 2, negated, parts);
    FrontierStep(src, pat, c, ep);
  }

  lemma FrontierStands(pat: string, p: nat, cls: CharClass)
    requires cls.Set? && Stands(pat, p, "%f" + ClassText(cls))
    ensures At(pat, p) == ESC && At(pat, p + 1) == 'f' && At(pat, p + 2) == '[' && Stands(pat, p + 2, ClassText(cls))
  {
    StandsChar(pat, p, "%f" + ClassText(cls), 0);
    StandsChar(pat, p, "%f" + ClassText(cls), 1);
    StandsAt(pat, p, "%f", ClassText(cls));
    StandsChar(pat, p + 2, ClassText(cls), 0);
  }

  /** The capture is closed and its text stands at s. */
  predicate TextAt(src: string, cap: Capture, s: nat) {
    && 0 <= cap.len <= |src| - s && cap.init + cap.len <= |src|
    && src[cap.init..cap.init + cap.len] == src[s..s + cap.len]
  }

  /** "%1" to "%9" match what a closed capture has matched; a capture that is not there
      or not closed is an error, and a position matches nowhere. */
  lemma ReferenceReads(src: string, pat: string, c: Config, d: char)
    requires Ok(src, pat, c) && Stands(pat, c.p, ['%', d]) && 48 <= d as int <= 57
    ensures c.p + 2 <= |pat|
    ensures var k := d as int - 49;
      First(src, pat, c) ==
      if k < 0 || k >= |c.caps| || c.caps[k].len == -1 then Error(InvalidCaptureIndex)
      else if TextAt(src, c.caps[k], c.s) then Onward(src, pat, c, c.caps[k].len, c.p + 2)
      else NotFound
  {
    hide First, TextAt, Repeats, ItemAt, ChoicesAt;
    StandsChar(pat, c.p, ['%', d], 0);
    StandsChar(pat, c.p, ['%', d], 1);
    var k := d as int - 49;
    if k >= 0 && k < |c.caps| && c.caps[k].len != -1 {
      SameText(src, c.caps[k], c.s);
      ReferenceStep(src, pat, c, d, if Repeats(src, c.caps[k], c.s) then EndAt(c.s + c.caps[k].len) else NoMatch);
    } else {
      ReferenceStep(src, pat, c, d, Raised(InvalidCaptureIndex));
    }
  }

  lemma SameText(src: string, cap: Capture, s: nat)
    requires s <= |src|
    ensures TextAt(src, cap, s) <==> Repeats(src, cap, s)
    ensures TextAt(src, cap, s) ==> 0 <= cap.len && s + cap.len <= |src|
  {
  }

  /** "(" opens a capture and "()" a position capture, up to 32 of them. */
  lemma OpenReads(src: string, pat: string, c: Config)
    requires Ok(src, pat, c) && Stands(pat, c.p, "(")
    ensures |c.caps| <= 32 && c.p + 1 <= |pat| && (Stands(pat, c.p, "()") ==> c.p + 2 <= |pat|)
    ensures First(src, pat, c) ==
            if |c.caps| == 32 then Error(TooManyCaptures)
            else if Stands(pat, c.p, "()") then OpenedAt(src, pat, c, -2, c.p + 2)
            else OpenedAt(src, pat, c, -1, c.p + 1)
  {
    hide First;
    StandsChar(pat, c.p, "(", 0);
    if Stands(pat, c.p, "()") {
      StandsChar(pat, c.p, "()", 1);
    } else if c.p + 1 < |pat| && pat[c.p + 1] == ')' {
      assert pat[c.p..c.p + 2] == "()";
    }
    CaptureStarts(src, pat, c);
  }

  ghost function OpenedAt(src: string, pat: string, c: Config, len: int, q: nat): Outcome
    requires Ok(src, pat, c) && |c.caps| < 32 && len in {-1, -2} && q <= |pat|
  {
    First(src, pat, Config(c.s, q, c.caps + [Capture(c.s, len)]))
  }
}
