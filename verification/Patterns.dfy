/** What a pattern means (src/lstrlib.c:160-440; section 5.4.1 of the Lua 5.1
    Reference Manual).  A pattern position offers a list of choices in order of
    priority; a match is a path through these choices. */
module Patterns {
  import opened Seqs

  datatype Fault =
    | EndsWithEscape
    | MissingBracketEnd
    | UnbalancedPattern
    | MissingFrontierSet
    | InvalidCaptureIndex
    | InvalidPatternCapture
    | TooManyCaptures
    | UnfinishedCapture

  const ESC := '%'
  const MAXCAPTURES := 32
  const UNFINISHED := -1
  const POSITION := -2

  /** C strings end in a zero. */
  function At(s: string, i: nat): char {
    if i < |s| then s[i] else '\0'
  }

  // ------------------------------------------------------------ character classes

  predicate IsLower(c: char) { 'a' <= c <= 'z' }
  predicate IsUpper(c: char) { 'A' <= c <= 'Z' }
  predicate IsAlpha(c: char) { IsLower(c) || IsUpper(c) }
  predicate IsDigit(c: char) { '0' <= c <= '9' }
  predicate IsAlnum(c: char) { IsAlpha(c) || IsDigit(c) }
  predicate IsSpace(c: char) { c == ' ' || 9 <= c as int <= 13 }
  predicate IsCntrl(c: char) { c as int < 32 || c as int == 127 }
  predicate IsPunct(c: char) { 32 < c as int < 127 && !IsAlnum(c) }
  predicate IsXDigit(c: char) { IsDigit(c) || 'a' <= c <= 'f' || 'A' <= c <= 'F' }

  function ToLower(c: char): char {
    if IsUpper(c) then (c as int + 32) as char else c
  }

  /** c belongs to the class %cl: a letter names a class (in upper case, its
      complement) and any other character itself. */
  predicate MatchClass(c: char, cl: char) {
    var l := ToLower(cl);
    var named := l in {'a', 'c', 'd', 'l', 'p', 's', 'u', 'w', 'x', 'z'};
    var res :=
      if l == 'a' then IsAlpha(c)
      else if l == 'c' then IsCntrl(c)
      else if l == 'd' then IsDigit(c)
      else if l == 'l' then IsLower(c)
      else if l == 'p' then IsPunct(c)
      else if l == 's' then IsSpace(c)
      else if l == 'u' then IsUpper(c)
      else if l == 'w' then IsAlnum(c)
      else if l == 'x' then IsXDigit(c)
      else c == '\0';
    if !named then cl == c else if IsLower(cl) then res else !res
  }

  /** The members of a set, between the brackets. */
  datatype SetItem = Class(cl: char) | Range(lo: char, hi: char) | Literal(c: char)

  predicate InItem(c: char, it: SetItem) {
    match it
    case Class(cl) => MatchClass(c, cl)
    case Range(lo, hi) => lo <= c <= hi
    case Literal(x) => c == x
  }

  /** The members of a set read from q up to the closing bracket ec. */
  function SetItems(pat: string, q: nat, ec: nat): (items: seq<SetItem>)
    decreases if q < ec then ec - q else 0
  {
    if q >= ec then []
    else if At(pat, q) == ESC then [Class(At(pat, q + 1))] + SetItems(pat, q + 2, ec)
    else if At(pat, q + 1) == '-' && q + 2 < ec then [Range(At(pat, q), At(pat, q + 2))] + SetItems(pat, q + 3, ec)
    else [Literal(At(pat, q))] + SetItems(pat, q + 1, ec)
  }

  ghost predicate InSome(c: char, items: seq<SetItem>) {
    exists k :: 0 <= k < |items| && InItem(c, items[k])
  }

  function SetStart(pat: string, p: nat): nat {
    if At(pat, p + 1) == '^' then p + 2 else p + 1
  }

  /** c belongs to the set whose brackets stand at p and ec. */
  ghost predicate InSet(c: char, pat: string, p: nat, ec: nat) {
    InSome(c, SetItems(pat, SetStart(pat, p), ec)) != (At(pat, p + 1) == '^')
  }

  // ---------------------------------------------------------------- pattern items

  /** The next member of a set; an escaped character belongs to its escape. */
  function AfterMember(pat: string, q: nat): nat {
    if At(pat, q) == ESC && At(pat, q + 1) != '\0' then q + 2 else q + 1
  }

  /** Where a set read from q ends: its first member may be a bracket. */
  function SetEnd(pat: string, q: nat): (r: Option<nat>)
    ensures r.Some? ==> q < r.value < |pat| && pat[r.value] == ']'
    decreases if q <= |pat| then |pat| - q else 0
  {
    if At(pat, q) == '\0' then None
    else
      var n := AfterMember(pat, q);
      if At(pat, n) == ']' then Some(n) else SetEnd(pat, n)
  }

  /** Members of the set read from q start at i, or the bracket after the last one
      stands there. */
  predicate Starts(pat: string, q: nat, i: nat)
    decreases if q <= i then i - q else 0
  {
    i == q || (q < i && Starts(pat, AfterMember(pat, q), i))
  }

  /** e is the first bracket that is neither the first member nor escaped, with no
      zero before it. */
  ghost predicate FirstBracket(pat: string, q: nat, e: nat) {
    && q < e && At(pat, e) == ']' && Starts(pat, q, e)
    && forall j: nat :: Starts(pat, q, j) && j < e ==> At(pat, j) != '\0' && (q < j ==> At(pat, j) != ']')
  }

  /** z is a zero before any such bracket. */
  ghost predicate EndsBefore(pat: string, q: nat, z: nat) {
    && At(pat, z) == '\0' && Starts(pat, q, z)
    && forall j: nat :: Starts(pat, q, j) && q < j < z ==> At(pat, j) != ']'
  }

  lemma StartsFrom(pat: string, q: nat, j: nat)
    ensures Starts(pat, q, j) ==> j >= q && (j > q ==> j >= AfterMember(pat, q))
    ensures j > q ==> (Starts(pat, q, j) <==> Starts(pat, AfterMember(pat, q), j))
  {
    assert Starts(pat, AfterMember(pat, q), j) ==> j >= AfterMember(pat, q);
  }

  /** A set ends at its first bracket, and has no end if the pattern ends before. */
  lemma {:induction false} SetEndFirst(pat: string, q: nat, e: nat)
    ensures SetEnd(pat, q) == Some(e) <==> FirstBracket(pat, q, e)
    ensures SetEnd(pat, q) == None <==> exists z: nat :: EndsBefore(pat, q, z)
    decreases if q <= |pat| then |pat| - q else 0
  {
    if At(pat, q) == '\0' {
      assert EndsBefore(pat, q, q);
      assert Starts(pat, q, q);
    } else {
      var n := AfterMember(pat, q);
      StartsFrom(pat, q, n);
      assert Starts(pat, n, n);
      if At(pat, n) == ']' {
        BracketNext(pat, q, e);
      } else {
        SetEndFirst(pat, n, e);
        BracketLater(pat, q, e);
        if z: nat :| EndsBefore(pat, n, z) {
          ZeroLater(pat, q, z);
        }
        if z: nat :| EndsBefore(pat, q, z) {
          ZeroLater(pat, q, z);
        }
      }
    }
  }

  lemma BracketNext(pat: string, q: nat, e: nat)
    requires At(pat, q) != '\0' && At(pat, AfterMember(pat, q)) == ']'
    ensures FirstBracket(pat, q, e) <==> e == AfterMember(pat, q)
    ensures forall z: nat :: !EndsBefore(pat, q, z)
  {
    var n := AfterMember(pat, q);
    assert Starts(pat, n, n) && Starts(pat, q, n);
    forall j: nat | Starts(pat, q, j) && j < n
      ensures j == q
    {
      StartsFrom(pat, q, j);
    }
    StartsFrom(pat, q, e);
    forall z: nat
      ensures !EndsBefore(pat, q, z)
    {
      StartsFrom(pat, q, z);
    }
  }

  lemma BracketLater(pat: string, q: nat, e: nat)
    requires At(pat, q) != '\0' && At(pat, AfterMember(pat, q)) != ']'
    ensures FirstBracket(pat, q, e) <==> FirstBracket(pat, AfterMember(pat, q), e)
  {
    var n := AfterMember(pat, q);
    forall j: nat
      ensures Starts(pat, q, j) <==> j == q || Starts(pat, n, j)
    {
      StartsFrom(pat, q, j);
      StartsFrom(pat, n, j);
    }
    StartsFrom(pat, n, e);
    StartsFrom(pat, q, e);
    if FirstBracket(pat, q, e) {
      assert e != n;
      forall j: nat | Starts(pat, n, j) && j < e
        ensures At(pat, j) != '\0' && (n < j ==> At(pat, j) != ']')
      {
        StartsFrom(pat, n, j);
        assert Starts(pat, q, j);
      }
    }
    if FirstBracket(pat, n, e) {
      forall j: nat | Starts(pat, q, j) && j < e
        ensures At(pat, j) != '\0' && (q < j ==> At(pat, j) != ']')
      {
        StartsFrom(pat, q, j);
      }
    }
  }

  lemma ZeroLater(pat: string, q: nat, z: nat)
    requires At(pat, q) != '\0' && At(pat, AfterMember(pat, q)) != ']'
    ensures EndsBefore(pat, q, z) <==> EndsBefore(pat, AfterMember(pat, q), z)
  {
    var n := AfterMember(pat, q);
    forall j: nat
      ensures Starts(pat, q, j) <==> j == q || Starts(pat, n, j)
    {
      StartsFrom(pat, q, j);
      StartsFrom(pat, n, j);
    }
    if EndsBefore(pat, n, z) {
      forall j: nat | Starts(pat, q, j) && q < j < z
        ensures At(pat, j) != ']'
      {
        StartsFrom(pat, n, j);
      }
    }
    if EndsBefore(pat, q, z) {
      forall j: nat | Starts(pat, n, j) && n < j < z
        ensures At(pat, j) != ']'
      {
        assert Starts(pat, q, j);
      }
    }
  }

  datatype Ended = EndsAt(ep: nat) | Malformed(fault: Fault)

  /** Where the single-character class at p ends. */
  function ClassEndOf(pat: string, p: nat): (r: Ended)
    requires At(pat, p) != '\0'
    ensures r.EndsAt? ==> p < r.ep <= |pat|
    ensures r.EndsAt? && pat[p] == '[' ==> p + 1 < r.ep && pat[r.ep - 1] == ']'
  {
    if pat[p] == ESC then
      if At(pat, p + 1) == '\0' then Malformed(EndsWithEscape) else EndsAt(p + 2)
    else if pat[p] == '[' then
      var e := SetEnd(pat, SetStart(pat, p));
      if e.None? then Malformed(MissingBracketEnd) else EndsAt(e.value + 1)
    else EndsAt(p + 1)
  }

  /** c belongs to the single-character class that stands at p and ends before ep. */
  ghost predicate InClass(c: char, pat: string, p: nat, ep: nat)
    requires ep > 0
  {
    if At(pat, p) == '.' then true
    else if At(pat, p) == ESC then MatchClass(c, At(pat, p + 1))
    else if At(pat, p) == '[' then InSet(c, pat, p, ep - 1)
    else At(pat, p) == c
  }

  datatype Repeat = Once | Optional | Longest | LongestNonEmpty | Shortest

  function RepeatOf(c: char): Repeat {
    if c == '?' then Optional
    else if c == '*' then Longest
    else if c == '+' then LongestNonEmpty
    else if c == '-' then Shortest
    else Once
  }

  datatype Item =
    | End
    | EndAnchor
    | Open(what: int)
    | Close
    | Balance(b: char, e: char)
    | Frontier
    | Reference(digit: char)
    | Single(rep: Repeat, ep: nat)
    | Bad(fault: Fault)

  function SingleAt(pat: string, p: nat): (i: Item)
    requires At(pat, p) != '\0'
    ensures i.Bad? || (i.Single? && p < i.ep <= |pat| && (i.rep != Once ==> i.ep < |pat|))
  {
    var e := ClassEndOf(pat, p);
    if e.Malformed? then Bad(e.fault) else Single(RepeatOf(At(pat, e.ep)), e.ep)
  }

  /** The pattern item at p, and where the pattern goes on behind it. */
  function ItemAt(pat: string, p: nat): (r: (Item, nat))
    ensures r.0.End? || r.0.EndAnchor? || r.0.Bad? || p < r.1 <= |pat|
    ensures r.0.Single? ==> p < r.0.ep <= r.1 && r.1 == (if r.0.rep == Once then r.0.ep else r.0.ep + 1)
    ensures r.0.Frontier? ==> p + 3 < r.1
  {
    var c := At(pat, p);
    var n := At(pat, p + 1);
    if c == '\0' then (End, p)
    else if c == '(' then if n == ')' then (Open(POSITION), p + 2) else (Open(UNFINISHED), p + 1)
    else if c == ')' then (Close, p + 1)
    else if c == '$' && n == '\0' then (EndAnchor, p + 1)
    else if c == ESC && n == 'b' then
      if At(pat, p + 2) == '\0' || At(pat, p + 3) == '\0' then (Bad(UnbalancedPattern), p)
      else (Balance(At(pat, p + 2), At(pat, p + 3)), p + 4)
    else if c == ESC && n == 'f' then
      if At(pat, p + 2) != '[' then (Bad(MissingFrontierSet), p)
      else
        var e := ClassEndOf(pat, p + 2);
        if e.Malformed? then (Bad(e.fault), p) else (Frontier, e.ep)
    else if c == ESC && IsDigit(n) then (Reference(n), p + 2)
    else
      var i := SingleAt(pat, p);
      (i, if i.Bad? then p else if i.rep == Once then i.ep else i.ep + 1)
  }

  // ---------------------------------------------------------------------- captures

  /** A capture starts at init; len is its length, UNFINISHED or POSITION. */
  datatype Capture = Capture(init: nat, len: int)

  /** Captures lie in the subject, before position s. */
  predicate CaptureOk(cap: Capture, s: nat) {
    cap.init <= s && (cap.len == UNFINISHED || cap.len == POSITION || (0 <= cap.len && cap.init + cap.len <= s))
  }

  predicate CapturesOk(caps: seq<Capture>, s: nat) {
    |caps| <= MAXCAPTURES && forall k :: 0 <= k < |caps| ==> CaptureOk(caps[k], s)
  }

  /** The capture that a closing bracket ends: the last one still open. */
  function LastOpen(caps: seq<Capture>): (r: Option<nat>)
    ensures r.None? <==> forall k :: 0 <= k < |caps| ==> caps[k].len != UNFINISHED
    ensures r.Some? ==> r.value < |caps| && caps[r.value].len == UNFINISHED
    ensures r.Some? ==> forall k :: r.value < k < |caps| ==> caps[k].len != UNFINISHED
  {
    if caps == [] then None
    else if caps[|caps| - 1].len == UNFINISHED then Some(|caps| - 1)
    else LastOpen(caps[..|caps| - 1])
  }

  /** Closing at s the last capture still open. */
  function Closed(caps: seq<Capture>, l: nat, s: nat): (r: seq<Capture>)
    requires l < |caps|
  {
    caps[l := caps[l].(len := s - caps[l].init)]
  }

  /** The index that %1 to %9 refers to. */
  function CaptureIndex(caps: seq<Capture>, digit: char): (r: Option<nat>)
    requires IsDigit(digit)
    ensures r.Some? ==> r.value < |caps| && caps[r.value].len != UNFINISHED
  {
    var l := digit as int - '1' as int;
    if l < 0 || l >= |caps| || caps[l].len == UNFINISHED then None else Some(l)
  }

  // ----------------------------------------------------------------------- choices

  /** Matching is at position s of the subject and p of the pattern. */
  datatype Config = Config(s: nat, p: nat, caps: seq<Capture>)

  datatype Choices = Final | Fail(fault: Fault) | Continue(next: seq<Config>)

  predicate Ok(src: string, pat: string, c: Config) {
    c.s <= |src| && c.p <= |pat| && CapturesOk(c.caps, c.s)
  }

  /** How many characters from s on belong to the class at p. */
  ghost function MaxRun(src: string, s: nat, pat: string, p: nat, ep: nat): (n: nat)
    requires s <= |src| && ep > 0
    ensures s + n <= |src|
    ensures forall k :: s <= k < s + n ==> InClass(src[k], pat, p, ep)
    ensures s + n < |src| ==> !InClass(src[s + n], pat, p, ep)
    decreases |src| - s
  {
    if s < |src| && InClass(src[s], pat, p, ep) then 1 + MaxRun(src, s + 1, pat, p, ep) else 0
  }

  /** How often x is read more than y in src[i..j]. */
  function Depth(src: string, i: nat, j: nat, x: char, y: char): int
    requires i <= j <= |src|
  {
    if i == j then 0
    else Depth(src, i, j - 1, x, y) + (if src[j - 1] == y then -1 else if src[j - 1] == x then 1 else 0)
  }

  /** The count when src[s..j] is read, its first character being an opening one. */
  function Height(src: string, s: nat, j: nat, x: char, y: char): int
    requires s < j <= |src|
  {
    1 + Depth(src, s + 1, j, x, y)
  }

  /** The balanced part at s ends at the first place where the count, which the
      opening character sets to one, is zero. */
  ghost predicate BalancedTo(src: string, s: nat, x: char, y: char, e: nat) {
    && s + 1 < e <= |src| && src[s] == x && Height(src, s, e, x, y) == 0
    && (forall j :: s < j < e ==> Height(src, s, j, x, y) > 0)
  }

  ghost predicate NoneBalanced(src: string, s: nat, x: char, y: char) {
    forall e: nat :: !BalancedTo(src, s, x, y, e)
  }

  lemma BalancedOnce(src: string, s: nat, x: char, y: char, e: nat, e': nat)
    requires BalancedTo(src, s, x, y, e) && BalancedTo(src, s, x, y, e')
    ensures e == e'
  {
  }

  /** The text of capture cap is repeated at s. */
  predicate Repeats(src: string, cap: Capture, s: nat) {
    && 0 <= cap.len && cap.init + cap.len <= |src| && s + cap.len <= |src|
    && src[cap.init..cap.init + cap.len] == src[s..s + cap.len]
  }

  /** The configurations behind i repetitions of an item, for the given i's. */
  function Repetitions(c: Config, counts: seq<nat>, q: nat): (cs: seq<Config>)
    ensures |cs| == |counts|
    ensures forall k :: 0 <= k < |cs| ==> cs[k] == Config(c.s + counts[k], q, c.caps)
  {
    seq(|counts|, k requires 0 <= k < |counts| => Config(c.s + counts[k], q, c.caps))
  }

  /** n, n - 1, ..., m. */
  function Down(n: nat, m: nat): (counts: seq<nat>)
    ensures |counts| == if m <= n then n - m + 1 else 0
    ensures forall k :: 0 <= k < |counts| ==> counts[k] == n - k
  {
    seq(if m <= n then n - m + 1 else 0, k requires 0 <= k < n - m + 1 => n - k)
  }

  /** 0, 1, ..., n. */
  function Up(n: nat): (counts: seq<nat>)
    ensures |counts| == n + 1 && forall k :: 0 <= k < |counts| ==> counts[k] == k
  {
    seq(n + 1, k requires 0 <= k < n + 1 => k)
  }

  /** How often an item may repeat, in order of priority. */
  ghost function Counts(rep: Repeat, n: nat): (counts: seq<nat>)
    ensures forall k :: 0 <= k < |counts| ==> counts[k] <= n
  {
    match rep
    case Once => if n > 0 then [1] else []
    case Optional => if n > 0 then [1, 0] else [0]
    case Longest => Down(n, 0)
    case LongestNonEmpty => Down(n, 1)
    case Shortest => Up(n)
  }

  /** The choices at a configuration, the preferred ones first. */
  ghost function ChoicesAt(src: string, pat: string, c: Config): (r: Choices)
    requires Ok(src, pat, c)
    ensures r.Continue? ==> forall k :: 0 <= k < |r.next| ==> Ok(src, pat, r.next[k]) && c.p < r.next[k].p && c.s <= r.next[k].s
  {
    var (item, next) := ItemAt(pat, c.p);
    match item
    case End => Final
    case EndAnchor => if c.s == |src| then Final else Continue([])
    case Bad(fault) => Fail(fault)
    case Open(what) =>
      if |c.caps| >= MAXCAPTURES then Fail(TooManyCaptures)
      else Continue([Config(c.s, next, c.caps + [Capture(c.s, what)])])
    case Close =>
      var l := LastOpen(c.caps);
      if l.None? then Fail(InvalidPatternCapture) else Continue([Config(c.s, next, Closed(c.caps, l.value, c.s))])
    case Balance(x, y) =>
      if !NoneBalanced(src, c.s, x, y) then
        var e: nat :| BalancedTo(src, c.s, x, y, e);
        Continue([Config(e, next, c.caps)])
      else Continue([])
    case Frontier =>
      var before := if c.s == 0 then '\0' else src[c.s - 1];
      if !InSet(before, pat, c.p + 2, next - 1) && InSet(At(src, c.s), pat, c.p + 2, next - 1)
      then Continue([Config(c.s, next, c.caps)]) else Continue([])
    case Reference(digit) =>
      var l := CaptureIndex(c.caps, digit);
      if l.None? then Fail(InvalidCaptureIndex)
      else if Repeats(src, c.caps[l.value], c.s) then Continue([Config(c.s + c.caps[l.value].len, next, c.caps)])
      else Continue([])
    case Single(rep, ep) =>
      Continue(Repetitions(c, Counts(rep, MaxRun(src, c.s, pat, c.p, ep)), next))
  }

  // ------------------------------------------------------------------- best match

  datatype Outcome = Found(e: nat, caps: seq<Capture>) | NotFound | Error(fault: Fault)

  /** The first outcome that the choices reach, preferred choices first. */
  ghost function First(src: string, pat: string, c: Config): (o: Outcome)
    requires Ok(src, pat, c)
    ensures o.Found? ==> c.s <= o.e <= |src| && CapturesOk(o.caps, o.e)
    decreases |pat| - c.p
  {
    var r := ChoicesAt(src, pat, c);
    match r
    case Final => Found(c.s, c.caps)
    case Fail(fault) => Error(fault)
    case Continue(next) => FirstOf(src, pat, c.s, c.p, next)
  }

  ghost predicate AllOk(src: string, pat: string, s: nat, p: nat, cs: seq<Config>) {
    forall k :: 0 <= k < |cs| ==> Ok(src, pat, cs[k]) && p < cs[k].p && s <= cs[k].s
  }

  ghost function FirstOf(src: string, pat: string, s: nat, p: nat, cs: seq<Config>): (o: Outcome)
    requires p <= |pat| && AllOk(src, pat, s, p, cs)
    ensures o.Found? ==> s <= o.e <= |src| && CapturesOk(o.caps, o.e)
    decreases |pat| - p, |cs|
  {
    if cs == [] then NotFound
    else
      var o := First(src, pat, cs[0]);
      if o == NotFound then FirstOf(src, pat, s, p, cs[1..]) else o
  }

  // ----------------------------------------------------------------------- paths

  datatype Reached = Done(e: nat, caps: seq<Capture>) | Failed(fault: Fault) | Nowhere

  /** Where a path, a choice for every configuration on the way, leads. */
  ghost function Follow(src: string, pat: string, c: Config, path: seq<nat>): Reached
    requires Ok(src, pat, c)
    decreases |path|
  {
    var r := ChoicesAt(src, pat, c);
    match r
    case Final => if path == [] then Done(c.s, c.caps) else Nowhere
    case Fail(fault) => if path == [] then Failed(fault) else Nowhere
    case Continue(next) =>
      if path != [] && path[0] < |next| then Follow(src, pat, next[path[0]], path[1..]) else Nowhere
  }

  /** Lexicographic order: at the first difference a takes the preferred choice. */
  ghost predicate Before(a: seq<nat>, b: seq<nat>) {
    exists k: nat :: k < |a| && k < |b| && a[..k] == b[..k] && a[k] < b[k]
  }

  function AsReached(o: Outcome): Reached {
    match o
    case Found(e, caps) => Done(e, caps)
    case Error(fault) => Failed(fault)
    case NotFound => Nowhere
  }

  /** path leads somewhere and is preferred to all others that do. */
  ghost predicate Best(src: string, pat: string, c: Config, path: seq<nat>)
    requires Ok(src, pat, c)
  {
    && Follow(src, pat, c, path) != Nowhere
    && (forall other: seq<nat> {:trigger Follow(src, pat, c, other)} ::
          Follow(src, pat, c, other) != Nowhere && other != path ==> Before(path, other))
  }

  lemma BeforeStep(x: nat, a: seq<nat>, b: seq<nat>)
    requires Before(a, b)
    ensures Before([x] + a, [x] + b)
  {
    var k: nat :| k < |a| && k < |b| && a[..k] == b[..k] && a[k] < b[k];
    assert ([x] + a)[..k + 1] == [x] + a[..k] && ([x] + b)[..k + 1] == [x] + b[..k];
    assert ([x] + a)[k + 1] < ([x] + b)[k + 1];
  }

  lemma BeforeSmaller(a: seq<nat>, b: seq<nat>)
    requires a != [] && b != [] && a[0] < b[0]
    ensures Before(a, b)
  {
    assert a[..0] == b[..0];
  }

  /** The matcher's outcome is where the best path leads; without an outcome, no
      path leads anywhere. */
  lemma {:induction false} FirstIsBest(src: string, pat: string, c: Config) returns (path: seq<nat>)
    requires Ok(src, pat, c)
    ensures First(src, pat, c) == NotFound <==> forall other: seq<nat> {:trigger Follow(src, pat, c, other)} :: Follow(src, pat, c, other) == Nowhere
    ensures First(src, pat, c) != NotFound ==>
              Best(src, pat, c, path) && Follow(src, pat, c, path) == AsReached(First(src, pat, c))
    decreases |pat| - c.p
  {
    hide ChoicesAt, Before, BestFrom;
    path := [];
    var r := ChoicesAt(src, pat, c);
    if r.Continue? {
      path := FirstOfIsBest(src, pat, c, r.next, 0);
      assert r.next[0..] == r.next;
      if First(src, pat, c) != NotFound {
        FromStart(src, pat, c, r.next, path);
      }
    } else {
      assert Follow(src, pat, c, []) != Nowhere;
    }
  }

  lemma FromStart(src: string, pat: string, c: Config, next: seq<Config>, path: seq<nat>)
    requires Ok(src, pat, c) && ChoicesAt(src, pat, c) == Continue(next) && BestFrom(src, pat, c, 0, path)
    ensures Best(src, pat, c, path)
  {
    hide ChoicesAt, Before;
  }

  lemma FollowStep(src: string, pat: string, c: Config, next: seq<Config>, path: seq<nat>)
    requires Ok(src, pat, c) && ChoicesAt(src, pat, c) == Continue(next)
    ensures Follow(src, pat, c, path) ==
            if path != [] && path[0] < |next| then Follow(src, pat, next[path[0]], path[1..]) else Nowhere
  {
  }

  /** No choice from number j on leads anywhere. */
  ghost predicate DeadFrom(src: string, pat: string, c: Config, j: nat)
    requires Ok(src, pat, c)
  {
    forall other: seq<nat> {:trigger Follow(src, pat, c, other)} ::
      other != [] && other[0] >= j ==> Follow(src, pat, c, other) == Nowhere
  }

  /** path is the best of those that begin with choice number j or a later one. */
  ghost predicate BestFrom(src: string, pat: string, c: Config, j: nat, path: seq<nat>)
    requires Ok(src, pat, c)
  {
    && path != [] && path[0] >= j && Follow(src, pat, c, path) != Nowhere
    && (forall other: seq<nat> {:trigger Follow(src, pat, c, other)} ::
          other != [] && other[0] >= j && Follow(src, pat, c, other) != Nowhere && other != path ==> Before(path, other))
  }

  /** Choice number j is dead, and those behind it decide. */
  lemma SkipChoice(src: string, pat: string, c: Config, next: seq<Config>, j: nat)
    requires Ok(src, pat, c) && ChoicesAt(src, pat, c) == Continue(next) && j < |next|
    requires forall other: seq<nat> {:trigger Follow(src, pat, next[j], other)} :: Follow(src, pat, next[j], other) == Nowhere
    ensures DeadFrom(src, pat, c, j + 1) ==> DeadFrom(src, pat, c, j)
    ensures forall path: seq<nat> :: BestFrom(src, pat, c, j + 1, path) ==> BestFrom(src, pat, c, j, path)
  {
    hide ChoicesAt, Follow;
    forall other: seq<nat> | other != [] && other[0] == j
      ensures Follow(src, pat, c, other) == Nowhere
    {
      FollowStep(src, pat, c, next, other);
    }
  }

  /** The best path behind choice number j is the best from j on. */
  lemma TakeChoice(src: string, pat: string, c: Config, next: seq<Config>, j: nat, tail: seq<nat>)
    requires Ok(src, pat, c) && ChoicesAt(src, pat, c) == Continue(next) && j < |next| && Best(src, pat, next[j], tail)
    ensures BestFrom(src, pat, c, j, [j] + tail) && Follow(src, pat, c, [j] + tail) == Follow(src, pat, next[j], tail)
  {
    hide ChoicesAt, Follow, Before;
    var path := [j] + tail;
    assert path[1..] == tail;
    FollowStep(src, pat, c, next, path);
    forall other: seq<nat> | other != [] && other[0] >= j && Follow(src, pat, c, other) != Nowhere && other != path
      ensures Before(path, other)
    {
      FollowStep(src, pat, c, next, other);
      if other[0] == j {
        assert other == [j] + other[1..];
        BeforeStep(j, tail, other[1..]);
      } else {
        BeforeSmaller(path, other);
      }
    }
  }

  /** The same for the choices from number j on. */
  lemma {:induction false} FirstOfIsBest(src: string, pat: string, c: Config, next: seq<Config>, j: nat) returns (path: seq<nat>)
    requires Ok(src, pat, c) && ChoicesAt(src, pat, c) == Continue(next) && j <= |next|
    ensures AllOk(src, pat, c.s, c.p, next[j..])
    ensures FirstOf(src, pat, c.s, c.p, next[j..]) == NotFound ==> DeadFrom(src, pat, c, j)
    ensures FirstOf(src, pat, c.s, c.p, next[j..]) != NotFound ==>
              BestFrom(src, pat, c, j, path) && Follow(src, pat, c, path) == AsReached(FirstOf(src, pat, c.s, c.p, next[j..]))
    decreases |pat| - c.p, |next| - j
  {
    hide ChoicesAt, Follow, Before, DeadFrom, BestFrom, Best;
    path := [];
    if j < |next| {
      var tail := FirstIsBest(src, pat, next[j]);
      assert next[j..][1..] == next[j + 1..];
      if First(src, pat, next[j]) == NotFound {
        path := FirstOfIsBest(src, pat, c, next, j + 1);
        SkipChoice(src, pat, c, next, j);
      } else {
        path := [j] + tail;
        TakeChoice(src, pat, c, next, j, tail);
      }
    } else {
      AllDead(src, pat, c, next);
    }
  }

  lemma AllDead(src: string, pat: string, c: Config, next: seq<Config>)
    requires Ok(src, pat, c) && ChoicesAt(src, pat, c) == Continue(next)
    ensures DeadFrom(src, pat, c, |next|)
  {
    hide ChoicesAt, Follow;
    forall other: seq<nat> | other != [] && other[0] >= |next|
      ensures Follow(src, pat, c, other) == Nowhere
    {
      FollowStep(src, pat, c, next, other);
    }
  }
}
