/** The expression loop of the parser: precedence climbing (src/lparser.c:692-712, src/lparser.c:752-883;
    section 2.5.6 of the Lua 5.1 Reference Manual).  An operand token stands for a
    whole simple expression. */
module Parser {
  import opened Seqs

  datatype UnOp = Neg | Not | Len

  datatype BinOp = Add | Sub | Mul | Div | Mod | Pow | Concat | Ne | Eq | Lt | Le | Gt | Ge | And | Or

  datatype Token =
    | Operand(id: int)
    | Plus | Minus | Star | Slash | Percent | Caret | Dots2
    | NotEqual | Equal | Less | LessEqual | Greater | GreaterEqual
    | AndWord | OrWord | NotWord | Hash
    | LeftParen | RightParen
    | Other(kind: int)
    | EndOfStream

  function GetUnOpr(t: Token): Option<UnOp> {
    match t
    case NotWord => Some(Not)
    case Minus => Some(Neg)
    case Hash => Some(Len)
    case _ => None
  }

  function GetBinOpr(t: Token): Option<BinOp> {
    match t
    case Plus => Some(Add)
    case Minus => Some(Sub)
    case Star => Some(Mul)
    case Slash => Some(Div)
    case Percent => Some(Mod)
    case Caret => Some(Pow)
    case Dots2 => Some(Concat)
    case NotEqual => Some(Ne)
    case Equal => Some(Eq)
    case Less => Some(Lt)
    case LessEqual => Some(Le)
    case Greater => Some(Gt)
    case GreaterEqual => Some(Ge)
    case AndWord => Some(And)
    case OrWord => Some(Or)
    case _ => None
  }

  /** The priority table. */
  function Left(op: BinOp): nat {
    match op
    case Add | Sub => 6
    case Mul | Div | Mod => 7
    case Pow => 10
    case Concat => 5
    case Ne | Eq | Lt | Le | Gt | Ge => 3
    case And => 2
    case Or => 1
  }

  function Right(op: BinOp): nat {
    match op
    case Add | Sub => 6
    case Mul | Div | Mod => 7
    case Pow => 9
    case Concat => 4
    case Ne | Eq | Lt | Le | Gt | Ge => 3
    case And => 2
    case Or => 1
  }

  const UNARY_PRIORITY := 8

  datatype Expr = Leaf(id: int) | Unary(u: UnOp, arg: Expr) | Binary(op: BinOp, a: Expr, b: Expr)

  // ------------------------------------------------------------------- the parser

  datatype Parsed = Ok(e: Expr, rest: seq<Token>) | SyntaxError

  function Head(ts: seq<Token>): Token {
    if ts == [] then EndOfStream else ts[0]
  }

  /** The left priority of the operator that comes next, zero when there is none. */
  function NextPriority(ts: seq<Token>): nat {
    var op := GetBinOpr(Head(ts));
    if op.None? then 0 else Left(op.value)
  }

  function SimpleExp(ts: seq<Token>): (r: Parsed)
    ensures r.Ok? ==> |r.rest| < |ts|
    decreases |ts|, 0
  {
    match Head(ts)
    case Operand(id) => Ok(Leaf(id), ts[1..])
    case LeftParen =>
      var r := SubExpr(ts[1..], 0);
      if r.Ok? && Head(r.rest) == RightParen then Ok(r.e, r.rest[1..]) else SyntaxError
    case _ => SyntaxError
  }

  /** subexpr: an operand, and then operators with a priority above the limit. */
  function SubExpr(ts: seq<Token>, limit: nat): (r: Parsed)
    ensures r.Ok? ==> |r.rest| < |ts|
    decreases |ts|, 2
  {
    var first := FirstOperand(ts);
    if first.Ok? then Climb(first.e, first.rest, limit) else SyntaxError
  }

  function FirstOperand(ts: seq<Token>): (r: Parsed)
    ensures r.Ok? ==> |r.rest| < |ts|
    decreases |ts|, 1
  {
    var u := GetUnOpr(Head(ts));
    if u.Some? then
      var r := SubExpr(ts[1..], UNARY_PRIORITY);
      if r.Ok? then Ok(Unary(u.value, r.e), r.rest) else SyntaxError
    else SimpleExp(ts)
  }

  function Climb(e: Expr, ts: seq<Token>, limit: nat): (r: Parsed)
    ensures r.Ok? ==> |r.rest| <= |ts|
    decreases |ts|, 2
  {
    if NextPriority(ts) > limit then
      var op := GetBinOpr(Head(ts)).value;
      var r := SubExpr(ts[1..], Right(op));
      if r.Ok? then Climb(Binary(op, e, r.e), r.rest, limit) else SyntaxError
    else Ok(e, ts)
  }

  // ------------------------------------------------------------------ the printer

  function UnToken(u: UnOp): Token {
    match u
    case Neg => Minus
    case Not => NotWord
    case Len => Hash
  }

  function BinToken(op: BinOp): Token {
    match op
    case Add => Plus
    case Sub => Minus
    case Mul => Star
    case Div => Slash
    case Mod => Percent
    case Pow => Caret
    case Concat => Dots2
    case Ne => NotEqual
    case Eq => Equal
    case Lt => Less
    case Le => LessEqual
    case Gt => Greater
    case Ge => GreaterEqual
    case And => AndWord
    case Or => OrWord
  }

  /** e needs brackets where only operators above `limit` are read and an operator of
      left priority `next` follows. */
  predicate NeedsBrackets(e: Expr, limit: nat, next: nat) {
    match e
    case Leaf(_) => false
    case Unary(_, _) => next > UNARY_PRIORITY
    case Binary(op, _, _) => Left(op) <= limit || next > Right(op)
  }

  /** The tokens of e, with brackets only where the table requires them. */
  function Print(e: Expr, limit: nat, next: nat): (ts: seq<Token>)
    decreases e, 1
  {
    if NeedsBrackets(e, limit, next) then [LeftParen] + Bare(e, 0, 0) + [RightParen] else Bare(e, limit, next)
  }

  function Bare(e: Expr, limit: nat, next: nat): (ts: seq<Token>)
    decreases e, 0
  {
    match e
    case Leaf(id) => [Operand(id)]
    case Unary(u, arg) => [UnToken(u)] + Print(arg, UNARY_PRIORITY, next)
    case Binary(op, a, b) => Print(a, limit, Left(op)) + [BinToken(op)] + Print(b, Right(op), next)
  }

  lemma Tokens(u: UnOp, op: BinOp)
    ensures GetUnOpr(UnToken(u)) == Some(u)
    ensures GetBinOpr(BinToken(op)) == Some(op)
  {
  }

  lemma HeadOf(t: Token, ts: seq<Token>)
    ensures Head([t] + ts) == t && ([t] + ts)[1..] == ts
  {
  }

  // ----------------------------------------------------------------- round trip

  lemma LeafReads(id: int, rest: seq<Token>, limit: nat)
    ensures SubExpr([Operand(id)] + rest, limit) == Climb(Leaf(id), rest, limit)
  {
    HeadOf(Operand(id), rest);
    assert SimpleExp([Operand(id)] + rest) == Ok(Leaf(id), rest);
  }

  lemma BracketsRead(e: Expr, ts: seq<Token>, rest: seq<Token>, limit: nat)
    requires SubExpr(ts, 0) == Ok(e, [RightParen] + rest)
    ensures SubExpr([LeftParen] + ts, limit) == Climb(e, rest, limit)
  {
    HeadOf(LeftParen, ts);
    HeadOf(RightParen, rest);
    assert SimpleExp([LeftParen] + ts) == Ok(e, rest);
  }

  lemma UnaryReads(u: UnOp, arg: Expr, ts: seq<Token>, rest: seq<Token>, limit: nat)
    requires SubExpr(ts, UNARY_PRIORITY) == Ok(arg, rest)
    ensures SubExpr([UnToken(u)] + ts, limit) == Climb(Unary(u, arg), rest, limit)
  {
    Tokens(u, Add);
    HeadOf(UnToken(u), ts);
  }

  lemma Stops(e: Expr, rest: seq<Token>, limit: nat)
    requires NextPriority(rest) <= limit
    ensures Climb(e, rest, limit) == Ok(e, rest)
  {
  }

  lemma Climbs(op: BinOp, a: Expr, b: Expr, ts: seq<Token>, rest: seq<Token>, limit: nat)
    requires Left(op) > limit && SubExpr(ts, Right(op)) == Ok(b, rest)
    ensures NextPriority([BinToken(op)] + ts) == Left(op)
    ensures Climb(a, [BinToken(op)] + ts, limit) == Climb(Binary(op, a, b), rest, limit)
  {
    Tokens(Neg, op);
    HeadOf(BinToken(op), ts);
  }

  /** What is printed for a place is read back there, whatever follows. */
  lemma {:induction false} PrintClimbs(e: Expr, limit: nat, next: nat, rest: seq<Token>)
    requires NextPriority(rest) == next
    ensures SubExpr(Print(e, limit, next) + rest, limit) == Climb(e, rest, limit)
    decreases e, 1
  {
    hide SubExpr, Climb, Bare, NeedsBrackets;
    if NeedsBrackets(e, limit, next) {
      var inner := [RightParen] + rest;
      HeadOf(RightParen, rest);
      NoBracketsAlone(e);
      BareClimbs(e, 0, 0, inner);
      Stops(e, inner, 0);
      BracketsRead(e, Bare(e, 0, 0) + inner, rest, limit);
      assert Print(e, limit, next) + rest == [LeftParen] + (Bare(e, 0, 0) + inner);
    } else {
      BareClimbs(e, limit, next, rest);
    }
  }

  lemma NoBracketsAlone(e: Expr)
    ensures !NeedsBrackets(e, 0, 0)
  {
  }

  lemma {:induction false} BareClimbs(e: Expr, limit: nat, next: nat, rest: seq<Token>)
    requires NextPriority(rest) == next && !NeedsBrackets(e, limit, next)
    ensures SubExpr(Bare(e, limit, next) + rest, limit) == Climb(e, rest, limit)
    decreases e, 0
  {
    hide SubExpr, Climb, Print, NextPriority;
    match e
    case Leaf(id) =>
      LeafReads(id, rest, limit);
    case Unary(u, arg) =>
      PrintClimbs(arg, UNARY_PRIORITY, next, rest);
      Stops(arg, rest, UNARY_PRIORITY);
      UnaryReads(u, arg, Print(arg, UNARY_PRIORITY, next) + rest, rest, limit);
      assert Bare(e, limit, next) + rest == [UnToken(u)] + (Print(arg, UNARY_PRIORITY, next) + rest);
    case Binary(op, a, b) =>
      var right := Print(b, Right(op), next) + rest;
      PrintClimbs(b, Right(op), next, rest);
      Stops(b, rest, Right(op));
      Climbs(op, a, b, right, rest, limit);
      PrintClimbs(a, limit, Left(op), [BinToken(op)] + right);
      assert Bare(e, limit, next) + rest == Print(a, limit, Left(op)) + ([BinToken(op)] + right);
  }

  /** Every tree is rebuilt exactly from its tokens. */
  lemma RoundTrip(e: Expr, rest: seq<Token>)
    requires GetBinOpr(Head(rest)).None?
    ensures SubExpr(Print(e, 0, 0) + rest, 0) == Ok(e, rest)
  {
    PrintClimbs(e, 0, 0, rest);
  }

  lemma PrintLeaf(id: int, limit: nat, next: nat)
    ensures Print(Leaf(id), limit, next) == [Operand(id)]
  {
  }

  lemma PrintUnary(u: UnOp, arg: Expr, limit: nat, next: nat)
    requires next <= UNARY_PRIORITY
    ensures Print(Unary(u, arg), limit, next) == [UnToken(u)] + Print(arg, UNARY_PRIORITY, next)
  {
  }

  lemma PrintBinary(op: BinOp, a: Expr, b: Expr, limit: nat, next: nat)
    requires Left(op) > limit && next <= Right(op)
    ensures Print(Binary(op, a, b), limit, next) == Print(a, limit, Left(op)) + [BinToken(op)] + Print(b, Right(op), next)
  {
  }

  // ------------------------------------------------------- the levels of the manual

  /** The levels of binary operators that section 2.5.6 lists, from low to high. */
  function Level(op: BinOp): nat {
    match op
    case Or => 1
    case And => 2
    case Lt | Gt | Le | Ge | Ne | Eq => 3
    case Concat => 4
    case Add | Sub => 5
    case Mul | Div | Mod => 6
    case Pow => 7
  }

  /** In `x op y op' z` the operand y belongs to op': it is of a higher level, or of
      the same one and that is a level that associates to the right. */
  predicate TakesOperand(op: BinOp, op': BinOp) {
    Level(op') > Level(op) || (Level(op') == Level(op) && (op' == Concat || op' == Pow))
  }

  lemma LevelsAgree(op: BinOp, op': BinOp)
    ensures TakesOperand(op, op') <==> Left(op') > Right(op)
  {
  }

  /** Between two operators, the operand goes to the one of the higher level; within a
      level operators associate to the left, but `..` and `^` to the right. */
  lemma TwoOperators(x: int, op: BinOp, y: int, op': BinOp, z: int)
    ensures var ts := [Operand(x), BinToken(op), Operand(y), BinToken(op'), Operand(z)];
      SubExpr(ts, 0) ==
      Ok(if Level(op') > Level(op) || (Level(op') == Level(op) && (op' == Concat || op' == Pow))
         then Binary(op, Leaf(x), Binary(op', Leaf(y), Leaf(z)))
         else Binary(op', Binary(op, Leaf(x), Leaf(y)), Leaf(z)), [])
  {
    hide SubExpr, Print, UnToken, BinToken;
    var ts := [Operand(x), BinToken(op), Operand(y), BinToken(op'), Operand(z)];
    var e := if TakesOperand(op, op') then Binary(op, Leaf(x), Binary(op', Leaf(y), Leaf(z)))
             else Binary(op', Binary(op, Leaf(x), Leaf(y)), Leaf(z));
    LevelsAgree(op, op');
    PrintLeaf(x, 0, Left(op));
    PrintLeaf(z, Right(op'), 0);
    PrintLeaf(y, Right(op), Left(op'));
    if TakesOperand(op, op') {
      PrintBinary(op', Leaf(y), Leaf(z), Right(op), 0);
      PrintBinary(op, Leaf(x), Binary(op', Leaf(y), Leaf(z)), 0, 0);
    } else {
      PrintBinary(op, Leaf(x), Leaf(y), 0, Left(op'));
      PrintBinary(op', Binary(op, Leaf(x), Leaf(y)), Leaf(z), 0, 0);
    }
    assert Print(e, 0, 0) == ts;
    assert ts + [] == ts;
    RoundTrip(e, []);
  }

  /** A unary operator binds tighter than every binary one but `^`. */
  lemma UnaryOperator(u: UnOp, x: int, op: BinOp, y: int)
    ensures SubExpr([UnToken(u), Operand(x), BinToken(op), Operand(y)], 0) ==
            Ok(if op == Pow then Unary(u, Binary(op, Leaf(x), Leaf(y))) else Binary(op, Unary(u, Leaf(x)), Leaf(y)), [])
  {
    hide SubExpr, Print, UnToken, BinToken;
    var ts := [UnToken(u), Operand(x), BinToken(op), Operand(y)];
    var e := if op == Pow then Unary(u, Binary(op, Leaf(x), Leaf(y))) else Binary(op, Unary(u, Leaf(x)), Leaf(y));
    PrintLeaf(y, Right(op), 0);
    PrintLeaf(x, UNARY_PRIORITY, Left(op));
    if op == Pow {
      PrintBinary(op, Leaf(x), Leaf(y), UNARY_PRIORITY, 0);
      PrintUnary(u, Binary(op, Leaf(x), Leaf(y)), 0, 0);
    } else {
      PrintUnary(u, Leaf(x), 0, Left(op));
      PrintBinary(op, Unary(u, Leaf(x)), Leaf(y), 0, 0);
    }
    assert Print(e, 0, 0) == ts;
    assert ts + [] == ts;
    RoundTrip(e, []);
  }

  /** Which operator each token is between two operands, and that no other is one. */
  lemma BinaryToken(x: int, t: Token, op: BinOp, y: int)
    ensures SubExpr([Operand(x), t, Operand(y)], 0) == Ok(Binary(op, Leaf(x), Leaf(y)), []) <==>
              || (t == Plus && op == Add) || (t == Minus && op == Sub) || (t == Star && op == Mul)
              || (t == Slash && op == Div) || (t == Percent && op == Mod) || (t == Caret && op == Pow)
              || (t == Dots2 && op == Concat) || (t == NotEqual && op == Ne) || (t == Equal && op == Eq)
              || (t == Less && op == Lt) || (t == LessEqual && op == Le) || (t == Greater && op == Gt)
              || (t == GreaterEqual && op == Ge) || (t == AndWord && op == And) || (t == OrWord && op == Or)
  {
    hide SubExpr;
    var got := GetBinOpr(t);
    if got.Some? {
      assert t == BinToken(got.value);
      OneBinary(x, got.value, y);
    } else {
      NotBinary(x, t, [Operand(y)]);
      assert [Operand(x), t] + [Operand(y)] == [Operand(x), t, Operand(y)];
    }
  }

  lemma NotBinary(x: int, t: Token, rest: seq<Token>)
    requires GetBinOpr(t).None?
    ensures SubExpr([Operand(x), t] + rest, 0) == Ok(Leaf(x), [t] + rest)
  {
    LeafReads(x, [t] + rest, 0);
    HeadOf(t, rest);
    Stops(Leaf(x), [t] + rest, 0);
    assert [Operand(x), t] + rest == [Operand(x)] + ([t] + rest);
  }

  /** And in front of one. */
  lemma UnaryToken(t: Token, u: UnOp, x: int)
    ensures SubExpr([t, Operand(x)], 0) == Ok(Unary(u, Leaf(x)), []) <==>
              (t == Minus && u == Neg) || (t == NotWord && u == Not) || (t == Hash && u == Len)
  {
    hide SubExpr;
    var got := GetUnOpr(t);
    if got.Some? {
      assert t == UnToken(got.value);
      OneUnary(got.value, x);
    } else {
      NotUnary(t, x);
    }
  }

  lemma NotUnary(t: Token, x: int)
    requires GetUnOpr(t).None?
    ensures var r := SubExpr([t, Operand(x)], 0); r.Ok? ==> !r.e.Unary?
  {
    hide SubExpr, Climb;
    HeadOf(t, [Operand(x)]);
    assert [t, Operand(x)] == [t] + [Operand(x)];
    if t.Operand? {
      LeafReads(t.id, [Operand(x)], 0);
      Stops(Leaf(t.id), [Operand(x)], 0);
    } else {
      AcceptsExactly([t, Operand(x)]);
      HeadOf(Operand(x), []);
      assert [Operand(x)] + [] == [Operand(x)];
      assert !WellFormed([], 1, false);
      assert !WellFormed([Operand(x)], 1, true);
    }
  }

  lemma OneBinary(x: int, op: BinOp, y: int)
    ensures SubExpr([Operand(x), BinToken(op), Operand(y)], 0) == Ok(Binary(op, Leaf(x), Leaf(y)), [])
  {
    hide SubExpr, Print, BinToken;
    var e := Binary(op, Leaf(x), Leaf(y));
    PrintLeaf(x, 0, Left(op));
    PrintLeaf(y, Right(op), 0);
    PrintBinary(op, Leaf(x), Leaf(y), 0, 0);
    assert Print(e, 0, 0) + [] == [Operand(x), BinToken(op), Operand(y)];
    RoundTrip(e, []);
  }

  lemma OneUnary(u: UnOp, x: int)
    ensures SubExpr([UnToken(u), Operand(x)], 0) == Ok(Unary(u, Leaf(x)), [])
  {
    hide SubExpr, Print, UnToken;
    var e := Unary(u, Leaf(x));
    PrintLeaf(x, UNARY_PRIORITY, 0);
    PrintUnary(u, Leaf(x), 0, 0);
    assert Print(e, 0, 0) + [] == [UnToken(u), Operand(x)];
    RoundTrip(e, []);
  }

  // --------------------------------------------------------------- no more brackets

  /** The left and the right priorities there are. */
  predicate IsNext(n: nat) { n in {0, 1, 2, 3, 5, 6, 7, 10} }

  predicate IsLimit(n: nat) { n in {0, 1, 2, 3, 4, 6, 7, 8, 9} }

  /** Where e stands without brackets, its parts have the same brackets as alone. */
  lemma {:induction false} BareAlone(e: Expr, limit: nat, next: nat)
    requires IsNext(next) && IsLimit(limit) && !NeedsBrackets(e, limit, next)
    ensures Bare(e, limit, next) == Bare(e, 0, 0)
    decreases e, 0
  {
    match e
    case Leaf(_) =>
    case Unary(u, arg) => PrintAgrees(arg, UNARY_PRIORITY, next, UNARY_PRIORITY, 0);
    case Binary(op, a, b) =>
      PrintAgrees(a, limit, Left(op), 0, Left(op));
      PrintAgrees(b, Right(op), next, Right(op), 0);
  }

  lemma {:induction false} PrintAgrees(e: Expr, limit: nat, next: nat, limit': nat, next': nat)
    requires IsNext(next) && IsLimit(limit) && IsNext(next') && IsLimit(limit')
    requires NeedsBrackets(e, limit, next) == NeedsBrackets(e, limit', next')
    ensures Print(e, limit, next) == Print(e, limit', next')
    decreases e, 1
  {
    if !NeedsBrackets(e, limit, next) {
      BareAlone(e, limit, next);
      BareAlone(e, limit', next');
    }
  }

  lemma Priorities(ts: seq<Token>, op: BinOp)
    ensures IsNext(NextPriority(ts)) && IsNext(Left(op)) && IsLimit(Right(op))
  {
  }

  lemma PrintLength(e: Expr, limit: nat, next: nat)
    requires IsNext(next) && IsLimit(limit)
    ensures |Print(e, limit, next)| <= |Print(e, 0, 0)| + 2
    ensures |Print(e, 0, 0)| <= |Print(e, limit, next)|
  {
    hide Bare;
    if !NeedsBrackets(e, limit, next) {
      BareAlone(e, limit, next);
    }
  }

  /** Whatever tokens are read as e, the printed form has no more of them. */
  lemma {:induction false} SubExprMinimal(ts: seq<Token>, limit: nat)
    requires IsLimit(limit)
    ensures var r := SubExpr(ts, limit);
      r.Ok? ==> NextPriority(r.rest) <= limit && |ts| - |r.rest| >= |Print(r.e, limit, NextPriority(r.rest))|
    decreases |ts|, 2
  {
    hide Print, NextPriority;
    var first := FirstOperand(ts);
    if first.Ok? {
      FirstMinimal(ts, limit);
      ClimbMinimal(first.e, first.rest, limit, |ts| - |first.rest|);
    }
  }

  lemma {:induction false} FirstMinimal(ts: seq<Token>, limit: nat)
    requires IsLimit(limit)
    ensures var r := FirstOperand(ts); r.Ok? ==> |ts| - |r.rest| >= |Print(r.e, limit, NextPriority(r.rest))|
    decreases |ts|, 1
  {
    hide Print, NextPriority, SubExpr, Climb;
    var u := GetUnOpr(Head(ts));
    if u.Some? {
      var r := SubExpr(ts[1..], UNARY_PRIORITY);
      if r.Ok? {
        SubExprMinimal(ts[1..], UNARY_PRIORITY);
        PrintUnary(u.value, r.e, limit, NextPriority(r.rest));
      }
    } else if Head(ts) == LeftParen {
      var r := SubExpr(ts[1..], 0);
      if r.Ok? && Head(r.rest) == RightParen {
        SubExprMinimal(ts[1..], 0);
        Priorities(r.rest[1..], Add);
        CloserEnds(r.rest);
        PrintLength(r.e, limit, NextPriority(r.rest[1..]));
      }
    } else if Head(ts).Operand? {
      PrintLeaf(Head(ts).id, limit, NextPriority(ts[1..]));
    }
  }

  lemma CloserEnds(ts: seq<Token>)
    requires Head(ts) == RightParen
    ensures NextPriority(ts) == 0
  {
  }

  /** e has been read from k tokens before ts. */
  lemma {:induction false} ClimbMinimal(e: Expr, ts: seq<Token>, limit: nat, k: nat)
    requires IsLimit(limit) && k >= |Print(e, limit, NextPriority(ts))|
    ensures var r := Climb(e, ts, limit);
      r.Ok? ==> NextPriority(r.rest) <= limit && k + |ts| - |r.rest| >= |Print(r.e, limit, NextPriority(r.rest))|
    decreases |ts|, 2
  {
    hide Print, SubExpr;
    if NextPriority(ts) > limit {
      var op := GetBinOpr(Head(ts)).value;
      var r := SubExpr(ts[1..], Right(op));
      if r.Ok? {
        Priorities(ts, op);
        SubExprMinimal(ts[1..], Right(op));
        PrintBinary(op, e, r.e, limit, NextPriority(r.rest));
        ClimbMinimal(Binary(op, e, r.e), r.rest, limit, k + |ts| - |r.rest|);
      }
    }
  }

  /** No tokens that are read as e are fewer than the printed ones: every bracket that
      is printed is required. */
  lemma PrintMinimal(ts: seq<Token>)
    requires SubExpr(ts, 0).Ok? && SubExpr(ts, 0).rest == []
    ensures |Print(SubExpr(ts, 0).e, 0, 0)| <= |ts|
  {
    hide SubExpr, Print;
    SubExprMinimal(ts, 0);
    assert NextPriority([]) == 0;
  }

  // ------------------------------------------- brackets by the levels of the manual

  function Bracketed(needed: bool, ts: seq<Token>): seq<Token> {
    if needed then [LeftParen] + ts + [RightParen] else ts
  }

  /** The tokens of e, with brackets exactly where section 2.5.6 wants them: around
      a binary operator that is the operand of a unary one, unless it is `^`; around a
      unary operator to the left of `^`; and around a binary operator that would lose
      its operand to the operator next to it. */
  function Written(e: Expr): seq<Token> {
    match e
    case Leaf(id) => [Operand(id)]
    case Unary(u, arg) => [UnToken(u)] + Bracketed(arg.Binary? && arg.op != Pow, Written(arg))
    case Binary(op, a, b) =>
      Bracketed(if a.Binary? then TakesOperand(a.op, op) else a.Unary? && op == Pow, Written(a))
      + [BinToken(op)]
      + Bracketed(b.Binary? && !TakesOperand(op, b.op), Written(b))
  }

  lemma PrintBracketed(e: Expr, limit: nat, next: nat)
    requires IsLimit(limit) && IsNext(next)
    ensures Print(e, limit, next) == Bracketed(NeedsBrackets(e, limit, next), Print(e, 0, 0))
  {
    NoBracketsAlone(e);
    if !NeedsBrackets(e, limit, next) {
      BareAlone(e, limit, next);
    }
  }

  /** The printer, which follows the table, puts the brackets where the manual does. */
  lemma {:induction false} PrintWritten(e: Expr)
    ensures Print(e, 0, 0) == Written(e)
  {
    hide Print, BinToken, UnToken, Bracketed;
    match e
    case Leaf(id) => PrintLeaf(id, 0, 0);
    case Unary(u, arg) =>
      PrintUnary(u, arg, 0, 0);
      PrintBracketed(arg, UNARY_PRIORITY, 0);
      PrintWritten(arg);
    case Binary(op, a, b) =>
      Priorities([], op);
      PrintBinary(op, a, b, 0, 0);
      PrintBracketed(a, 0, Left(op));
      PrintBracketed(b, Right(op), 0);
      PrintWritten(a);
      PrintWritten(b);
      if a.Binary? {
        LevelsAgree(a.op, op);
      }
      if b.Binary? {
        LevelsAgree(op, b.op);
      }
  }

  /** Every tree is read back from the tokens that the manual wants for it, and from
      no fewer. */
  lemma ByLevels(e: Expr, ts: seq<Token>)
    ensures SubExpr(Written(e), 0) == Ok(e, [])
    ensures SubExpr(ts, 0) == Ok(e, []) ==> |Written(e)| <= |ts|
  {
    hide SubExpr, Print, Written;
    PrintWritten(e);
    RoundTrip(e, []);
    assert Written(e) + [] == Written(e);
    if SubExpr(ts, 0) == Ok(e, []) {
      PrintMinimal(ts);
    }
  }

  // ------------------------------------------------------------ what is accepted

  /** The form of an expression, without any priorities: operands and operators take
      turns, and `depth` brackets are open. */
  predicate WellFormed(ts: seq<Token>, depth: nat, operand: bool)
    decreases |ts|
  {
    var t := Head(ts);
    if operand then
      if GetUnOpr(t).Some? then WellFormed(ts[1..], depth, true)
      else if t == LeftParen then WellFormed(ts[1..], depth + 1, true)
      else t.Operand? && WellFormed(ts[1..], depth, false)
    else if GetBinOpr(t).Some? then WellFormed(ts[1..], depth, true)
    else if depth > 0 then t == RightParen && WellFormed(ts[1..], depth - 1, false)
    else true
  }

  lemma {:induction false} SubExprAccepts(ts: seq<Token>, limit: nat, depth: nat)
    ensures var r := SubExpr(ts, limit); WellFormed(ts, depth, true) <==> r.Ok? && WellFormed(r.rest, depth, false)
    ensures var r := SubExpr(ts, limit); r.Ok? ==> NextPriority(r.rest) <= limit
    decreases |ts|, 2
  {
    hide WellFormed, NextPriority;
    FirstAccepts(ts, depth);
    var first := FirstOperand(ts);
    if first.Ok? {
      ClimbAccepts(first.e, first.rest, limit, depth);
    }
  }

  lemma {:induction false} FirstAccepts(ts: seq<Token>, depth: nat)
    ensures var r := FirstOperand(ts); WellFormed(ts, depth, true) <==> r.Ok? && WellFormed(r.rest, depth, false)
    decreases |ts|, 1
  {
    hide SubExpr, NextPriority;
    if GetUnOpr(Head(ts)).Some? {
      SubExprAccepts(ts[1..], UNARY_PRIORITY, depth);
    } else if Head(ts) == LeftParen {
      SubExprAccepts(ts[1..], 0, depth + 1);
      var r := SubExpr(ts[1..], 0);
      if r.Ok? {
        NoOperator(r.rest);
      }
    }
  }

  lemma NoOperator(ts: seq<Token>)
    ensures NextPriority(ts) == 0 <==> GetBinOpr(Head(ts)).None?
  {
  }

  lemma {:induction false} ClimbAccepts(e: Expr, ts: seq<Token>, limit: nat, depth: nat)
    ensures var r := Climb(e, ts, limit); WellFormed(ts, depth, false) <==> r.Ok? && WellFormed(r.rest, depth, false)
    ensures var r := Climb(e, ts, limit); r.Ok? ==> NextPriority(r.rest) <= limit
    decreases |ts|, 2
  {
    hide SubExpr;
    if NextPriority(ts) > limit {
      var op := GetBinOpr(Head(ts)).value;
      SubExprAccepts(ts[1..], Right(op), depth);
      var r := SubExpr(ts[1..], Right(op));
      if r.Ok? {
        ClimbAccepts(Binary(op, e, r.e), r.rest, limit, depth);
      }
    }
  }

  /** The priorities never make the parser refuse anything: it accepts exactly the
      token sequences that begin with an expression of the plain form, and stops where
      no operator follows. */
  lemma AcceptsExactly(ts: seq<Token>)
    ensures SubExpr(ts, 0).Ok? <==> WellFormed(ts, 0, true)
    ensures SubExpr(ts, 0).Ok? ==> GetBinOpr(Head(SubExpr(ts, 0).rest)).None?
  {
    hide SubExpr;
    SubExprAccepts(ts, 0, 0);
    if SubExpr(ts, 0).Ok? {
      NoOperator(SubExpr(ts, 0).rest);
    }
  }

  // ------------------------------------------------------------------- the lexer

  datatype Result = Read(e: Expr, next: Option<BinOp>) | Failed

  /** The token stream: `pos` is the current token. */
  class LexState {
    const tokens: seq<Token>
    var pos: nat

    constructor (tokens: seq<Token>)
      ensures this.tokens == tokens && pos == 0
    {
      this.tokens := tokens;
      pos := 0;
    }

    ghost predicate Valid()
      reads this
    {
      pos <= |tokens|
    }

    ghost function Ahead(): (ts: seq<Token>)
      requires Valid()
      reads this
    {
      tokens[pos..]
    }

    function Token0(): (t: Token)
      requires pos <= |tokens|
      reads this
      ensures t == Head(tokens[pos..])
    {
      if pos < |tokens| then tokens[pos] else EndOfStream
    }

    /** luaX_next; behind the last token there is only the end of the stream. */
    method Next()
      requires Valid()
      modifies this
      ensures Valid() && Ahead() == if old(Ahead()) == [] then [] else old(Ahead())[1..]
    {
      if pos < |tokens| {
        pos := pos + 1;
      }
    }

    /** simpleexp, prefixexp: an operand or an expression in brackets. */
    method ParseSimpleExp() returns (r: Result)
      requires Valid()
      modifies this
      ensures Valid()
      ensures match SimpleExp(old(Ahead()))
        case SyntaxError => r == Failed
        case Ok(e, rest) => r.Read? && r.e == e && Ahead() == rest
      decreases |tokens| - pos, 0
    {
      var t := Token0();
      if t.Operand? {
        Next();
        return Read(Leaf(t.id), None);
      } else if t == LeftParen {
        Next();
        r := ParseSubExpr(0);
        if r.Failed? {
          return;
        }
        if Token0() != RightParen {
          return Failed;
        }
        Next();
        return;
      }
      r := Failed;
    }

    /** subexpr: the tree of the tokens ahead, and the first operator left over. */
    method ParseSubExpr(limit: nat) returns (r: Result)
      requires Valid()
      modifies this
      ensures Valid()
      ensures match SubExpr(old(Ahead()), limit)
        case SyntaxError => r == Failed
        case Ok(e, rest) => r == Read(e, GetBinOpr(Head(rest))) && Ahead() == rest
      decreases |tokens| - pos, 1
    {
      var v: Expr;
      var uop := GetUnOpr(Token0());
      if uop.Some? {
        Next();
        r := ParseSubExpr(UNARY_PRIORITY);
        if r.Failed? {
          return;
        }
        v := Unary(uop.value, r.e);
      } else {
        r := ParseSimpleExp();
        if r.Failed? {
          return;
        }
        v := r.e;
      }
      var op := GetBinOpr(Token0());
      while op.Some? && Left(op.value) > limit
        invariant Valid() && pos > old(pos) && op == GetBinOpr(Head(Ahead()))
        invariant SubExpr(old(Ahead()), limit) == Climb(v, Ahead(), limit)
        decreases |tokens| - pos
      {
        Next();
        r := ParseSubExpr(Right(op.value));
        if r.Failed? {
          return;
        }
        v := Binary(op.value, v, r.e);
        op := r.next;
      }
      r := Read(v, op);
    }

    /** expr: what is written for a tree is read as the tree. */
    method ParseExpr() returns (r: Result)
      requires Valid()
      modifies this
      ensures Valid()
      ensures forall e :: old(Ahead()) == Written(e) ==> r == Read(e, None) && Ahead() == []
      ensures r.Failed? <==> !WellFormed(old(Ahead()), 0, true)
    {
      hide SubExpr, Written, WellFormed;
      ghost var ts := Ahead();
      r := ParseSubExpr(0);
      AcceptsExactly(ts);
      forall e | ts == Written(e)
        ensures SubExpr(ts, 0) == Ok(e, [])
      {
        ByLevels(e, []);
      }
    }
  }
}
