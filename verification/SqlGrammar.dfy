/**
 * The fragment of SQL the segment compiler writes: tokens, syntax trees, a precedence parser, and the
 * proof that the parser recovers every tree whose printed form respects the precedences.
 */
module SqlGrammar {
  datatype ColumnName =
    | WorkspaceIdOfContact | IdOfContact | AnonymizedAt
    | Country | City | FirstName | LastName | Phone | SubscriptionStatus | Tags | Properties
    | WorkspaceIdOfEvent | ContactIdOfEvent | NameOfEvent | OccurredAtOfEvent

  datatype Op =
    | OpOr | OpAnd
    | OpEq | OpNeq | OpLt | OpLe | OpGt | OpGe
    | OpILike
    | OpArrow | OpHolds | OpConcat
    | OpMinus

  datatype CastType = ToNumeric | ToBoolean | ToTimestamptz | ToInterval | ToTextArray

  /** Fixed phrases, such as the head of the event subquery, are single tokens. */
  datatype Token =
    | LParen | RParen | NotT | ExistsT | IsNullT | IsNotNullT
    | BinT(op: Op) | CastT(ty: CastType)
    | ParamT(k: nat) | ColumnT(name: ColumnName) | StringT(text: string)
    | NowT | CountT | ArrayT | RBracket
    | SelectFromEventsWhereT | GroupByContactHavingT

  // Binding strength, weakest first, as in PostgreSQL's operator precedence table.
  const OR_LEVEL: nat := 0
  const AND_LEVEL: nat := 1
  const NOT_LEVEL: nat := 2
  const IS_LEVEL: nat := 3
  const COMPARISON_LEVEL: nat := 4
  const LIKE_LEVEL: nat := 5
  const OTHER_LEVEL: nat := 6
  const ADDITIVE_LEVEL: nat := 7
  const CAST_LEVEL: nat := 8
  const PRIMARY_LEVEL: nat := 9

  function OpLevel(op: Op): nat {
    match op
    case OpOr => OR_LEVEL
    case OpAnd => AND_LEVEL
    case OpILike => LIKE_LEVEL
    case OpArrow => OTHER_LEVEL
    case OpHolds => OTHER_LEVEL
    case OpConcat => OTHER_LEVEL
    case OpMinus => ADDITIVE_LEVEL
    case _ => COMPARISON_LEVEL
  }

  predicate ChainLevel(level: nat) {
    level == OR_LEVEL || level == AND_LEVEL || (COMPARISON_LEVEL <= level <= ADDITIVE_LEVEL)
  }

  /** A chain is a left-associative run of operators of one level: head op operand op operand ... */
  datatype Expr =
    | Chain(level: nat, head: Expr, tail: Tail)
    | Not(e: Expr)
    | NullTest(e: Expr, negated: bool)
    | Cast(e: Expr, ty: CastType)
    | Paren(e: Expr)
    | Exists(where: Expr, having: Having)
    | Param(k: nat) | Column(name: ColumnName) | Str(text: string)
    | Now | CountStar | ArrayOf(e: Expr)

  datatype Tail = End | More(op: Op, operand: Expr, rest: Tail)

  datatype Having = NoHaving | HavingClause(test: Expr)

  // ---------- printing ----------

  function Toks(e: Expr): (t: seq<Token>)
    ensures t != []
  {
    match e
    case Chain(_, head, tail) => Toks(head) + TailToks(tail)
    case Not(a) => [NotT] + Toks(a)
    case NullTest(a, negated) => Toks(a) + [if negated then IsNotNullT else IsNullT]
    case Cast(a, ty) => Toks(a) + [CastT(ty)]
    case Paren(a) => [LParen] + Toks(a) + [RParen]
    case Exists(where, having) =>
      [ExistsT, LParen, SelectFromEventsWhereT] + Toks(where) + HavingToks(having) + [RParen]
    case Param(k) => [ParamT(k)]
    case Column(name) => [ColumnT(name)]
    case Str(text) => [StringT(text)]
    case Now => [NowT]
    case CountStar => [CountT]
    case ArrayOf(a) => [ArrayT] + Toks(a) + [RBracket]
  }

  function TailToks(t: Tail): seq<Token> {
    match t
    case End => []
    case More(op, operand, rest) => [BinT(op)] + Toks(operand) + TailToks(rest)
  }

  function HavingToks(h: Having): seq<Token> {
    match h
    case NoHaving => []
    case HavingClause(test) => [GroupByContactHavingT] + Toks(test)
  }

  // ---------- parsing ----------

  datatype Parsed<T> = Fail | Ok(value: T, rest: seq<Token>)

  function ParseAt(level: nat, toks: seq<Token>): (r: Parsed<Expr>)
    ensures r.Ok? ==> |r.rest| < |toks|
    decreases |toks|, 1, PRIMARY_LEVEL - level
  {
    if level >= PRIMARY_LEVEL then ParsePrimary(toks)
    else if level == NOT_LEVEL && toks != [] && toks[0] == NotT then
      var operand := ParseAt(NOT_LEVEL, toks[1..]);
      if operand.Fail? then Fail else Ok(Not(operand.value), operand.rest)
    else
      var head := ParseAt(level + 1, toks);
      if head.Fail? then Fail
      else if ChainLevel(level) then
        var tail := ParseTail(level, head.rest);
        if tail.Fail? then Fail
        else Ok(if tail.value.End? then head.value else Chain(level, head.value, tail.value), tail.rest)
      else if head.rest == [] then head
      else if level == IS_LEVEL && (head.rest[0] == IsNullT || head.rest[0] == IsNotNullT) then
        Ok(NullTest(head.value, head.rest[0] == IsNotNullT), head.rest[1..])
      else if level == CAST_LEVEL && head.rest[0].CastT? then
        Ok(Cast(head.value, head.rest[0].ty), head.rest[1..])
      else head
  }

  function ParseTail(level: nat, toks: seq<Token>): (r: Parsed<Tail>)
    ensures r.Ok? ==> |r.rest| <= |toks|
    decreases |toks|, 2, 0
  {
    if toks == [] || !toks[0].BinT? || OpLevel(toks[0].op) != level then Ok(End, toks)
    else
      var operand := ParseAt(level + 1, toks[1..]);
      if operand.Fail? then Fail
      else
        var rest := ParseTail(level, operand.rest);
        if rest.Fail? then Fail else Ok(More(toks[0].op, operand.value, rest.value), rest.rest)
  }

  function ParsePrimary(toks: seq<Token>): (r: Parsed<Expr>)
    ensures r.Ok? ==> |r.rest| < |toks|
    decreases |toks|, 0, 0
  {
    if toks == [] then Fail
    else
      match toks[0]
      case ParamT(k) => Ok(Param(k), toks[1..])
      case ColumnT(name) => Ok(Column(name), toks[1..])
      case StringT(text) => Ok(Str(text), toks[1..])
      case NowT => Ok(Now, toks[1..])
      case CountT => Ok(CountStar, toks[1..])
      case LParen =>
        var inner := ParseAt(0, toks[1..]);
        if inner.Ok? && inner.rest != [] && inner.rest[0] == RParen then Ok(Paren(inner.value), inner.rest[1..]) else Fail
      case ArrayT =>
        var inner := ParseAt(0, toks[1..]);
        if inner.Ok? && inner.rest != [] && inner.rest[0] == RBracket then Ok(ArrayOf(inner.value), inner.rest[1..]) else Fail
      case ExistsT =>
        if |toks| < 3 || toks[1] != LParen || toks[2] != SelectFromEventsWhereT then Fail
        else
          var where := ParseAt(0, toks[3..]);
          if where.Fail? || where.rest == [] then Fail
          else if where.rest[0] == RParen then Ok(Exists(where.value, NoHaving), where.rest[1..])
          else if where.rest[0] == GroupByContactHavingT then
            var test := ParseAt(0, where.rest[1..]);
            if test.Ok? && test.rest != [] && test.rest[0] == RParen
            then Ok(Exists(where.value, HavingClause(test.value)), test.rest[1..]) else Fail
          else Fail
      case _ => Fail
  }

  /** The whole text, with nothing left over. */
  function Parse(toks: seq<Token>): Parsed<Expr> {
    var r := ParseAt(0, toks);
    if r.Ok? && r.rest == [] then r else Fail
  }

  // ---------- which trees print to text that reads back ----------

  /** The level at which a tree stands by itself. */
  function OwnLevel(e: Expr): nat {
    match e
    case Chain(level, _, _) => level
    case Not(_) => NOT_LEVEL
    case NullTest(_, _) => IS_LEVEL
    case Cast(_, _) => CAST_LEVEL
    case _ => PRIMARY_LEVEL
  }

  /** Every operand binds at least as tightly as its place demands, or stands in parentheses. */
  predicate Fits(e: Expr, level: nat)
    decreases e
  {
    && level <= OwnLevel(e)
    && match e
       case Chain(own, head, tail) => ChainLevel(own) && tail.More? && Fits(head, own + 1) && TailFits(tail, own)
       case Not(a) => Fits(a, NOT_LEVEL)
       case NullTest(a, _) => Fits(a, COMPARISON_LEVEL)
       case Cast(a, _) => Fits(a, PRIMARY_LEVEL)
       case Paren(a) => Fits(a, 0)
       case Exists(where, having) => Fits(where, 0) && (having.HavingClause? ==> Fits(having.test, 0))
       case ArrayOf(a) => Fits(a, 0)
       case _ => true
  }

  predicate TailFits(t: Tail, level: nat)
    decreases t
  {
    t.More? ==> OpLevel(t.op) == level && Fits(t.operand, level + 1) && TailFits(t.rest, level)
  }

  /** The next token, if any, does not continue an expression of this level. */
  predicate Stops(level: nat, rest: seq<Token>) {
    rest == [] ||
    match rest[0]
    case BinT(op) => OpLevel(op) < level
    case IsNullT => level > IS_LEVEL
    case IsNotNullT => level > IS_LEVEL
    case CastT(_) => level > CAST_LEVEL
    case _ => true
  }

  lemma {:induction false} FirstTokenIsNot(e: Expr, level: nat)
    requires Fits(e, level) && level > NOT_LEVEL
    ensures Toks(e)[0] != NotT
    decreases e
  {
    match e
    case Chain(own, head, _) => FirstTokenIsNot(head, own + 1);
    case NullTest(a, _) => FirstTokenIsNot(a, COMPARISON_LEVEL);
    case Cast(a, _) => FirstTokenIsNot(a, PRIMARY_LEVEL);
    case _ =>
  }

  /** One level up, the parser passes the tree through: nothing that follows continues it there. */
  lemma PassesThrough(e: Expr, level: nat, rest: seq<Token>)
    requires Fits(e, level) && level < OwnLevel(e) && Stops(level, rest)
    requires ParseAt(level + 1, Toks(e) + rest) == Ok(e, rest)
    ensures ParseAt(level, Toks(e) + rest) == Ok(e, rest)
  {
    if level == NOT_LEVEL {
      assert Fits(e, level + 1);
      FirstTokenIsNot(e, level + 1);
      assert (Toks(e) + rest)[0] == Toks(e)[0];
    }
  }

  // One lemma a constructor: what the parser does once its operands are known to read back.

  lemma AfterFirst(first: Token, x: seq<Token>, y: seq<Token>, rest: seq<Token>)
    ensures var toks := [first] + x + y + rest; toks[0] == first && toks[1..] == x + (y + rest)
  {
    var toks := [first] + x + y + rest;
    assert |toks| == 1 + |x + (y + rest)|;
  }

  lemma ReadsNot(a: Expr, rest: seq<Token>)
    requires ParseAt(NOT_LEVEL, Toks(a) + rest) == Ok(a, rest)
    ensures ParseAt(NOT_LEVEL, Toks(Not(a)) + rest) == Ok(Not(a), rest)
  {
    hide ParseTail, ParsePrimary;
    assert Toks(Not(a)) == [NotT] + Toks(a);
    hide Toks;
    AfterFirst(NotT, Toks(a), [], rest);
    assert Toks(a) + [] == Toks(a) && [NotT] + Toks(a) + [] == [NotT] + Toks(a) && [] + rest == rest;
  }

  lemma ReadsNullTest(a: Expr, negated: bool, rest: seq<Token>)
    requires var mark := [if negated then IsNotNullT else IsNullT];
             ParseAt(COMPARISON_LEVEL, Toks(a) + (mark + rest)) == Ok(a, mark + rest)
    ensures ParseAt(IS_LEVEL, Toks(NullTest(a, negated)) + rest) == Ok(NullTest(a, negated), rest)
  {
    var mark := [if negated then IsNotNullT else IsNullT];
    assert Toks(NullTest(a, negated)) + rest == Toks(a) + (mark + rest);
    assert (mark + rest)[0] == mark[0] && (mark + rest)[1..] == rest;
  }

  lemma ReadsCast(a: Expr, ty: CastType, rest: seq<Token>)
    requires ParseAt(PRIMARY_LEVEL, Toks(a) + ([CastT(ty)] + rest)) == Ok(a, [CastT(ty)] + rest)
    ensures ParseAt(CAST_LEVEL, Toks(Cast(a, ty)) + rest) == Ok(Cast(a, ty), rest)
  {
    assert Toks(Cast(a, ty)) + rest == Toks(a) + ([CastT(ty)] + rest);
    assert ([CastT(ty)] + rest)[0] == CastT(ty) && ([CastT(ty)] + rest)[1..] == rest;
  }

  lemma ReadsChain(own: nat, head: Expr, tail: Tail, rest: seq<Token>)
    requires ChainLevel(own) && tail.More?
    requires ParseAt(own + 1, Toks(head) + (TailToks(tail) + rest)) == Ok(head, TailToks(tail) + rest)
    requires ParseTail(own, TailToks(tail) + rest) == Ok(tail, rest)
    ensures ParseAt(own, Toks(Chain(own, head, tail)) + rest) == Ok(Chain(own, head, tail), rest)
  {
    hide ParseTail, ParsePrimary;
    assert Toks(Chain(own, head, tail)) + rest == Toks(head) + (TailToks(tail) + rest);
  }

  lemma ReadsMore(level: nat, op: Op, operand: Expr, more: Tail, rest: seq<Token>)
    requires OpLevel(op) == level
    requires ParseAt(level + 1, Toks(operand) + (TailToks(more) + rest)) == Ok(operand, TailToks(more) + rest)
    requires ParseTail(level, TailToks(more) + rest) == Ok(more, rest)
    ensures ParseTail(level, TailToks(More(op, operand, more)) + rest) == Ok(More(op, operand, more), rest)
  {
    hide ParseAt, ParsePrimary;
    assert TailToks(More(op, operand, more)) == [BinT(op)] + Toks(operand) + TailToks(more);
    hide Toks, TailToks;
    AfterFirst(BinT(op), Toks(operand), TailToks(more), rest);
  }

  lemma ReadsParen(a: Expr, rest: seq<Token>)
    requires ParseAt(0, Toks(a) + ([RParen] + rest)) == Ok(a, [RParen] + rest)
    ensures ParsePrimary(Toks(Paren(a)) + rest) == Ok(Paren(a), rest)
  {
    hide ParseAt, ParseTail;
    var toks := Toks(Paren(a)) + rest;
    assert toks[0] == LParen && toks[1..] == Toks(a) + ([RParen] + rest);
    assert ([RParen] + rest)[1..] == rest;
  }

  lemma ReadsArray(a: Expr, rest: seq<Token>)
    requires ParseAt(0, Toks(a) + ([RBracket] + rest)) == Ok(a, [RBracket] + rest)
    ensures ParsePrimary(Toks(ArrayOf(a)) + rest) == Ok(ArrayOf(a), rest)
  {
    hide ParseAt, ParseTail;
    var toks := Toks(ArrayOf(a)) + rest;
    assert toks[0] == ArrayT && toks[1..] == Toks(a) + ([RBracket] + rest);
    assert ([RBracket] + rest)[1..] == rest;
  }

  lemma ReadsExists(where: Expr, having: Having, rest: seq<Token>)
    requires var after := HavingToks(having) + ([RParen] + rest); ParseAt(0, Toks(where) + after) == Ok(where, after)
    requires having.HavingClause? ==>
               ParseAt(0, Toks(having.test) + ([RParen] + rest)) == Ok(having.test, [RParen] + rest)
    ensures ParsePrimary(Toks(Exists(where, having)) + rest) == Ok(Exists(where, having), rest)
  {
    hide ParseAt, ParseTail, Toks;
    var after := HavingToks(having) + ([RParen] + rest);
    ExistsPrints(where, having);
    AfterThree([ExistsT, LParen, SelectFromEventsWhereT], Toks(where), HavingToks(having), [RParen], rest);
    assert ([RParen] + rest)[1..] == rest;
    if having.HavingClause? {
      assert after[1..] == Toks(having.test) + ([RParen] + rest);
    } else {
      assert after == [RParen] + rest;
    }
  }

  lemma AfterThree(first: seq<Token>, x: seq<Token>, y: seq<Token>, z: seq<Token>, rest: seq<Token>)
    requires |first| == 3
    ensures var toks := first + x + y + z + rest;
            toks[0] == first[0] && toks[1] == first[1] && toks[2] == first[2] && toks[3..] == x + (y + (z + rest))
  {
  }

  lemma ExistsPrints(where: Expr, having: Having)
    ensures Toks(Exists(where, having)) ==
              [ExistsT, LParen, SelectFromEventsWhereT] + Toks(where) + HavingToks(having) + [RParen]
  {
  }

  lemma ReadsLeaf(e: Expr, rest: seq<Token>)
    requires e.Param? || e.Column? || e.Str? || e.Now? || e.CountStar?
    ensures ParsePrimary(Toks(e) + rest) == Ok(e, rest)
  {
    hide ParseAt, ParseTail;
    assert (Toks(e) + rest)[1..] == rest;
  }

  /** What the printer writes for a fitting tree, the parser reads back as that tree, whatever follows. */
  lemma {:induction false} ParsePrint(e: Expr, level: nat, rest: seq<Token>)
    requires Fits(e, level) && Stops(level, rest)
    ensures ParseAt(level, Toks(e) + rest) == Ok(e, rest)
    decreases e, 1, PRIMARY_LEVEL - level
  {
    if level < OwnLevel(e) {
      hide ParseAt, Toks;
      ParsePrint(e, level + 1, rest);
      PassesThrough(e, level, rest);
    } else if OwnLevel(e) == PRIMARY_LEVEL {
      hide ParsePrimary, Toks, Fits;
      ParsePrintPrimary(e, rest);
    } else {
      hide ParseAt, Toks;
      match e
      case Chain(own, head, tail) =>
        ParsePrint(head, own + 1, TailToks(tail) + rest);
        ParsePrintTail(own, tail, rest);
        ReadsChain(own, head, tail, rest);
      case Not(a) =>
        ParsePrint(a, NOT_LEVEL, rest);
        ReadsNot(a, rest);
      case NullTest(a, negated) =>
        ParsePrint(a, COMPARISON_LEVEL, [if negated then IsNotNullT else IsNullT] + rest);
        ReadsNullTest(a, negated, rest);
      case Cast(a, ty) =>
        ParsePrint(a, PRIMARY_LEVEL, [CastT(ty)] + rest);
        ReadsCast(a, ty, rest);
    }
  }

  lemma {:induction false} ParsePrintTail(level: nat, tail: Tail, rest: seq<Token>)
    requires ChainLevel(level) && TailFits(tail, level) && Stops(level, rest)
    ensures ParseTail(level, TailToks(tail) + rest) == Ok(tail, rest)
    decreases tail, 0, 0
  {
    match tail
    case End => assert TailToks(tail) + rest == rest;
    case More(op, operand, more) =>
      ParsePrint(operand, level + 1, TailToks(more) + rest);
      ParsePrintTail(level, more, rest);
      ReadsMore(level, op, operand, more, rest);
  }

  lemma {:induction false} ParsePrintPrimary(e: Expr, rest: seq<Token>)
    requires OwnLevel(e) == PRIMARY_LEVEL && Fits(e, PRIMARY_LEVEL)
    ensures ParsePrimary(Toks(e) + rest) == Ok(e, rest)
    decreases e, 0, 0
  {
    hide ParseAt, ParsePrimary, Toks;
    match e
    case Paren(a) =>
      ParsePrint(a, 0, [RParen] + rest);
      ReadsParen(a, rest);
    case ArrayOf(a) =>
      ParsePrint(a, 0, [RBracket] + rest);
      ReadsArray(a, rest);
    case Exists(where, having) =>
      ParsePrint(where, 0, HavingToks(having) + ([RParen] + rest));
      if having.HavingClause? {
        ParsePrint(having.test, 0, [RParen] + rest);
      }
      ReadsExists(where, having, rest);
    case _ => ReadsLeaf(e, rest);
  }

  /** The reading of a fitting tree's text is unique: it is the tree. */
  lemma TextReadsBack(e: Expr)
    requires Fits(e, 0)
    ensures Parse(Toks(e)) == Ok(e, [])
  {
    ParsePrint(e, 0, []);
    assert Toks(e) + [] == Toks(e);
  }
}
