/**
 * The segment compiler: a definition becomes the tokens of a WHERE clause while the values it mentions
 * are pushed onto one shared parameter list, whose length numbers each placeholder.
 */
module SegmentCompiler {
  import opened Options
  import opened SqlGrammar
  import opened SqlEval
  import opened LikeEscape

  datatype ConditionOperator =
    | EqOp | NeqOp | ContainsOp | NotContainsOp | IsEmptyOp | IsNotEmptyOp
    | GtOp | GteOp | LtOp | LteOp
    | IsTrueOp | IsFalseOp
    | BeforeOp | AfterOp | InLastDaysOp
    | HasTagOp | NotHasTagOp

  datatype Timeframe = LastDays(days: nat) | AllTime

  datatype Condition =
    | Attribute(custom: bool, field: string, op: ConditionOperator, value: Input)
    | Behavioral(eventName: string, none: bool, count: Option<nat>, timeframe: Timeframe)

  datatype Combinator = CombineAnd | CombineOr

  type Group = seq<Condition>

  datatype Definition = Definition(combinator: Option<Combinator>, groups: seq<Group>)

  /** The allow-list of profile fields; anything else is refused. */
  function StandardFieldColumn(field: string): Option<ColumnName> {
    if field == "country" then Some(Country)
    else if field == "city" then Some(City)
    else if field == "firstName" then Some(FirstName)
    else if field == "lastName" then Some(LastName)
    else if field == "phone" then Some(Phone)
    else if field == "subscriptionStatus" then Some(SubscriptionStatus)
    else if field == "tags" then Some(Tags)
    else None
  }

  predicate Known(cond: Condition) {
    cond.Attribute? && !cond.custom ==> StandardFieldColumn(cond.field).Some?
  }

  /** The seven fields by name; nothing else is ever read. */
  lemma KnownFields(cond: Condition)
    ensures Known(cond) <==>
              cond.Behavioral? || cond.custom
              || cond.field in ["country", "city", "firstName", "lastName", "phone", "subscriptionStatus", "tags"]
  {
    var fields := ["country", "city", "firstName", "lastName", "phone", "subscriptionStatus", "tags"];
    assert fields[0] == "country" && fields[1] == "city" && fields[2] == "firstName" && fields[3] == "lastName";
    assert fields[4] == "phone" && fields[5] == "subscriptionStatus" && fields[6] == "tags";
  }

  predicate AllKnown(conds: seq<Condition>) {
    forall i :: 0 <= i < |conds| ==> Known(conds[i])
  }

  // ---------- the tree a condition stands for, and the values it pushes ----------

  function Binary(level: nat, l: Expr, op: Op, r: Expr): Expr {
    Chain(level, l, More(op, r, End))
  }

  function ColumnTree(cond: Condition, before: nat): Expr
    requires cond.Attribute? && Known(cond)
  {
    if cond.custom then Binary(OTHER_LEVEL, Column(Properties), OpArrow, Param(before + 1))
    else Column(StandardFieldColumn(cond.field).value)
  }

  /** `now() - ($k || ' days')::interval` */
  function CutoffTree(k: nat): Expr {
    Binary(ADDITIVE_LEVEL, Now, OpMinus, Cast(Paren(Binary(OTHER_LEVEL, Param(k), OpConcat, Str(" days"))), ToInterval))
  }

  function AppendTail(t: Tail, op: Op, e: Expr): Tail {
    match t
    case End => More(op, e, End)
    case More(o, x, rest) => More(o, x, AppendTail(rest, op, e))
  }

  /** `column @> e`: a column that is itself a chain of that level grows by one operand. */
  function HoldsTree(col: Expr, e: Expr): Expr {
    if col.Chain? && col.level == OTHER_LEVEL then Chain(OTHER_LEVEL, col.head, AppendTail(col.tail, OpHolds, e))
    else Binary(OTHER_LEVEL, col, OpHolds, e)
  }

  function OperatorTree(col: Expr, op: ConditionOperator, k: nat): Expr {
    match op
    case EqOp => Binary(COMPARISON_LEVEL, col, OpEq, Param(k))
    case NeqOp => Binary(COMPARISON_LEVEL, col, OpNeq, Param(k))
    case ContainsOp => Binary(LIKE_LEVEL, col, OpILike, Param(k))
    case NotContainsOp => Not(Paren(Binary(LIKE_LEVEL, col, OpILike, Param(k))))
    case IsEmptyOp => Paren(Binary(OR_LEVEL, NullTest(col, false), OpOr, Binary(COMPARISON_LEVEL, col, OpEq, Str(""))))
    case IsNotEmptyOp => Paren(Binary(AND_LEVEL, NullTest(col, true), OpAnd, Binary(COMPARISON_LEVEL, col, OpNeq, Str(""))))
    case GtOp => Binary(COMPARISON_LEVEL, Cast(Paren(col), ToNumeric), OpGt, Param(k))
    case GteOp => Binary(COMPARISON_LEVEL, Cast(Paren(col), ToNumeric), OpGe, Param(k))
    case LtOp => Binary(COMPARISON_LEVEL, Cast(Paren(col), ToNumeric), OpLt, Param(k))
    case LteOp => Binary(COMPARISON_LEVEL, Cast(Paren(col), ToNumeric), OpLe, Param(k))
    case IsTrueOp => Binary(COMPARISON_LEVEL, Cast(Paren(col), ToBoolean), OpEq, Param(k))
    case IsFalseOp => Binary(COMPARISON_LEVEL, Cast(Paren(col), ToBoolean), OpEq, Param(k))
    case BeforeOp => Binary(COMPARISON_LEVEL, Cast(Paren(col), ToTimestamptz), OpLt, Param(k))
    case AfterOp => Binary(COMPARISON_LEVEL, Cast(Paren(col), ToTimestamptz), OpGt, Param(k))
    case InLastDaysOp => Binary(COMPARISON_LEVEL, Cast(Paren(col), ToTimestamptz), OpGe, CutoffTree(k))
    case HasTagOp => HoldsTree(col, Cast(ArrayOf(Param(k)), ToTextArray))
    case NotHasTagOp => Not(Paren(HoldsTree(col, Cast(ArrayOf(Param(k)), ToTextArray))))
  }

  function OperatorPush(jsText: Input -> string, op: ConditionOperator, value: Input): seq<Input> {
    match op
    case ContainsOp => [JsString("%" + EscapeLikeWildcards(jsText(value)) + "%")]
    case NotContainsOp => [JsString("%" + EscapeLikeWildcards(jsText(value)) + "%")]
    case IsEmptyOp => []
    case IsNotEmptyOp => []
    case IsTrueOp => [JsBool(true)]
    case IsFalseOp => [JsBool(false)]
    case _ => [value]
  }

  function RequiredCount(cond: Condition): nat
    requires cond.Behavioral?
  {
    cond.count.GetOr(1)
  }

  predicate CountsGroups(cond: Condition)
    requires cond.Behavioral?
  {
    !cond.none && RequiredCount(cond) > 1
  }

  const SameWorkspaceTree := Binary(COMPARISON_LEVEL, Column(WorkspaceIdOfEvent), OpEq, Column(WorkspaceIdOfContact))
  const SameContactTree := Binary(COMPARISON_LEVEL, Column(ContactIdOfEvent), OpEq, Column(IdOfContact))

  function NameTree(k: nat): Expr {
    Binary(COMPARISON_LEVEL, Column(NameOfEvent), OpEq, Param(k))
  }

  function RecentTail(cond: Condition, before: nat): Tail
    requires cond.Behavioral?
  {
    if cond.timeframe.AllTime? then End
    else More(OpAnd, Binary(COMPARISON_LEVEL, Column(OccurredAtOfEvent), OpGe, CutoffTree(before + 2)), End)
  }

  function EventFilterTree(cond: Condition, before: nat): Expr
    requires cond.Behavioral?
  {
    Chain(AND_LEVEL, SameWorkspaceTree,
          More(OpAnd, SameContactTree, More(OpAnd, NameTree(before + 1), RecentTail(cond, before))))
  }

  function HavingTree(cond: Condition, before: nat): Having
    requires cond.Behavioral?
  {
    if CountsGroups(cond)
    then HavingClause(Binary(COMPARISON_LEVEL, CountStar, OpGe, Param(before + if cond.timeframe.LastDays? then 3 else 2)))
    else NoHaving
  }

  function BehavioralTree(cond: Condition, before: nat): Expr
    requires cond.Behavioral?
  {
    var exists' := Exists(EventFilterTree(cond, before), HavingTree(cond, before));
    if cond.none then Not(exists') else exists'
  }

  function BehavioralPush(cond: Condition): seq<Input>
    requires cond.Behavioral?
  {
    [JsString(cond.eventName)]
    + (if cond.timeframe.LastDays? then [JsNumber(cond.timeframe.days)] else [])
    + (if CountsGroups(cond) then [JsNumber(RequiredCount(cond))] else [])
  }

  /** `before` parameters are already on the list. */
  function CondTree(cond: Condition, before: nat): Expr
    requires Known(cond)
  {
    if cond.Attribute? then OperatorTree(ColumnTree(cond, before), cond.op, before + (if cond.custom then 2 else 1))
    else BehavioralTree(cond, before)
  }

  function CondPush(jsText: Input -> string, cond: Condition): seq<Input> {
    if cond.Attribute? then (if cond.custom then [JsString(cond.field)] else []) + OperatorPush(jsText, cond.op, cond.value)
    else BehavioralPush(cond)
  }

  function GroupPush(jsText: Input -> string, conds: seq<Condition>): seq<Input> {
    if conds == [] then [] else GroupPush(jsText, conds[..|conds| - 1]) + CondPush(jsText, conds[|conds| - 1])
  }

  function CondTrees(jsText: Input -> string, conds: seq<Condition>, before: nat): (r: seq<Expr>)
    requires AllKnown(conds)
    ensures |r| == |conds|
  {
    if conds == [] then []
    else
      var n := |conds| - 1;
      CondTrees(jsText, conds[..n], before) + [CondTree(conds[n], before + |GroupPush(jsText, conds[..n])|)]
  }

  function GroupsPush(jsText: Input -> string, groups: seq<Group>): seq<Input> {
    if groups == [] then [] else GroupsPush(jsText, groups[..|groups| - 1]) + GroupPush(jsText, groups[|groups| - 1])
  }

  predicate GroupsKnown(groups: seq<Group>) {
    forall i :: 0 <= i < |groups| ==> AllKnown(groups[i])
  }

  // ---------- joining clauses with a keyword ----------

  function JoinRest(op: Op, parts: seq<seq<Token>>): seq<Token> {
    if parts == [] then [] else [BinT(op)] + parts[0] + JoinRest(op, parts[1..])
  }

  function Join(op: Op, parts: seq<seq<Token>>): seq<Token> {
    if parts == [] then [] else parts[0] + JoinRest(op, parts[1..])
  }

  function TailOf(op: Op, es: seq<Expr>): Tail {
    if es == [] then End else More(op, es[0], TailOf(op, es[1..]))
  }

  function JoinTree(level: nat, op: Op, es: seq<Expr>): Expr
    requires es != []
  {
    if |es| == 1 then es[0] else Chain(level, es[0], TailOf(op, es[1..]))
  }

  function AllToks(es: seq<Expr>): (r: seq<seq<Token>>)
    ensures |r| == |es|
  {
    seq(|es|, i requires 0 <= i < |es| => Toks(es[i]))
  }

  lemma {:induction false} TailPrints(op: Op, es: seq<Expr>)
    ensures TailToks(TailOf(op, es)) == JoinRest(op, AllToks(es))
  {
    if es != [] {
      TailPrints(op, es[1..]);
      assert AllToks(es)[1..] == AllToks(es[1..]);
    }
  }

  lemma JoinPrints(level: nat, op: Op, es: seq<Expr>)
    requires es != []
    ensures Toks(JoinTree(level, op, es)) == Join(op, AllToks(es))
  {
    TailPrints(op, es[1..]);
    assert AllToks(es)[1..] == AllToks(es[1..]);
    if |es| == 1 {
      assert AllToks(es) == [Toks(es[0])];
    }
  }

  lemma CondTreesGrow(jsText: Input -> string, conds: seq<Condition>, i: nat, before: nat)
    requires i < |conds| && AllKnown(conds[..i]) && Known(conds[i])
    ensures AllKnown(conds[..i + 1])
    ensures GroupPush(jsText, conds[..i + 1]) == GroupPush(jsText, conds[..i]) + CondPush(jsText, conds[i])
    ensures AllToks(CondTrees(jsText, conds[..i + 1], before)) ==
              AllToks(CondTrees(jsText, conds[..i], before))
              + [Toks(CondTree(conds[i], before + |GroupPush(jsText, conds[..i])|))]
  {
    hide CondTree, CondPush, Toks;
    assert conds[..i + 1][..i] == conds[..i] && conds[..i + 1][i] == conds[i];
  }

  // ---------- the whole clause ----------

  function GroupToks(jsText: Input -> string, conds: seq<Condition>, before: nat): seq<Token>
    requires AllKnown(conds)
  {
    [LParen] + Join(OpOr, AllToks(CondTrees(jsText, conds, before))) + [RParen]
  }

  function GroupClauses(jsText: Input -> string, groups: seq<Group>, before: nat): (r: seq<seq<Token>>)
    requires GroupsKnown(groups)
    ensures |r| == |groups|
  {
    if groups == [] then []
    else
      var n := |groups| - 1;
      GroupClauses(jsText, groups[..n], before) + [GroupToks(jsText, groups[n], before + |GroupsPush(jsText, groups[..n])|)]
  }

  lemma ClausesGrow(jsText: Input -> string, groups: seq<Group>, i: nat)
    requires i < |groups| && GroupsKnown(groups[..i]) && AllKnown(groups[i])
    ensures GroupsKnown(groups[..i + 1])
    ensures GroupsPush(jsText, groups[..i + 1]) == GroupsPush(jsText, groups[..i]) + GroupPush(jsText, groups[i])
    ensures GroupClauses(jsText, groups[..i + 1], 1) ==
              GroupClauses(jsText, groups[..i], 1) + [GroupToks(jsText, groups[i], 1 + |GroupsPush(jsText, groups[..i])|)]
  {
    hide GroupToks, GroupPush, AllKnown;
    assert groups[..i + 1][..i] == groups[..i] && groups[..i + 1][i] == groups[i];
  }

  const WorkspaceTree := Binary(COMPARISON_LEVEL, Column(WorkspaceIdOfContact), OpEq, Param(1))
  const NotAnonymizedTree := NullTest(Column(AnonymizedAt), false)

  predicate OrsGroups(def: Definition) {
    def.combinator == Some(CombineOr) && |def.groups| > 1
  }

  function WhereToks(jsText: Input -> string, def: Definition): seq<Token>
    requires GroupsKnown(def.groups)
  {
    var clauses := GroupClauses(jsText, def.groups, 1);
    var grouped := if OrsGroups(def) then [[LParen] + Join(OpOr, clauses) + [RParen]] else clauses;
    Join(OpAnd, [Toks(WorkspaceTree), Toks(NotAnonymizedTree)] + grouped)
  }

  function WherePush(jsText: Input -> string, def: Definition, workspaceId: string): seq<Input> {
    [JsString(workspaceId)] + GroupsPush(jsText, def.groups)
  }

  lemma {:induction false} AppendTailPrints(t: Tail, op: Op, e: Expr)
    ensures TailToks(AppendTail(t, op, e)) == TailToks(t) + [BinT(op)] + Toks(e)
  {
    match t
    case End => assert TailToks(t) + [BinT(op)] + Toks(e) == [BinT(op)] + Toks(e) + [];
    case More(o, x, rest) =>
      AppendTailPrints(rest, op, e);
      assert TailToks(t) == [BinT(o)] + Toks(x) + TailToks(rest);
      assert TailToks(AppendTail(t, op, e)) == [BinT(o)] + Toks(x) + TailToks(AppendTail(rest, op, e));
      hide Toks, TailToks, AppendTail;
      MoreAtTheEnd([BinT(o)] + Toks(x), TailToks(rest), [BinT(op)], Toks(e));
  }

  lemma MoreAtTheEnd(a: seq<Token>, b: seq<Token>, c: seq<Token>, d: seq<Token>)
    ensures a + (b + c + d) == (a + b) + c + d
  {
  }

  lemma HoldsPrints(col: Expr, e: Expr)
    ensures Toks(HoldsTree(col, e)) == Toks(col) + [BinT(OpHolds)] + Toks(e)
  {
    if col.Chain? && col.level == OTHER_LEVEL {
      AppendTailPrints(col.tail, OpHolds, e);
    } else {
      BinaryPrints(OTHER_LEVEL, col, OpHolds, e);
    }
  }

  lemma BinaryPrints(level: nat, l: Expr, op: Op, r: Expr)
    ensures Toks(Binary(level, l, op, r)) == Toks(l) + [BinT(op)] + Toks(r)
  {
    assert TailToks(More(op, r, End)) == [BinT(op)] + Toks(r);
  }

  class Compiler {
    var params: seq<Input>
    const jsText: Input -> string

    constructor (jsText: Input -> string)
      ensures params == [] && this.jsText == jsText
    {
      this.jsText := jsText;
      params := [];
    }

    /** Pushes a value and answers its placeholder. */
    method Push(value: Input) returns (placeholder: seq<Token>)
      modifies this`params
      ensures params == old(params) + [value] && placeholder == [ParamT(|params|)]
    {
      params := params + [value];
      placeholder := [ParamT(|params|)];
    }

    /** `column` is the text of the tree `col`. */
    method CompileOperator(column: seq<Token>, ghost col: Expr, op: ConditionOperator, value: Input) returns (toks: seq<Token>)
      requires column == Toks(col)
      modifies this`params
      ensures params == old(params) + OperatorPush(jsText, op, value)
      ensures toks == Toks(OperatorTree(col, op, |old(params)| + 1))
    {
      ghost var k := |params| + 1;
      hide Toks;
      match op {
        case EqOp => toks := CompileBinary(column, col, COMPARISON_LEVEL, OpEq, value);
        case NeqOp => toks := CompileBinary(column, col, COMPARISON_LEVEL, OpNeq, value);
        case ContainsOp =>
          toks := CompileBinary(column, col, LIKE_LEVEL, OpILike, JsString("%" + EscapeLikeWildcards(jsText(value)) + "%"));
        case NotContainsOp =>
          toks := CompileBinary(column, col, LIKE_LEVEL, OpILike, JsString("%" + EscapeLikeWildcards(jsText(value)) + "%"));
          NotParenPrints(Binary(LIKE_LEVEL, col, OpILike, Param(k)));
          toks := [NotT, LParen] + toks + [RParen];
        case IsEmptyOp =>
          toks := [LParen] + column + [IsNullT, BinT(OpOr)] + column + [BinT(OpEq), StringT("")] + [RParen];
          EmptinessPrints(col, false);
        case IsNotEmptyOp =>
          toks := [LParen] + column + [IsNotNullT, BinT(OpAnd)] + column + [BinT(OpNeq), StringT("")] + [RParen];
          EmptinessPrints(col, true);
        case GtOp => toks := CompileCastBinary(column, col, ToNumeric, OpGt, value);
        case GteOp => toks := CompileCastBinary(column, col, ToNumeric, OpGe, value);
        case LtOp => toks := CompileCastBinary(column, col, ToNumeric, OpLt, value);
        case LteOp => toks := CompileCastBinary(column, col, ToNumeric, OpLe, value);
        case IsTrueOp => toks := CompileCastBinary(column, col, ToBoolean, OpEq, JsBool(true));
        case IsFalseOp => toks := CompileCastBinary(column, col, ToBoolean, OpEq, JsBool(false));
        case BeforeOp => toks := CompileCastBinary(column, col, ToTimestamptz, OpLt, value);
        case AfterOp => toks := CompileCastBinary(column, col, ToTimestamptz, OpGt, value);
        case InLastDaysOp =>
          var placeholder := Push(value);
          toks := [LParen] + column + [RParen, CastT(ToTimestamptz), BinT(OpGe)] + CutoffToks(placeholder);
          CastParenPrints(col, ToTimestamptz);
          CutoffPrints(k);
          BinaryPrints(COMPARISON_LEVEL, Cast(Paren(col), ToTimestamptz), OpGe, CutoffTree(k));
        case HasTagOp =>
          var placeholder := Push(value);
          toks := column + [BinT(OpHolds), ArrayT] + placeholder + [RBracket, CastT(ToTextArray)];
          HoldsPrints(col, Cast(ArrayOf(Param(k)), ToTextArray));
          ElementPrints(k);
        case NotHasTagOp =>
          var placeholder := Push(value);
          toks := [NotT, LParen] + (column + [BinT(OpHolds), ArrayT] + placeholder + [RBracket, CastT(ToTextArray)]) + [RParen];
          HoldsPrints(col, Cast(ArrayOf(Param(k)), ToTextArray));
          ElementPrints(k);
          NotParenPrints(HoldsTree(col, Cast(ArrayOf(Param(k)), ToTextArray)));
      }
    }

    method CompileBinary(column: seq<Token>, ghost col: Expr, ghost level: nat, op: Op, value: Input) returns (toks: seq<Token>)
      requires column == Toks(col)
      modifies this`params
      ensures params == old(params) + [value]
      ensures toks == Toks(Binary(level, col, op, Param(|old(params)| + 1)))
    {
      BinaryPrints(level, col, op, Param(|params| + 1));
      var placeholder := Push(value);
      toks := column + [BinT(op)] + placeholder;
    }

    method CompileCastBinary(column: seq<Token>, ghost col: Expr, ty: CastType, op: Op, value: Input) returns (toks: seq<Token>)
      requires column == Toks(col)
      modifies this`params
      ensures params == old(params) + [value]
      ensures toks == Toks(Binary(COMPARISON_LEVEL, Cast(Paren(col), ty), op, Param(|old(params)| + 1)))
    {
      CastParenPrints(col, ty);
      toks := CompileBinary([LParen] + column + [RParen, CastT(ty)], Cast(Paren(col), ty), COMPARISON_LEVEL, op, value);
    }

    /** None for the error thrown on an unknown profile field. */
    method CompileAttributeCondition(cond: Condition) returns (r: Option<seq<Token>>)
      requires cond.Attribute?
      modifies this`params
      ensures r.Some? <==> Known(cond)
      ensures r.Some? ==> params == old(params) + CondPush(jsText, cond) && r.value == Toks(CondTree(cond, |old(params)|))
    {
      ghost var before := |params|;
      var column: seq<Token>;
      if !cond.custom {
        var mapped := StandardFieldColumn(cond.field);
        if mapped.None? {
          return None;
        }
        column := [ColumnT(mapped.value)];
      } else {
        var placeholder := Push(JsString(cond.field));
        column := [ColumnT(Properties), BinT(OpArrow)] + placeholder;
        BinaryPrints(OTHER_LEVEL, Column(Properties), OpArrow, Param(before + 1));
      }
      var toks := CompileOperator(column, ColumnTree(cond, before), cond.op, cond.value);
      r := Some(toks);
    }

    method CompileTimeframe(timeframe: Timeframe) returns (timeClause: seq<Token>)
      modifies this`params
      ensures params == old(params) + (if timeframe.LastDays? then [JsNumber(timeframe.days)] else [])
      ensures timeClause == if timeframe.AllTime? then []
                            else [BinT(OpAnd), ColumnT(OccurredAtOfEvent), BinT(OpGe)] + CutoffToks([ParamT(|params|)])
    {
      timeClause := [];
      if timeframe.LastDays? {
        var placeholder := Push(JsNumber(timeframe.days));
        timeClause := [BinT(OpAnd), ColumnT(OccurredAtOfEvent), BinT(OpGe)] + CutoffToks(placeholder);
      }
    }

    method CompileCount(cond: Condition) returns (havingClause: seq<Token>)
      requires cond.Behavioral?
      modifies this`params
      ensures params == old(params) + (if CountsGroups(cond) then [JsNumber(RequiredCount(cond))] else [])
      ensures havingClause == if CountsGroups(cond) then [GroupByContactHavingT, CountT, BinT(OpGe)] + [ParamT(|params|)] else []
    {
      havingClause := [];
      var requiredCount := cond.count.GetOr(1);
      if !cond.none && requiredCount > 1 {
        var placeholder := Push(JsNumber(requiredCount));
        havingClause := [GroupByContactHavingT, CountT, BinT(OpGe)] + placeholder;
      }
    }

    method CompileBehavioralCondition(cond: Condition) returns (toks: seq<Token>)
      requires cond.Behavioral?
      modifies this`params
      ensures params == old(params) + BehavioralPush(cond)
      ensures toks == Toks(BehavioralTree(cond, |old(params)|))
    {
      hide Toks, CutoffToks, BehavioralTree;
      ghost var before := |params|;
      var nameParam := Push(JsString(cond.eventName));
      var timeClause := CompileTimeframe(cond.timeframe);
      var havingClause := CompileCount(cond);
      var sameWorkspace := [ColumnT(WorkspaceIdOfEvent), BinT(OpEq), ColumnT(WorkspaceIdOfContact)];
      var sameContact := [ColumnT(ContactIdOfEvent), BinT(OpEq), ColumnT(IdOfContact)];
      var sameName := [ColumnT(NameOfEvent), BinT(OpEq)] + nameParam;
      var filter := sameWorkspace + [BinT(OpAnd)] + sameContact + [BinT(OpAnd)] + sameName + timeClause;
      BehavioralPrints(cond, before);
      assert havingClause == CountToks(cond, before);
      assert filter == FilterToks(cond, before);
      toks := [ExistsT, LParen, SelectFromEventsWhereT] + filter + havingClause + [RParen];
      if cond.none {
        toks := [NotT] + toks;
      }
    }

    method CompileCondition(cond: Condition) returns (r: Option<seq<Token>>)
      modifies this`params
      ensures r.Some? <==> Known(cond)
      ensures r.Some? ==> params == old(params) + CondPush(jsText, cond) && r.value == Toks(CondTree(cond, |old(params)|))
    {
      if cond.Attribute? {
        r := CompileAttributeCondition(cond);
      } else {
        var toks := CompileBehavioralCondition(cond);
        r := Some(toks);
      }
    }

    method CompileGroup(group: Group) returns (r: Option<seq<Token>>)
      modifies this`params
      ensures r.Some? <==> AllKnown(group)
      ensures r.Some? ==> params == old(params) + GroupPush(jsText, group) && r.value == GroupToks(jsText, group, |old(params)|)
    {
      hide Toks, CondTrees, CondPush, CondTree;
      ghost var before := params;
      var clauses: seq<seq<Token>> := [];
      var i := 0;
      assert CondTrees(jsText, group[..0], |before|) == [];
      while i < |group|
        invariant 0 <= i <= |group| && AllKnown(group[..i])
        invariant params == before + GroupPush(jsText, group[..i])
        invariant clauses == AllToks(CondTrees(jsText, group[..i], |before|))
      {
        var clause := CompileCondition(group[i]);
        if clause.None? {
          return None;
        }
        CondTreesGrow(jsText, group, i, |before|);
        clauses := clauses + [clause.value];
        i := i + 1;
      }
      assert group[..i] == group;
      r := Some([LParen] + Join(OpOr, clauses) + [RParen]);
    }

    method CompileSegmentDefinition(def: Definition, workspaceId: string) returns (whereSql: Option<seq<Token>>)
      modifies this`params
      ensures whereSql.Some? <==> GroupsKnown(def.groups)
      ensures whereSql.Some? ==> params == WherePush(jsText, def, workspaceId) && whereSql.value == WhereToks(jsText, def)
    {
      hide Toks, GroupToks, GroupPush, AllKnown;
      params := [JsString(workspaceId)];
      var clauses: seq<seq<Token>> := [];
      var i := 0;
      while i < |def.groups|
        invariant 0 <= i <= |def.groups| && GroupsKnown(def.groups[..i])
        invariant params == [JsString(workspaceId)] + GroupsPush(jsText, def.groups[..i])
        invariant clauses == GroupClauses(jsText, def.groups[..i], 1)
      {
        var clause := CompileGroup(def.groups[i]);
        if clause.None? {
          return None;
        }
        ClausesGrow(jsText, def.groups, i);
        clauses := clauses + [clause.value];
        i := i + 1;
      }
      assert def.groups[..i] == def.groups;
      var combinator := def.combinator.GetOr(CombineAnd);
      var grouped := if combinator == CombineOr && |clauses| > 1 then [[LParen] + Join(OpOr, clauses) + [RParen]] else clauses;
      var base := [[ColumnT(WorkspaceIdOfContact), BinT(OpEq), ParamT(1)], [ColumnT(AnonymizedAt), IsNullT]];
      BasePrints();
      whereSql := Some(Join(OpAnd, base + grouped));
    }
  }

  // ---------- how the pieces print ----------

  function CutoffToks(placeholder: seq<Token>): seq<Token> {
    [NowT, BinT(OpMinus), LParen] + placeholder + [BinT(OpConcat), StringT(" days"), RParen, CastT(ToInterval)]
  }

  lemma CutoffPrints(k: nat)
    ensures Toks(CutoffTree(k)) == CutoffToks([ParamT(k)])
  {
    BinaryPrints(OTHER_LEVEL, Param(k), OpConcat, Str(" days"));
    BinaryPrints(ADDITIVE_LEVEL, Now, OpMinus, Cast(Paren(Binary(OTHER_LEVEL, Param(k), OpConcat, Str(" days"))), ToInterval));
  }

  lemma NotPrints(e: Expr)
    ensures Toks(Not(e)) == [NotT] + Toks(e)
  {
  }

  lemma NotParenPrints(e: Expr)
    ensures Toks(Not(Paren(e))) == [NotT, LParen] + Toks(e) + [RParen]
  {
  }

  lemma CastParenPrints(e: Expr, ty: CastType)
    ensures Toks(Cast(Paren(e), ty)) == [LParen] + Toks(e) + [RParen, CastT(ty)]
  {
  }

  lemma ElementPrints(k: nat)
    ensures Toks(Cast(ArrayOf(Param(k)), ToTextArray)) == [ArrayT, ParamT(k), RBracket, CastT(ToTextArray)]
  {
    assert Toks(ArrayOf(Param(k))) == [ArrayT, ParamT(k), RBracket];
  }

  lemma BasePrints()
    ensures Toks(WorkspaceTree) == [ColumnT(WorkspaceIdOfContact), BinT(OpEq), ParamT(1)]
    ensures Toks(NotAnonymizedTree) == [ColumnT(AnonymizedAt), IsNullT]
  {
    BinaryPrints(COMPARISON_LEVEL, Column(WorkspaceIdOfContact), OpEq, Param(1));
    assert Toks(NotAnonymizedTree) == Toks(Column(AnonymizedAt)) + [IsNullT];
  }

  lemma ChainOfThreePrints(level: nat, op: Op, a: Expr, b: Expr, c: Expr, t: Tail)
    ensures Toks(Chain(level, a, More(op, b, More(op, c, t)))) ==
              Toks(a) + [BinT(op)] + Toks(b) + [BinT(op)] + Toks(c) + TailToks(t)
  {
    assert TailToks(More(op, c, t)) == [BinT(op)] + Toks(c) + TailToks(t);
    assert TailToks(More(op, b, More(op, c, t))) == [BinT(op)] + Toks(b) + TailToks(More(op, c, t));
    assert Toks(Chain(level, a, More(op, b, More(op, c, t)))) == Toks(a) + TailToks(More(op, b, More(op, c, t)));
    hide Toks, TailToks;
    Reassociate(Toks(a), [BinT(op)], Toks(b), Toks(c), TailToks(t));
  }

  lemma Reassociate(a: seq<Token>, x: seq<Token>, b: seq<Token>, c: seq<Token>, t: seq<Token>)
    ensures a + (x + b + (x + c + t)) == a + x + b + x + c + t
  {
  }

  lemma EmptinessPrints(col: Expr, negated: bool)
    ensures Toks(OperatorTree(col, if negated then IsNotEmptyOp else IsEmptyOp, 0)) ==
              [LParen] + Toks(col) + [if negated then IsNotNullT else IsNullT, BinT(if negated then OpAnd else OpOr)]
              + Toks(col) + [BinT(if negated then OpNeq else OpEq), StringT("")] + [RParen]
  {
    var right := Binary(COMPARISON_LEVEL, col, if negated then OpNeq else OpEq, Str(""));
    var test := NullTest(col, negated);
    var join := if negated then OpAnd else OpOr;
    var level := if negated then AND_LEVEL else OR_LEVEL;
    assert Toks(test) == Toks(col) + [if negated then IsNotNullT else IsNullT];
    assert Toks(Str("")) == [StringT("")];
    assert Toks(Paren(Binary(level, test, join, right))) == [LParen] + Toks(Binary(level, test, join, right)) + [RParen];
    hide Toks;
    BinaryPrints(COMPARISON_LEVEL, col, if negated then OpNeq else OpEq, Str(""));
    BinaryPrints(level, test, join, right);
    Bracketed(Toks(col), if negated then IsNotNullT else IsNullT, BinT(join), BinT(if negated then OpNeq else OpEq), StringT(""));
  }

  lemma Bracketed(col: seq<Token>, test: Token, join: Token, comparison: Token, empty: Token)
    ensures [LParen] + ((col + [test]) + [join] + (col + [comparison] + [empty])) + [RParen]
         == [LParen] + col + [test, join] + col + [comparison, empty] + [RParen]
  {
  }

  lemma ColumnsPrint(a: ColumnName, b: ColumnName)
    ensures Toks(Binary(COMPARISON_LEVEL, Column(a), OpEq, Column(b))) == [ColumnT(a), BinT(OpEq), ColumnT(b)]
  {
    BinaryPrints(COMPARISON_LEVEL, Column(a), OpEq, Column(b));
  }

  lemma NamePrints(k: nat)
    ensures Toks(NameTree(k)) == [ColumnT(NameOfEvent), BinT(OpEq)] + [ParamT(k)]
  {
    BinaryPrints(COMPARISON_LEVEL, Column(NameOfEvent), OpEq, Param(k));
  }

  function FilterToks(cond: Condition, before: nat): seq<Token>
    requires cond.Behavioral?
  {
    [ColumnT(WorkspaceIdOfEvent), BinT(OpEq), ColumnT(WorkspaceIdOfContact)] + [BinT(OpAnd)]
    + [ColumnT(ContactIdOfEvent), BinT(OpEq), ColumnT(IdOfContact)] + [BinT(OpAnd)]
    + ([ColumnT(NameOfEvent), BinT(OpEq)] + [ParamT(before + 1)])
    + (if cond.timeframe.AllTime? then []
       else [BinT(OpAnd), ColumnT(OccurredAtOfEvent), BinT(OpGe)] + CutoffToks([ParamT(before + 2)]))
  }

  lemma FilterPrints(cond: Condition, before: nat)
    requires cond.Behavioral?
    ensures Toks(EventFilterTree(cond, before)) == FilterToks(cond, before)
  {
    hide Toks, TailToks, CutoffToks, RecentTail, NameTree;
    ColumnsPrint(WorkspaceIdOfEvent, WorkspaceIdOfContact);
    ColumnsPrint(ContactIdOfEvent, IdOfContact);
    NamePrints(before + 1);
    RecentPrints(cond, before);
    ChainOfThreePrints(AND_LEVEL, OpAnd, SameWorkspaceTree, SameContactTree, NameTree(before + 1), RecentTail(cond, before));
  }

  lemma RecentPrints(cond: Condition, before: nat)
    requires cond.Behavioral?
    ensures TailToks(RecentTail(cond, before)) ==
              if cond.timeframe.AllTime? then []
              else [BinT(OpAnd), ColumnT(OccurredAtOfEvent), BinT(OpGe)] + CutoffToks([ParamT(before + 2)])
  {
    if cond.timeframe.LastDays? {
      CutoffPrints(before + 2);
      BinaryPrints(COMPARISON_LEVEL, Column(OccurredAtOfEvent), OpGe, CutoffTree(before + 2));
      var operand := Binary(COMPARISON_LEVEL, Column(OccurredAtOfEvent), OpGe, CutoffTree(before + 2));
      assert TailToks(More(OpAnd, operand, End)) == [BinT(OpAnd)] + Toks(operand);
    }
  }

  function CountToks(cond: Condition, before: nat): seq<Token>
    requires cond.Behavioral?
  {
    if CountsGroups(cond)
    then [GroupByContactHavingT, CountT, BinT(OpGe)] + [ParamT(before + if cond.timeframe.LastDays? then 3 else 2)]
    else []
  }

  lemma HavingPrints(cond: Condition, before: nat)
    requires cond.Behavioral?
    ensures HavingToks(HavingTree(cond, before)) == CountToks(cond, before)
  {
    BinaryPrints(COMPARISON_LEVEL, CountStar, OpGe, Param(before + if cond.timeframe.LastDays? then 3 else 2));
  }

  lemma BehavioralPrints(cond: Condition, before: nat)
    requires cond.Behavioral?
    ensures var exists' := [ExistsT, LParen, SelectFromEventsWhereT] + FilterToks(cond, before) + CountToks(cond, before) + [RParen];
            Toks(BehavioralTree(cond, before)) == if cond.none then [NotT] + exists' else exists'
  {
    hide Toks, HavingToks, EventFilterTree, HavingTree, FilterToks, CountToks;
    FilterPrints(cond, before);
    HavingPrints(cond, before);
    ExistsPrints(EventFilterTree(cond, before), HavingTree(cond, before));
    NotPrints(Exists(EventFilterTree(cond, before), HavingTree(cond, before)));
  }
}
