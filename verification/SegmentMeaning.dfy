/**
 * The meaning of a segment definition, said without SQL, and the proof that the emitted clause, read
 * with PostgreSQL's precedences and evaluated in three-valued logic, has exactly that meaning.
 */
module SegmentMeaning {
  import opened Options
  import opened SqlGrammar
  import opened SqlEval
  import opened LikeEscape
  import opened SegmentCompiler

  // ---------- the meaning ----------

  /** The profile value a condition asks about: absent, text, a status label, or the tags. */
  function FieldValue(p: Contact, cond: Condition): Val
    requires cond.Attribute? && Known(cond)
  {
    if cond.custom then (if cond.field in p.properties then Text(p.properties[cond.field]) else Null)
    else if cond.field == "country" then TextOrNull(p.country)
    else if cond.field == "city" then TextOrNull(p.city)
    else if cond.field == "firstName" then TextOrNull(p.firstName)
    else if cond.field == "lastName" then TextOrNull(p.lastName)
    else if cond.field == "phone" then TextOrNull(p.phone)
    else if cond.field == "subscriptionStatus" then StatusLabel(p.subscriptionStatus)
    else TextArray(p.tags)
  }

  function EqualsInput(env: Env, v: Val, value: Input): Val {
    if v.Null? || IsNullInput(value) then Null
    else match v
      case Text(s) => Bool(s == Wire(env, value))
      case StatusLabel(s) => if Wire(env, value) in SUBSCRIPTION_LABELS then Bool(s == Wire(env, value)) else Error
      case TextArray(ts) =>
        var given := env.textArray(Wire(env, value));
        if given.Some? then Bool(ts == given.value) else Error
      case _ => Error
  }

  function ContainsInput(env: Env, v: Val, value: Input): Val {
    if v.Null? then Null
    else if v.Text? then Bool(Occurs(Fold(env.fold, env.jsText(value)), Fold(env.fold, v.s)))
    else Error
  }

  function IsEmptyValue(env: Env, v: Val): Val {
    if v.Null? then Bool(true) else EqualsInput(env, v, JsString(""))
  }

  function NumberTest(env: Env, v: Val, value: Input, test: (real, real) -> bool): Val {
    if v.Null? then Null
    else if !v.Text? || env.number(v.s).None? then Error
    else if IsNullInput(value) then Null
    else if env.number(Wire(env, value)).None? then Error
    else Bool(test(env.number(v.s).value, env.number(Wire(env, value)).value))
  }

  function BooleanTest(env: Env, v: Val, flag: bool): Val {
    if v.Null? then Null
    else if !v.Text? || env.boolean(v.s).None? then Error
    else Bool(env.boolean(v.s).value == flag)
  }

  function InstantTest(env: Env, v: Val, value: Input, test: (int, int) -> bool): Val {
    if v.Null? then Null
    else if !v.Text? || env.instant(v.s).None? then Error
    else if IsNullInput(value) then Null
    else if env.instant(Wire(env, value)).None? then Error
    else Bool(test(env.instant(v.s).value, env.instant(Wire(env, value)).value))
  }

  /** `now` less a number of days, as the database reads that number. */
  function Cutoff(env: Env, days: Input): Val {
    if IsNullInput(days) then Null
    else
      var ms := env.interval(Wire(env, days) + " days");
      if ms.Some? then Instant(env.now - ms.value) else Error
  }

  function RecentTest(env: Env, v: Val, days: Input): Val {
    var cutoff := Cutoff(env, days);
    if cutoff.Error? then Error
    else if v.Null? then Null
    else if !v.Text? || env.instant(v.s).None? then Error
    else if cutoff.Null? then Null
    else Bool(env.instant(v.s).value >= cutoff.t)
  }

  function HasTag(env: Env, v: Val, value: Input): Val {
    if v.TextArray? then Bool(!IsNullInput(value) && Wire(env, value) in v.tags) else Error
  }

  function OperatorValue(env: Env, v: Val, op: ConditionOperator, value: Input): Val {
    match op
    case EqOp => EqualsInput(env, v, value)
    case NeqOp => LogicNot(EqualsInput(env, v, value))
    case ContainsOp => ContainsInput(env, v, value)
    case NotContainsOp => LogicNot(ContainsInput(env, v, value))
    case IsEmptyOp => IsEmptyValue(env, v)
    case IsNotEmptyOp => LogicNot(IsEmptyValue(env, v))
    case GtOp => NumberTest(env, v, value, (a: real, b: real) => a > b)
    case GteOp => NumberTest(env, v, value, (a: real, b: real) => a >= b)
    case LtOp => NumberTest(env, v, value, (a: real, b: real) => a < b)
    case LteOp => NumberTest(env, v, value, (a: real, b: real) => a <= b)
    case IsTrueOp => BooleanTest(env, v, true)
    case IsFalseOp => BooleanTest(env, v, false)
    case BeforeOp => InstantTest(env, v, value, (a: int, b: int) => a < b)
    case AfterOp => InstantTest(env, v, value, (a: int, b: int) => a > b)
    case InLastDaysOp => RecentTest(env, v, value)
    case HasTagOp => HasTag(env, v, value)
    case NotHasTagOp => LogicNot(HasTag(env, v, value))
  }

  /** The events a behavioral condition counts. */
  predicate Counts(env: Env, p: Contact, cond: Condition, e: Event)
    requires cond.Behavioral?
  {
    && e.workspaceId == p.workspaceId && e.contactId == p.id && e.name == cond.eventName
    && (cond.timeframe.LastDays? ==>
          var cutoff := Cutoff(env, JsNumber(cond.timeframe.days)); cutoff.Instant? && e.occurredAt >= cutoff.t)
  }

  function EventCount(env: Env, p: Contact, cond: Condition, events: seq<Event>): nat
    requires cond.Behavioral?
  {
    if events == [] then 0
    else (if Counts(env, p, cond, events[0]) then 1 else 0) + EventCount(env, p, cond, events[1..])
  }

  /** How many events "at least N" asks for: N, or one where N is missing or zero. */
  function AtLeast(count: Option<nat>): nat {
    match count
    case Some(n) => if n >= 1 then n else 1
    case None => 1
  }

  function ConditionValue(env: Env, p: Contact, cond: Condition): Val
    requires Known(cond)
  {
    if cond.Attribute? then OperatorValue(env, FieldValue(p, cond), cond.op, cond.value)
    else
      var n := EventCount(env, p, cond, env.events);
      if cond.none then Bool(n == 0)
      else Bool(n >= AtLeast(cond.count))
  }

  predicate ConditionHolds(env: Env, p: Contact, cond: Condition)
    requires Known(cond)
  {
    ConditionValue(env, p, cond) == Bool(true)
  }

  predicate GroupHolds(env: Env, p: Contact, conds: seq<Condition>)
    requires AllKnown(conds)
  {
    exists i :: 0 <= i < |conds| && ConditionHolds(env, p, conds[i])
  }

  predicate GroupFails(env: Env, p: Contact, conds: seq<Condition>)
    requires AllKnown(conds)
  {
    exists i :: 0 <= i < |conds| && ConditionValue(env, p, conds[i]) == Error
  }

  /** A live contact of the workspace that satisfies the groups: one condition in each, or in any, of them. */
  predicate Member(env: Env, p: Contact, def: Definition, workspaceId: string)
    requires GroupsKnown(def.groups)
  {
    && p.workspaceId == workspaceId
    && p.anonymizedAt.None?
    && (def.groups == [] ||
        if def.combinator == Some(CombineOr)
        then exists i :: 0 <= i < |def.groups| && GroupHolds(env, p, def.groups[i])
        else forall i :: 0 <= i < |def.groups| ==> GroupHolds(env, p, def.groups[i]))
  }

  /** Some condition asks the database for something it refuses, such as a number where the text is none. */
  predicate Refused(env: Env, p: Contact, def: Definition)
    requires GroupsKnown(def.groups)
  {
    exists i :: 0 <= i < |def.groups| && GroupFails(env, p, def.groups[i])
  }

  /** What the driver and the database are taken to do with text. */
  ghost predicate Sane(env: Env) {
    && KeepsSpecials(env.fold)
    && (forall b: bool :: env.boolean(env.wireText(JsBool(b))) == Some(b))
    && (forall n: nat :: env.interval(env.wireText(JsNumber(n)) + " days").Some?)
  }

  // ---------- the tree of the whole clause ----------

  predicate NonEmptyGroups(groups: seq<Group>) {
    forall i :: 0 <= i < |groups| ==> groups[i] != []
  }

  function GroupTree(jsText: Input -> string, conds: seq<Condition>, before: nat): Expr
    requires AllKnown(conds) && conds != []
  {
    Paren(JoinTree(OR_LEVEL, OpOr, CondTrees(jsText, conds, before)))
  }

  function GroupTrees(jsText: Input -> string, groups: seq<Group>, before: nat): (r: seq<Expr>)
    requires GroupsKnown(groups) && NonEmptyGroups(groups)
    ensures |r| == |groups|
  {
    if groups == [] then []
    else
      var n := |groups| - 1;
      GroupTrees(jsText, groups[..n], before) + [GroupTree(jsText, groups[n], before + |GroupsPush(jsText, groups[..n])|)]
  }

  function WhereTree(jsText: Input -> string, def: Definition): Expr
    requires GroupsKnown(def.groups) && NonEmptyGroups(def.groups)
  {
    var trees := GroupTrees(jsText, def.groups, 1);
    var grouped := if OrsGroups(def) then [Paren(JoinTree(OR_LEVEL, OpOr, trees))] else trees;
    JoinTree(AND_LEVEL, OpAnd, [WorkspaceTree, NotAnonymizedTree] + grouped)
  }

  lemma GroupTreePrints(jsText: Input -> string, conds: seq<Condition>, before: nat)
    requires AllKnown(conds) && conds != []
    ensures Toks(GroupTree(jsText, conds, before)) == GroupToks(jsText, conds, before)
  {
    JoinPrints(OR_LEVEL, OpOr, CondTrees(jsText, conds, before));
  }

  lemma {:induction false} GroupTreesPrint(jsText: Input -> string, groups: seq<Group>, before: nat)
    requires GroupsKnown(groups) && NonEmptyGroups(groups)
    ensures AllToks(GroupTrees(jsText, groups, before)) == GroupClauses(jsText, groups, before)
  {
    hide GroupToks, GroupTree, GroupsPush, Toks;
    if groups != [] {
      var n := |groups| - 1;
      GroupTreesPrint(jsText, groups[..n], before);
      var e := GroupTree(jsText, groups[n], before + |GroupsPush(jsText, groups[..n])|);
      GroupTreePrints(jsText, groups[n], before + |GroupsPush(jsText, groups[..n])|);
      AllToksGrow(GroupTrees(jsText, groups[..n], before), e);
    }
  }

  lemma AllToksGrow(es: seq<Expr>, e: Expr)
    ensures AllToks(es + [e]) == AllToks(es) + [Toks(e)]
  {
    hide Toks;
  }

  lemma BaseJoinPrints(grouped: seq<Expr>)
    ensures Toks(JoinTree(AND_LEVEL, OpAnd, [WorkspaceTree, NotAnonymizedTree] + grouped)) ==
              Join(OpAnd, [Toks(WorkspaceTree), Toks(NotAnonymizedTree)] + AllToks(grouped))
  {
    hide Toks, Join;
    var es := [WorkspaceTree, NotAnonymizedTree] + grouped;
    JoinPrints(AND_LEVEL, OpAnd, es);
    assert AllToks(es) == [Toks(WorkspaceTree), Toks(NotAnonymizedTree)] + AllToks(grouped);
  }

  /** The emitted text is the printed form of that tree. */
  lemma WherePrints(jsText: Input -> string, def: Definition)
    requires GroupsKnown(def.groups) && NonEmptyGroups(def.groups)
    ensures Toks(WhereTree(jsText, def)) == WhereToks(jsText, def)
  {
    hide Toks, Join, JoinTree, GroupTrees, GroupClauses;
    var trees := GroupTrees(jsText, def.groups, 1);
    GroupTreesPrint(jsText, def.groups, 1);
    if OrsGroups(def) {
      var joined := JoinTree(OR_LEVEL, OpOr, trees);
      JoinPrints(OR_LEVEL, OpOr, trees);
      ParenPrints(joined);
      assert AllToks([Paren(joined)]) == [[LParen] + Join(OpOr, AllToks(trees)) + [RParen]];
      BaseJoinPrints([Paren(joined)]);
    } else {
      BaseJoinPrints(trees);
    }
  }

  lemma ParenPrints(e: Expr)
    ensures Toks(Paren(e)) == [LParen] + Toks(e) + [RParen]
  {
  }

  // ---------- the tree respects the precedences ----------

  lemma BinaryFits(level: nat, l: Expr, op: Op, r: Expr)
    requires ChainLevel(level) && OpLevel(op) == level && Fits(l, level + 1) && Fits(r, level + 1)
    ensures Fits(Binary(level, l, op, r), level)
  {
    assert TailFits(End, level);
  }

  lemma FitsLower(e: Expr, high: nat, low: nat)
    requires Fits(e, high) && low <= high
    ensures Fits(e, low)
  {
  }

  lemma {:induction false} AppendFits(t: Tail, op: Op, e: Expr, level: nat)
    requires TailFits(t, level) && OpLevel(op) == level && Fits(e, level + 1)
    ensures TailFits(AppendTail(t, op, e), level) && AppendTail(t, op, e).More?
  {
    match t
    case End => assert TailFits(End, level);
    case More(_, _, rest) => AppendFits(rest, op, e, level);
  }

  lemma CutoffFits(k: nat)
    ensures Fits(CutoffTree(k), ADDITIVE_LEVEL)
  {
    BinaryFits(OTHER_LEVEL, Param(k), OpConcat, Str(" days"));
    FitsLower(Binary(OTHER_LEVEL, Param(k), OpConcat, Str(" days")), OTHER_LEVEL, 0);
    BinaryFits(ADDITIVE_LEVEL, Now, OpMinus, Cast(Paren(Binary(OTHER_LEVEL, Param(k), OpConcat, Str(" days"))), ToInterval));
  }

  /** A column tree fits everywhere up to the arrow operator's level. */
  lemma OperatorFits(col: Expr, op: ConditionOperator, k: nat)
    requires Fits(col, OTHER_LEVEL)
    ensures Fits(OperatorTree(col, op, k), AND_LEVEL)
  {
    hide Fits;
    FitsLower(col, OTHER_LEVEL, LIKE_LEVEL);
    FitsLower(col, OTHER_LEVEL, COMPARISON_LEVEL);
    FitsLower(col, OTHER_LEVEL, 0);
    CutoffFits(k);
    var t := OperatorTree(col, op, k);
    match op {
      case EqOp => ComparisonFits(col, OpEq, Param(k));
      case NeqOp => ComparisonFits(col, OpNeq, Param(k));
      case ContainsOp => LikeFits(col, k);
      case NotContainsOp => LikeFits(col, k);
      case IsEmptyOp => EmptinessFits(col, false);
      case IsNotEmptyOp => EmptinessFits(col, true);
      case GtOp => CastComparisonFits(col, ToNumeric, OpGt, Param(k));
      case GteOp => CastComparisonFits(col, ToNumeric, OpGe, Param(k));
      case LtOp => CastComparisonFits(col, ToNumeric, OpLt, Param(k));
      case LteOp => CastComparisonFits(col, ToNumeric, OpLe, Param(k));
      case IsTrueOp => CastComparisonFits(col, ToBoolean, OpEq, Param(k));
      case IsFalseOp => CastComparisonFits(col, ToBoolean, OpEq, Param(k));
      case BeforeOp => CastComparisonFits(col, ToTimestamptz, OpLt, Param(k));
      case AfterOp => CastComparisonFits(col, ToTimestamptz, OpGt, Param(k));
      case InLastDaysOp =>
        FitsLower(CutoffTree(k), ADDITIVE_LEVEL, LIKE_LEVEL);
        CastComparisonFits(col, ToTimestamptz, OpGe, CutoffTree(k));
      case HasTagOp => HoldsFits(col, k);
      case NotHasTagOp => HoldsFits(col, k);
    }
  }

  lemma ComparisonFits(l: Expr, op: Op, r: Expr)
    requires OpLevel(op) == COMPARISON_LEVEL && Fits(l, LIKE_LEVEL) && (r.Param? || Fits(r, LIKE_LEVEL))
    ensures Fits(Binary(COMPARISON_LEVEL, l, op, r), AND_LEVEL) && Fits(Binary(COMPARISON_LEVEL, l, op, r), NOT_LEVEL)
  {
    BinaryFits(COMPARISON_LEVEL, l, op, r);
  }

  lemma CastComparisonFits(col: Expr, ty: CastType, op: Op, r: Expr)
    requires OpLevel(op) == COMPARISON_LEVEL && Fits(col, 0) && (r.Param? || Fits(r, LIKE_LEVEL))
    ensures Fits(Binary(COMPARISON_LEVEL, Cast(Paren(col), ty), op, r), AND_LEVEL)
  {
    assert Fits(Cast(Paren(col), ty), LIKE_LEVEL);
    ComparisonFits(Cast(Paren(col), ty), op, r);
  }

  lemma LikeFits(col: Expr, k: nat)
    requires Fits(col, OTHER_LEVEL)
    ensures Fits(Binary(LIKE_LEVEL, col, OpILike, Param(k)), AND_LEVEL)
    ensures Fits(Not(Paren(Binary(LIKE_LEVEL, col, OpILike, Param(k)))), AND_LEVEL)
  {
    BinaryFits(LIKE_LEVEL, col, OpILike, Param(k));
  }

  lemma EmptinessFits(col: Expr, negated: bool)
    requires Fits(col, COMPARISON_LEVEL) && Fits(col, LIKE_LEVEL)
    ensures Fits(OperatorTree(col, if negated then IsNotEmptyOp else IsEmptyOp, 0), AND_LEVEL)
  {
    var compared := Binary(COMPARISON_LEVEL, col, if negated then OpNeq else OpEq, Str(""));
    BinaryFits(COMPARISON_LEVEL, col, if negated then OpNeq else OpEq, Str(""));
    assert Fits(compared, NOT_LEVEL) && Fits(NullTest(col, negated), NOT_LEVEL);
    BinaryFits(if negated then AND_LEVEL else OR_LEVEL, NullTest(col, negated), if negated then OpAnd else OpOr, compared);
  }

  lemma HoldsFits(col: Expr, k: nat)
    requires Fits(col, OTHER_LEVEL)
    ensures var t := HoldsTree(col, Cast(ArrayOf(Param(k)), ToTextArray)); Fits(t, AND_LEVEL) && Fits(Not(Paren(t)), AND_LEVEL)
  {
    var e := Cast(ArrayOf(Param(k)), ToTextArray);
    assert Fits(ArrayOf(Param(k)), PRIMARY_LEVEL) && Fits(e, ADDITIVE_LEVEL);
    if col.Chain? && col.level == OTHER_LEVEL {
      AppendFits(col.tail, OpHolds, e, OTHER_LEVEL);
    } else {
      BinaryFits(OTHER_LEVEL, col, OpHolds, e);
    }
  }

  lemma BehavioralFits(cond: Condition, before: nat)
    requires cond.Behavioral?
    ensures Fits(BehavioralTree(cond, before), AND_LEVEL)
  {
    CutoffFits(before + 2);
    FitsLower(CutoffTree(before + 2), ADDITIVE_LEVEL, LIKE_LEVEL);
    ComparisonFits(Column(WorkspaceIdOfEvent), OpEq, Column(WorkspaceIdOfContact));
    ComparisonFits(Column(ContactIdOfEvent), OpEq, Column(IdOfContact));
    ComparisonFits(Column(NameOfEvent), OpEq, Param(before + 1));
    ComparisonFits(Column(OccurredAtOfEvent), OpGe, CutoffTree(before + 2));
    ComparisonFits(CountStar, OpGe, Param(before + if cond.timeframe.LastDays? then 3 else 2));
    FilterFits(cond, before);
    FitsLower(EventFilterTree(cond, before), AND_LEVEL, 0);
  }

  lemma FilterFits(cond: Condition, before: nat)
    requires cond.Behavioral?
    requires Fits(SameWorkspaceTree, NOT_LEVEL) && Fits(SameContactTree, NOT_LEVEL) && Fits(NameTree(before + 1), NOT_LEVEL)
    requires Fits(Binary(COMPARISON_LEVEL, Column(OccurredAtOfEvent), OpGe, CutoffTree(before + 2)), NOT_LEVEL)
    ensures Fits(EventFilterTree(cond, before), AND_LEVEL)
  {
    assert TailFits(End, AND_LEVEL);
    assert TailFits(RecentTail(cond, before), AND_LEVEL);
    var third := More(OpAnd, NameTree(before + 1), RecentTail(cond, before));
    assert TailFits(third, AND_LEVEL);
    assert TailFits(More(OpAnd, SameContactTree, third), AND_LEVEL);
  }

  lemma CondFits(cond: Condition, before: nat)
    requires Known(cond)
    ensures Fits(CondTree(cond, before), AND_LEVEL)
  {
    if cond.Attribute? {
      if cond.custom {
        BinaryFits(OTHER_LEVEL, Column(Properties), OpArrow, Param(before + 1));
      }
      OperatorFits(ColumnTree(cond, before), cond.op, before + if cond.custom then 2 else 1);
    } else {
      BehavioralFits(cond, before);
    }
  }

  predicate AllFit(es: seq<Expr>, level: nat) {
    forall i :: 0 <= i < |es| ==> Fits(es[i], level)
  }

  lemma {:induction false} TailOfFits(op: Op, es: seq<Expr>, level: nat)
    requires AllFit(es, level + 1) && OpLevel(op) == level
    ensures TailFits(TailOf(op, es), level)
  {
    hide Fits;
    if es != [] {
      TailOfFits(op, es[1..], level);
    }
  }

  lemma JoinFits(op: Op, es: seq<Expr>, level: nat)
    requires es != [] && AllFit(es, level + 1) && OpLevel(op) == level && ChainLevel(level)
    ensures Fits(JoinTree(level, op, es), level)
  {
    if |es| == 1 {
      FitsLower(es[0], level + 1, level);
    } else {
      TailOfFits(op, es[1..], level);
    }
  }

  lemma {:induction false} CondTreesFit(jsText: Input -> string, conds: seq<Condition>, before: nat)
    requires AllKnown(conds)
    ensures AllFit(CondTrees(jsText, conds, before), AND_LEVEL)
  {
    hide Fits, CondTree, CondPush;
    if conds != [] {
      var n := |conds| - 1;
      CondTreesFit(jsText, conds[..n], before);
      CondFits(conds[n], before + |GroupPush(jsText, conds[..n])|);
    }
  }

  lemma GroupTreeFits(jsText: Input -> string, conds: seq<Condition>, before: nat)
    requires AllKnown(conds) && conds != []
    ensures Fits(GroupTree(jsText, conds, before), PRIMARY_LEVEL)
  {
    CondTreesFit(jsText, conds, before);
    JoinFits(OpOr, CondTrees(jsText, conds, before), OR_LEVEL);
  }

  lemma {:induction false} GroupTreesFit(jsText: Input -> string, groups: seq<Group>, before: nat)
    requires GroupsKnown(groups) && NonEmptyGroups(groups)
    ensures AllFit(GroupTrees(jsText, groups, before), PRIMARY_LEVEL)
  {
    hide Fits, GroupTree, GroupPush;
    if groups != [] {
      var n := |groups| - 1;
      GroupTreesFit(jsText, groups[..n], before);
      GroupTreeFits(jsText, groups[n], before + |GroupsPush(jsText, groups[..n])|);
    }
  }

  lemma WhereFits(jsText: Input -> string, def: Definition)
    requires GroupsKnown(def.groups) && NonEmptyGroups(def.groups)
    ensures Fits(WhereTree(jsText, def), AND_LEVEL)
  {
    hide Fits, GroupTrees;
    var trees := GroupTrees(jsText, def.groups, 1);
    GroupTreesFit(jsText, def.groups, 1);
    forall i | 0 <= i < |trees| ensures Fits(trees[i], AND_LEVEL) && Fits(trees[i], NOT_LEVEL) {
      FitsLower(trees[i], PRIMARY_LEVEL, AND_LEVEL);
      FitsLower(trees[i], PRIMARY_LEVEL, NOT_LEVEL);
    }
    if OrsGroups(def) {
      JoinFits(OpOr, trees, OR_LEVEL);
      ParenFits(JoinTree(OR_LEVEL, OpOr, trees));
      BaseJoinFits([Paren(JoinTree(OR_LEVEL, OpOr, trees))]);
    } else {
      BaseJoinFits(trees);
    }
  }

  lemma BaseJoinFits(grouped: seq<Expr>)
    requires AllFit(grouped, NOT_LEVEL)
    ensures Fits(JoinTree(AND_LEVEL, OpAnd, [WorkspaceTree, NotAnonymizedTree] + grouped), AND_LEVEL)
  {
    ComparisonFits(Column(WorkspaceIdOfContact), OpEq, Param(1));
    assert Fits(NotAnonymizedTree, NOT_LEVEL);
    hide Fits;
    JoinFits(OpAnd, [WorkspaceTree, NotAnonymizedTree] + grouped, AND_LEVEL);
  }

  lemma ParenFits(e: Expr)
    requires Fits(e, 0)
    ensures Fits(Paren(e), NOT_LEVEL)
  {
  }

  /** The emitted clause reads as the intended tree, and as no other. */
  lemma WhereReadsAsIntended(jsText: Input -> string, def: Definition)
    requires GroupsKnown(def.groups) && NonEmptyGroups(def.groups)
    ensures Parse(WhereToks(jsText, def)) == Ok(WhereTree(jsText, def), [])
  {
    WherePrints(jsText, def);
    WhereFits(jsText, def);
    FitsLower(WhereTree(jsText, def), AND_LEVEL, 0);
    TextReadsBack(WhereTree(jsText, def));
  }

  // ---------- evaluating the tree ----------

  lemma EvalBinary(level: nat, l: Expr, op: Op, r: Expr, c: Ctx)
    ensures Eval(Binary(level, l, op, r), c) == ApplyOp(c.env, op, Eval(l, c), Eval(r, c))
  {
    hide ApplyOp;
    assert EvalTail(Eval(l, c), More(op, r, End), c) == ApplyOp(c.env, op, Eval(l, c), Eval(r, c));
  }

  lemma {:induction false} EvalAppend(acc: Val, t: Tail, op: Op, e: Expr, c: Ctx)
    ensures EvalTail(acc, AppendTail(t, op, e), c) == ApplyOp(c.env, op, EvalTail(acc, t, c), Eval(e, c))
    decreases t
  {
    hide ApplyOp;
    match t
    case End =>
      assert EvalTail(acc, More(op, e, End), c) == EvalTail(ApplyOp(c.env, op, acc, Eval(e, c)), End, c);
    case More(o, x, rest) => EvalAppend(ApplyOp(c.env, o, acc, Eval(x, c)), rest, op, e, c);
  }

  lemma EvalHolds(col: Expr, e: Expr, c: Ctx)
    ensures Eval(HoldsTree(col, e), c) == ApplyOp(c.env, OpHolds, Eval(col, c), Eval(e, c))
  {
    hide ApplyOp;
    if col.Chain? && col.level == OTHER_LEVEL {
      EvalAppend(Eval(col.head, c), col.tail, OpHolds, e, c);
    } else {
      EvalBinary(OTHER_LEVEL, col, OpHolds, e, c);
    }
  }

  /** The k-th placeholder is bound to this value. */
  predicate Bound(c: Ctx, k: nat, value: Input) {
    1 <= k <= |c.params| && c.params[k - 1] == value
  }

  lemma ColumnMeaning(cond: Condition, before: nat, c: Ctx)
    requires cond.Attribute? && Known(cond) && (cond.custom ==> Bound(c, before + 1, JsString(cond.field)))
    ensures Eval(ColumnTree(cond, before), c) == FieldValue(c.contact, cond)
  {
    hide Eval;
    ColumnsRead(c);
    if cond.custom {
      ParamValue(c, before + 1, JsString(cond.field));
      EvalBinary(OTHER_LEVEL, Column(Properties), OpArrow, Param(before + 1), c);
    }
  }

  predicate IsField(v: Val) {
    v.Null? || v.Text? || v.StatusLabel? || v.TextArray?
  }

  lemma EqualityMeaning(col: Expr, r: Expr, value: Input, c: Ctx)
    requires IsField(Eval(col, c)) && Eval(r, c) == Raw(value)
    ensures Eval(Binary(COMPARISON_LEVEL, col, OpEq, r), c) == EqualsInput(c.env, Eval(col, c), value)
    ensures Eval(Binary(COMPARISON_LEVEL, col, OpNeq, r), c) == LogicNot(EqualsInput(c.env, Eval(col, c), value))
  {
    EvalBinary(COMPARISON_LEVEL, col, OpEq, r, c);
    EvalBinary(COMPARISON_LEVEL, col, OpNeq, r, c);
    EqualityOfValues(c.env, Eval(col, c), value);
  }

  lemma EqualityOfValues(env: Env, v: Val, value: Input)
    requires IsField(v)
    ensures Compare(env, OpEq, v, Raw(value)) == EqualsInput(env, v, value)
    ensures Compare(env, OpNeq, v, Raw(value)) == LogicNot(EqualsInput(env, v, value))
  {
  }

  lemma ContainsMeaning(col: Expr, k: nat, value: Input, c: Ctx)
    requires IsField(Eval(col, c)) && KeepsSpecials(c.env.fold)
    requires Bound(c, k, JsString("%" + EscapeLikeWildcards(c.env.jsText(value)) + "%"))
    ensures Eval(Binary(LIKE_LEVEL, col, OpILike, Param(k)), c) == ContainsInput(c.env, Eval(col, c), value)
  {
    hide EscapeLikeWildcards, Occurs, ILike;
    EvalBinary(LIKE_LEVEL, col, OpILike, Param(k), c);
    if Eval(col, c).Text? {
      ILikeIsFoldedSubstring(c.env.fold, Eval(col, c).s, c.env.jsText(value));
    }
  }

  lemma EmptinessMeaning(col: Expr, c: Ctx)
    requires IsField(Eval(col, c))
    ensures Eval(OperatorTree(col, IsEmptyOp, 0), c) == IsEmptyValue(c.env, Eval(col, c))
    ensures Eval(OperatorTree(col, IsNotEmptyOp, 0), c) == LogicNot(IsEmptyValue(c.env, Eval(col, c)))
  {
    hide EqualsInput, Compare;
    var v := Eval(col, c);
    EqualityMeaning(col, Str(""), JsString(""), c);
    EqualsInputIsLogical(c.env, v, JsString(""));
    var eq := Binary(COMPARISON_LEVEL, col, OpEq, Str(""));
    var neq := Binary(COMPARISON_LEVEL, col, OpNeq, Str(""));
    EvalBinary(OR_LEVEL, NullTest(col, false), OpOr, eq, c);
    EvalBinary(AND_LEVEL, NullTest(col, true), OpAnd, neq, c);
  }

  lemma EqualsInputIsLogical(env: Env, v: Val, value: Input)
    requires IsField(v)
    ensures Logical(EqualsInput(env, v, value)) || EqualsInput(env, v, value) == Error
    ensures v.Null? ==> EqualsInput(env, v, value) == Null
    ensures !v.Null? && value.JsString? ==> EqualsInput(env, v, value) != Null
  {
  }

  lemma CastMeaning(col: Expr, ty: CastType, op: Op, r: Expr, c: Ctx)
    requires OpLevel(op) == COMPARISON_LEVEL
    ensures Eval(Binary(COMPARISON_LEVEL, Cast(Paren(col), ty), op, r), c) ==
              Compare(c.env, op, ApplyCast(c.env, ty, Eval(col, c)), Eval(r, c))
  {
    hide Compare, ApplyCast;
    EvalBinary(COMPARISON_LEVEL, Cast(Paren(col), ty), op, r, c);
  }

  lemma NumberMeaning(col: Expr, op: Op, k: nat, value: Input, c: Ctx, test: (real, real) -> bool)
    requires IsField(Eval(col, c)) && Bound(c, k, value) && (op == OpGt || op == OpGe || op == OpLt || op == OpLe)
    requires forall a, b :: test(a, b) == if op == OpGt then a > b else if op == OpGe then a >= b else if op == OpLt then a < b else a <= b
    ensures Eval(Binary(COMPARISON_LEVEL, Cast(Paren(col), ToNumeric), op, Param(k)), c) ==
              NumberTest(c.env, Eval(col, c), value, test)
  {
    hide Eval;
    ParamValue(c, k, value);
    CastMeaning(col, ToNumeric, op, Param(k), c);
  }

  lemma BooleanMeaning(col: Expr, k: nat, flag: bool, c: Ctx)
    requires IsField(Eval(col, c)) && Bound(c, k, JsBool(flag)) && Sane(c.env)
    ensures Eval(Binary(COMPARISON_LEVEL, Cast(Paren(col), ToBoolean), OpEq, Param(k)), c) ==
              BooleanTest(c.env, Eval(col, c), flag)
  {
    hide Eval;
    ParamValue(c, k, JsBool(flag));
    CastMeaning(col, ToBoolean, OpEq, Param(k), c);
  }

  lemma InstantMeaning(col: Expr, op: Op, k: nat, value: Input, c: Ctx, test: (int, int) -> bool)
    requires IsField(Eval(col, c)) && Bound(c, k, value) && (op == OpGt || op == OpLt)
    requires forall a, b :: test(a, b) == if op == OpGt then a > b else a < b
    ensures Eval(Binary(COMPARISON_LEVEL, Cast(Paren(col), ToTimestamptz), op, Param(k)), c) ==
              InstantTest(c.env, Eval(col, c), value, test)
  {
    hide Eval;
    ParamValue(c, k, value);
    CastMeaning(col, ToTimestamptz, op, Param(k), c);
  }

  lemma CutoffMeaning(k: nat, days: Input, c: Ctx)
    requires Bound(c, k, days)
    ensures Eval(CutoffTree(k), c) == Cutoff(c.env, days)
  {
    var text := Binary(OTHER_LEVEL, Param(k), OpConcat, Str(" days"));
    EvalBinary(OTHER_LEVEL, Param(k), OpConcat, Str(" days"), c);
    EvalBinary(ADDITIVE_LEVEL, Now, OpMinus, Cast(Paren(text), ToInterval), c);
  }

  lemma RecentMeaning(col: Expr, k: nat, value: Input, c: Ctx)
    requires IsField(Eval(col, c)) && Bound(c, k, value)
    ensures Eval(Binary(COMPARISON_LEVEL, Cast(Paren(col), ToTimestamptz), OpGe, CutoffTree(k)), c) ==
              RecentTest(c.env, Eval(col, c), value)
  {
    hide Eval, Cutoff;
    CastMeaning(col, ToTimestamptz, OpGe, CutoffTree(k), c);
    CutoffMeaning(k, value, c);
    CutoffIsInstant(c.env, value);
  }

  lemma CutoffIsInstant(env: Env, days: Input)
    ensures var cutoff := Cutoff(env, days); cutoff.Instant? || cutoff == Null || cutoff == Error
  {
  }

  lemma TagMeaning(col: Expr, k: nat, value: Input, c: Ctx)
    requires IsField(Eval(col, c)) && Bound(c, k, value)
    ensures Eval(HoldsTree(col, Cast(ArrayOf(Param(k)), ToTextArray)), c) == HasTag(c.env, Eval(col, c), value)
  {
    var e := Cast(ArrayOf(Param(k)), ToTextArray);
    EvalHolds(col, e, c);
    assert Eval(ArrayOf(Param(k)), c).OneElement?;
  }

  lemma NotMeaning(e: Expr, c: Ctx)
    ensures Eval(Not(Paren(e)), c) == LogicNot(Eval(e, c))
  {
    assert Eval(Paren(e), c) == Eval(e, c);
  }

  /** Each operator's text evaluates to what the operator means of the field's value. */
  lemma OperatorMeaning(col: Expr, op: ConditionOperator, k: nat, value: Input, c: Ctx)
    requires Sane(c.env) && IsField(Eval(col, c))
    requires forall i :: 0 <= i < |OperatorPush(c.env.jsText, op, value)| ==>
               Bound(c, k + i, OperatorPush(c.env.jsText, op, value)[i])
    ensures Eval(OperatorTree(col, op, k), c) == OperatorValue(c.env, Eval(col, c), op, value)
  {
    hide Eval, ApplyOp, Bound, Compare;
    hide EqualsInput, ContainsInput, NumberTest, InstantTest, BooleanTest, RecentTest, HasTag;
    var push := OperatorPush(c.env.jsText, op, value);
    if push != [] {
      assert Bound(c, k + 0, push[0]);
    }
    match op {
      case EqOp => ParamValue(c, k, value); EqualityMeaning(col, Param(k), value, c);
      case NeqOp => ParamValue(c, k, value); EqualityMeaning(col, Param(k), value, c);
      case ContainsOp => ContainsMeaning(col, k, value, c);
      case NotContainsOp =>
        ContainsMeaning(col, k, value, c);
        NotMeaning(Binary(LIKE_LEVEL, col, OpILike, Param(k)), c);
      case IsEmptyOp => EmptinessMeaning(col, c);
      case IsNotEmptyOp => EmptinessMeaning(col, c);
      case GtOp => NumberMeaning(col, OpGt, k, value, c, (a: real, b: real) => a > b);
      case GteOp => NumberMeaning(col, OpGe, k, value, c, (a: real, b: real) => a >= b);
      case LtOp => NumberMeaning(col, OpLt, k, value, c, (a: real, b: real) => a < b);
      case LteOp => NumberMeaning(col, OpLe, k, value, c, (a: real, b: real) => a <= b);
      case IsTrueOp => BooleanMeaning(col, k, true, c);
      case IsFalseOp => BooleanMeaning(col, k, false, c);
      case BeforeOp => InstantMeaning(col, OpLt, k, value, c, (a: int, b: int) => a < b);
      case AfterOp => InstantMeaning(col, OpGt, k, value, c, (a: int, b: int) => a > b);
      case InLastDaysOp => RecentMeaning(col, k, value, c);
      case HasTagOp => TagMeaning(col, k, value, c);
      case NotHasTagOp =>
        TagMeaning(col, k, value, c);
        NotMeaning(HoldsTree(col, Cast(ArrayOf(Param(k)), ToTextArray)), c);
    }
  }

  lemma ParamValue(c: Ctx, k: nat, value: Input)
    requires Bound(c, k, value)
    ensures Eval(Param(k), c) == Raw(value)
  {
  }

  // ---------- behavioral conditions ----------

  predicate BehavioralBound(c: Ctx, cond: Condition, before: nat)
    requires cond.Behavioral?
  {
    && Bound(c, before + 1, JsString(cond.eventName))
    && (cond.timeframe.LastDays? ==> Bound(c, before + 2, JsNumber(cond.timeframe.days)))
    && (CountsGroups(cond) ==> Bound(c, before + (if cond.timeframe.LastDays? then 3 else 2), JsNumber(RequiredCount(cond))))
  }

  lemma TextEquality(a: Expr, b: Expr, c: Ctx)
    requires Eval(a, c).Text? && (Eval(b, c).Text? || (Eval(b, c).Raw? && Eval(b, c).v.JsString?))
    ensures Eval(Binary(COMPARISON_LEVEL, a, OpEq, b), c) ==
              Bool(Eval(a, c).s == if Eval(b, c).Text? then Eval(b, c).s else Eval(b, c).v.text)
  {
    EvalBinary(COMPARISON_LEVEL, a, OpEq, b, c);
  }

  lemma RecentEvent(cond: Condition, before: nat, c: Ctx, e: Event)
    requires cond.Behavioral? && cond.timeframe.LastDays? && Sane(c.env) && c.event == Some(e)
    requires Bound(c, before + 2, JsNumber(cond.timeframe.days))
    ensures Cutoff(c.env, JsNumber(cond.timeframe.days)).Instant?
    ensures Eval(Binary(COMPARISON_LEVEL, Column(OccurredAtOfEvent), OpGe, CutoffTree(before + 2)), c) ==
              Bool(e.occurredAt >= Cutoff(c.env, JsNumber(cond.timeframe.days)).t)
  {
    CutoffOfDays(c.env, cond.timeframe.days);
    hide Eval, Cutoff, CutoffTree, Bound;
    CutoffMeaning(before + 2, JsNumber(cond.timeframe.days), c);
    ColumnsRead(c);
    EvalBinary(COMPARISON_LEVEL, Column(OccurredAtOfEvent), OpGe, CutoffTree(before + 2), c);
  }

  lemma CutoffOfDays(env: Env, days: nat)
    requires Sane(env)
    ensures Cutoff(env, JsNumber(days)).Instant?
  {
  }

  lemma FilterUnfolds(cond: Condition, before: nat, c: Ctx)
    requires cond.Behavioral?
    ensures Eval(EventFilterTree(cond, before), c) ==
              EvalTail(LogicAnd(LogicAnd(Eval(SameWorkspaceTree, c), Eval(SameContactTree, c)), Eval(NameTree(before + 1), c)),
                       RecentTail(cond, before), c)
  {
    var third := More(OpAnd, NameTree(before + 1), RecentTail(cond, before));
    var first := Eval(SameWorkspaceTree, c);
    assert EvalTail(first, More(OpAnd, SameContactTree, third), c)
        == EvalTail(ApplyOp(c.env, OpAnd, first, Eval(SameContactTree, c)), third, c);
  }

  lemma IdentityMeaning(cond: Condition, before: nat, c: Ctx, e: Event)
    requires cond.Behavioral? && c.event == Some(e) && Bound(c, before + 1, JsString(cond.eventName))
    ensures Eval(SameWorkspaceTree, c) == Bool(e.workspaceId == c.contact.workspaceId)
    ensures Eval(SameContactTree, c) == Bool(e.contactId == c.contact.id)
    ensures Eval(NameTree(before + 1), c) == Bool(e.name == cond.eventName)
  {
    hide Eval;
    ParamValue(c, before + 1, JsString(cond.eventName));
    ColumnsRead(c);
    TextEquality(Column(WorkspaceIdOfEvent), Column(WorkspaceIdOfContact), c);
    TextEquality(Column(ContactIdOfEvent), Column(IdOfContact), c);
    TextEquality(Column(NameOfEvent), Param(before + 1), c);
  }

  lemma ColumnsRead(c: Ctx)
    ensures forall name :: Eval(Column(name), c) == ColumnValue(c, name)
  {
  }

  lemma OneMoreAnd(acc: Val, e: Expr, c: Ctx)
    ensures EvalTail(acc, More(OpAnd, e, End), c) == LogicAnd(acc, Eval(e, c))
  {
    assert EvalTail(ApplyOp(c.env, OpAnd, acc, Eval(e, c)), End, c) == LogicAnd(acc, Eval(e, c));
  }

  /** The subquery's WHERE keeps exactly the events the condition counts. */
  lemma FilterMeaning(cond: Condition, before: nat, c: Ctx, e: Event)
    requires cond.Behavioral? && Sane(c.env) && c.event == Some(e) && BehavioralBound(c, cond, before)
    ensures Eval(EventFilterTree(cond, before), c) == Bool(Counts(c.env, c.contact, cond, e))
  {
    hide Eval, Bound, EventFilterTree, NameTree, Cutoff;
    IdentityMeaning(cond, before, c, e);
    FilterUnfolds(cond, before, c);
    var acc := Bool(e.workspaceId == c.contact.workspaceId && e.contactId == c.contact.id && e.name == cond.eventName);
    assert Eval(EventFilterTree(cond, before), c) == EvalTail(acc, RecentTail(cond, before), c);
    if cond.timeframe.LastDays? {
      RecentEvent(cond, before, c, e);
      OneMoreAnd(acc, Binary(COMPARISON_LEVEL, Column(OccurredAtOfEvent), OpGe, CutoffTree(before + 2)), c);
    }
  }

  predicate OfContact(events: seq<Event>, contactId: string) {
    forall i :: 0 <= i < |events| ==> events[i].contactId == contactId
  }

  lemma {:induction false} KeptAreCounted(cond: Condition, before: nat, c: Ctx, events: seq<Event>)
    requires cond.Behavioral? && Sane(c.env) && BehavioralBound(c, cond, before)
    ensures |Kept(EventFilterTree(cond, before), c, events)| == EventCount(c.env, c.contact, cond, events)
    ensures OfContact(Kept(EventFilterTree(cond, before), c, events), c.contact.id)
  {
    hide Eval, EventFilterTree;
    if events != [] {
      KeptAreCounted(cond, before, c, events[1..]);
      FilterMeaning(cond, before, c.(event := Some(events[0])), events[0]);
    }
  }

  lemma {:induction false} OneGroup(contactId: string, events: seq<Event>)
    requires OfContact(events, contactId)
    ensures CountFor(contactId, events) == |events|
  {
    if events != [] {
      OneGroup(contactId, events[1..]);
    }
  }

  lemma {:induction false} GroupsPass(cond: Condition, before: nat, c: Ctx, kept: seq<Event>, groups: seq<Event>)
    requires cond.Behavioral? && CountsGroups(cond) && BehavioralBound(c, cond, before)
    requires OfContact(kept, c.contact.id) && OfContact(groups, c.contact.id)
    ensures SomeGroup(HavingTree(cond, before).test, c, kept, groups) == Bool(groups != [] && |kept| >= RequiredCount(cond))
  {
    hide Eval, HavingTree, BehavioralBound;
    if groups != [] {
      GroupsPass(cond, before, c, kept, groups[1..]);
      OneGroup(c.contact.id, kept);
      HavingMeaning(cond, before, c, |kept|);
    }
  }

  lemma HavingMeaning(cond: Condition, before: nat, c: Ctx, n: nat)
    requires cond.Behavioral? && CountsGroups(cond) && BehavioralBound(c, cond, before)
    ensures Eval(HavingTree(cond, before).test, c.(event := None, groupCount := Some(n))) == Bool(n >= RequiredCount(cond))
  {
    var inner := c.(event := None, groupCount := Some(n));
    var k := before + if cond.timeframe.LastDays? then 3 else 2;
    assert Eval(CountStar, inner) == CountOf(n);
    ParamValue(inner, k, JsNumber(RequiredCount(cond)));
    hide Eval;
    EvalBinary(COMPARISON_LEVEL, CountStar, OpGe, Param(k), inner);
  }

  lemma BehavioralMeaning(cond: Condition, before: nat, c: Ctx)
    requires cond.Behavioral? && Sane(c.env) && BehavioralBound(c, cond, before)
    ensures Eval(BehavioralTree(cond, before), c) == ConditionValue(c.env, c.contact, cond)
  {
    var where := EventFilterTree(cond, before);
    var having := HavingTree(cond, before);
    var kept := Kept(where, c, c.env.events);
    KeptAreCounted(cond, before, c, c.env.events);
    forall i | 0 <= i < |c.env.events| ensures Logical(Eval(where, c.(event := Some(c.env.events[i])))) {
      FilterMeaning(cond, before, c.(event := Some(c.env.events[i])), c.env.events[i]);
    }
    if CountsGroups(cond) {
      GroupsPass(cond, before, c, kept, kept);
    }
    hide Kept, EventFilterTree, EventCount, SomeGroup, Counts;
    assert Eval(Exists(where, having), c) ==
      (if having.NoHaving? then Bool(kept != []) else SomeGroup(having.test, c, kept, kept));
  }

  // ---------- conditions, groups, the clause ----------

  /** `push` stands on the parameter list from position `before` on. */
  predicate BoundFrom(c: Ctx, before: nat, push: seq<Input>) {
    before + |push| <= |c.params| && c.params[before..before + |push|] == push
  }

  lemma BoundAt(c: Ctx, before: nat, push: seq<Input>, i: nat)
    requires BoundFrom(c, before, push) && i < |push|
    ensures Bound(c, before + i + 1, push[i])
  {
    assert c.params[before..before + |push|][i] == c.params[before + i];
  }

  lemma BoundSplits(c: Ctx, before: nat, a: seq<Input>, b: seq<Input>)
    requires BoundFrom(c, before, a + b)
    ensures BoundFrom(c, before, a) && BoundFrom(c, before + |a|, b)
  {
    var whole := c.params[before..before + |a + b|];
    assert whole[..|a|] == a && whole[|a|..] == b;
  }

  lemma BehavioralBinds(cond: Condition, before: nat, c: Ctx)
    requires cond.Behavioral? && BoundFrom(c, before, BehavioralPush(cond))
    ensures BehavioralBound(c, cond, before)
  {
    var push := BehavioralPush(cond);
    BoundAt(c, before, push, 0);
    if cond.timeframe.LastDays? {
      BoundAt(c, before, push, 1);
    }
    if CountsGroups(cond) {
      BoundAt(c, before, push, |push| - 1);
    }
  }

  lemma CondMeaning(cond: Condition, before: nat, c: Ctx)
    requires Known(cond) && Sane(c.env) && BoundFrom(c, before, CondPush(c.env.jsText, cond))
    ensures Eval(CondTree(cond, before), c) == ConditionValue(c.env, c.contact, cond)
  {
    if cond.Attribute? {
      AttributeMeaning(cond, before, c);
    } else {
      hide Eval, BoundFrom, BehavioralTree, Sane, BehavioralPush;
      BehavioralBinds(cond, before, c);
      BehavioralMeaning(cond, before, c);
    }
  }

  /**
   * What the count of a condition comes to in the database: with a count of at least one, that many events; with
   * none given, or zero, one event; and "none" no event, whatever the count.
   */
  lemma AtLeastMeansThatMany(cond: Condition, before: nat, c: Ctx)
    requires cond.Behavioral? && Sane(c.env) && BoundFrom(c, before, CondPush(c.env.jsText, cond))
    ensures var n, answer := EventCount(c.env, c.contact, cond, c.env.events), Eval(CondTree(cond, before), c);
            && (!cond.none && cond.count.Some? && cond.count.value >= 1 ==> answer == Bool(n >= cond.count.value))
            && (!cond.none && (cond.count == None || cond.count == Some(0)) ==> answer == Bool(n >= 1))
            && (cond.none ==> answer == Bool(n == 0))
  {
    hide Eval, CondTree, CondPush, EventCount, BoundFrom, Sane;
    CondMeaning(cond, before, c);
  }

  lemma AttributeBinds(cond: Condition, before: nat, c: Ctx)
    requires cond.Attribute? && BoundFrom(c, before, CondPush(c.env.jsText, cond))
    ensures cond.custom ==> Bound(c, before + 1, JsString(cond.field))
    ensures var own := OperatorPush(c.env.jsText, cond.op, cond.value);
            forall i :: 0 <= i < |own| ==> Bound(c, before + (if cond.custom then 2 else 1) + i, own[i])
  {
    hide OperatorPush, Bound, BoundFrom;
    var push := CondPush(c.env.jsText, cond);
    var own := OperatorPush(c.env.jsText, cond.op, cond.value);
    var skip := if cond.custom then 1 else 0;
    if cond.custom {
      BoundAt(c, before, push, 0);
    }
    forall i | 0 <= i < |own| ensures Bound(c, before + (if cond.custom then 2 else 1) + i, own[i]) {
      assert own[i] == push[i + skip];
      BoundAt(c, before, push, i + skip);
    }
  }

  lemma AttributeMeaning(cond: Condition, before: nat, c: Ctx)
    requires cond.Attribute? && Known(cond) && Sane(c.env) && BoundFrom(c, before, CondPush(c.env.jsText, cond))
    ensures Eval(CondTree(cond, before), c) == ConditionValue(c.env, c.contact, cond)
  {
    hide *;
    AttributeBinds(cond, before, c);
    ColumnMeaning(cond, before, c);
    AttributeUnfolds(cond, before, c);
    OperatorMeaning(ColumnTree(cond, before), cond.op, before + (if cond.custom then 2 else 1), cond.value, c);
  }

  lemma AttributeUnfolds(cond: Condition, before: nat, c: Ctx)
    requires cond.Attribute? && Known(cond)
    ensures CondTree(cond, before) == OperatorTree(ColumnTree(cond, before), cond.op, before + (if cond.custom then 2 else 1))
    ensures ConditionValue(c.env, c.contact, cond) == OperatorValue(c.env, FieldValue(c.contact, cond), cond.op, cond.value)
    ensures IsField(FieldValue(c.contact, cond))
  {
    hide OperatorTree, ColumnTree, OperatorValue;
  }

  lemma ConditionIsLogical(env: Env, p: Contact, cond: Condition)
    requires Known(cond)
    ensures var v := ConditionValue(env, p, cond); Logical(v) || v == Error
  {
  }

  predicate Answers(vals: seq<Val>) {
    forall i :: 0 <= i < |vals| ==> Logical(vals[i]) || vals[i] == Error
  }

  function Values(es: seq<Expr>, c: Ctx): (vals: seq<Val>)
    ensures |vals| == |es|
  {
    seq(|es|, i requires 0 <= i < |es| => Eval(es[i], c))
  }

  lemma ValuesShift(es: seq<Expr>, c: Ctx)
    requires es != []
    ensures Values(es, c) == [Eval(es[0], c)] + Values(es[1..], c)
  {
    hide Eval;
  }

  /** What a run of ORs or ANDs over the accumulated value comes to. */
  predicate Disjoined(acc: Val, vals: seq<Val>, r: Val) {
    && (Logical(r) || r == Error)
    && (r == Error <==> acc == Error || Error in vals)
    && (r != Error ==> (r == Bool(true) <==> acc == Bool(true) || Bool(true) in vals))
  }

  predicate Conjoined(acc: Val, vals: seq<Val>, r: Val) {
    && (Logical(r) || r == Error)
    && (r == Error <==> acc == Error || Error in vals)
    && (r != Error ==> (r == Bool(true) <==> acc == Bool(true) && AllTrue(vals)))
  }

  predicate AllTrue(vals: seq<Val>) {
    forall v :: v in vals ==> v == Bool(true)
  }

  lemma AllTrueUnfolds(v: Val, rest: seq<Val>)
    ensures AllTrue([v] + rest) <==> v == Bool(true) && AllTrue(rest)
    ensures forall x :: x in [v] + rest <==> x == v || x in rest
  {
    assert ([v] + rest)[0] == v && v in [v] + rest;
    if AllTrue([v] + rest) {
      forall x | x in rest ensures x == Bool(true) {
        assert x in [v] + rest;
      }
    }
  }

  lemma FoldSteps(acc: Val, v: Val, rest: seq<Val>, r: Val)
    requires (Logical(acc) || acc == Error) && (Logical(v) || v == Error)
    ensures Disjoined(LogicOr(acc, v), rest, r) ==> Disjoined(acc, [v] + rest, r)
    ensures Conjoined(LogicAnd(acc, v), rest, r) ==> Conjoined(acc, [v] + rest, r)
  {
    hide AllTrue;
    AllTrueUnfolds(v, rest);
  }

  lemma {:induction false} EvalDisjunction(acc: Val, es: seq<Expr>, c: Ctx)
    requires (Logical(acc) || acc == Error) && Answers(Values(es, c))
    ensures Disjoined(acc, Values(es, c), EvalTail(acc, TailOf(OpOr, es), c))
    decreases |es|
  {
    hide Eval, Values;
    if es != [] {
      ValuesShift(es, c);
      var v := Eval(es[0], c);
      var vals := Values(es, c);
      assert vals[0] == v && vals[1..] == Values(es[1..], c);
      EvalDisjunction(LogicOr(acc, v), es[1..], c);
      assert EvalTail(acc, TailOf(OpOr, es), c) == EvalTail(LogicOr(acc, v), TailOf(OpOr, es[1..]), c);
      FoldSteps(acc, v, Values(es[1..], c), EvalTail(acc, TailOf(OpOr, es), c));
    } else {
      assert Values(es, c) == [];
    }
  }

  lemma {:induction false} EvalConjunction(acc: Val, es: seq<Expr>, c: Ctx)
    requires (Logical(acc) || acc == Error) && Answers(Values(es, c))
    ensures Conjoined(acc, Values(es, c), EvalTail(acc, TailOf(OpAnd, es), c))
    decreases |es|
  {
    hide Eval, Values;
    if es != [] {
      ValuesShift(es, c);
      var v := Eval(es[0], c);
      var vals := Values(es, c);
      assert vals[0] == v && vals[1..] == Values(es[1..], c);
      EvalConjunction(LogicAnd(acc, v), es[1..], c);
      assert EvalTail(acc, TailOf(OpAnd, es), c) == EvalTail(LogicAnd(acc, v), TailOf(OpAnd, es[1..]), c);
      FoldSteps(acc, v, Values(es[1..], c), EvalTail(acc, TailOf(OpAnd, es), c));
    } else {
      assert Values(es, c) == [];
    }
  }

  lemma EvalJoin(level: nat, op: Op, es: seq<Expr>, c: Ctx)
    requires es != [] && Answers(Values(es, c)) && (op == OpOr || op == OpAnd)
    ensures var r := Eval(JoinTree(level, op, es), c); var vals := Values(es, c);
            if op == OpOr then Disjoined(Bool(false), vals, r) else Conjoined(Bool(true), vals, r)
  {
    hide Eval, Values;
    ValuesShift(es, c);
    var acc := Eval(es[0], c);
    var rest := Values(es[1..], c);
    var r := EvalTail(acc, TailOf(op, es[1..]), c);
    assert Values(es, c)[0] == acc && Values(es, c)[1..] == rest;
    EvalDisjunction(acc, es[1..], c);
    EvalConjunction(acc, es[1..], c);
    UnitSteps(acc, rest, r);
    if |es| > 1 {
      ChainEval(level, es[0], TailOf(op, es[1..]), c);
    }
  }

  lemma UnitSteps(v: Val, rest: seq<Val>, r: Val)
    requires Logical(v) || v == Error
    ensures Disjoined(v, rest, r) ==> Disjoined(Bool(false), [v] + rest, r)
    ensures Conjoined(v, rest, r) ==> Conjoined(Bool(true), [v] + rest, r)
  {
    hide AllTrue;
    AllTrueUnfolds(v, rest);
  }

  lemma ChainEval(level: nat, head: Expr, tail: Tail, c: Ctx)
    ensures Eval(Chain(level, head, tail), c) == EvalTail(Eval(head, c), tail, c)
  {
  }

  lemma {:induction false} CondTreesMean(conds: seq<Condition>, before: nat, c: Ctx)
    requires AllKnown(conds) && Sane(c.env) && BoundFrom(c, before, GroupPush(c.env.jsText, conds))
    ensures forall i :: 0 <= i < |conds| ==>
              Values(CondTrees(c.env.jsText, conds, before), c)[i] == ConditionValue(c.env, c.contact, conds[i])
  {
    hide Eval, CondTree, CondPush, ConditionValue, BoundFrom, Sane, Known;
    if conds != [] {
      var n := |conds| - 1;
      var pushed := GroupPush(c.env.jsText, conds[..n]);
      BoundSplits(c, before, pushed, CondPush(c.env.jsText, conds[n]));
      CondTreesMean(conds[..n], before, c);
      CondMeaning(conds[n], before + |pushed|, c);
      var initial := CondTrees(c.env.jsText, conds[..n], before);
      var trees := CondTrees(c.env.jsText, conds, before);
      forall i | 0 <= i < |conds| ensures Values(trees, c)[i] == ConditionValue(c.env, c.contact, conds[i]) {
        if i < n {
          assert Values(initial, c)[i] == Eval(initial[i], c) == Eval(trees[i], c);
        }
      }
    }
  }

  /** A group answers true iff one of its conditions holds, and is refused iff one of them is. */
  lemma GroupMeaning(conds: seq<Condition>, before: nat, c: Ctx)
    requires AllKnown(conds) && conds != [] && Sane(c.env) && BoundFrom(c, before, GroupPush(c.env.jsText, conds))
    ensures var r := Eval(GroupTree(c.env.jsText, conds, before), c);
            && (Logical(r) || r == Error)
            && (r == Error <==> GroupFails(c.env, c.contact, conds))
            && (r != Error ==> (r == Bool(true) <==> GroupHolds(c.env, c.contact, conds)))
  {
    hide ConditionValue, BoundFrom, Sane, CondTree, CondTrees, Values;
    var trees := CondTrees(c.env.jsText, conds, before);
    var vals := Values(trees, c);
    CondTreesMean(conds, before, c);
    forall i | 0 <= i < |vals| ensures Logical(vals[i]) || vals[i] == Error {
      ConditionIsLogical(c.env, c.contact, conds[i]);
    }
    EvalJoin(OR_LEVEL, OpOr, trees, c);
    assert Eval(GroupTree(c.env.jsText, conds, before), c) == Eval(JoinTree(OR_LEVEL, OpOr, trees), c);
    if i :| 0 <= i < |conds| && ConditionValue(c.env, c.contact, conds[i]) == Error {
      assert vals[i] == Error;
    }
    if i :| 0 <= i < |conds| && ConditionHolds(c.env, c.contact, conds[i]) {
      assert vals[i] == Bool(true);
    }
  }

  lemma {:induction false} GroupTreesMean(groups: seq<Group>, before: nat, c: Ctx)
    requires GroupsKnown(groups) && NonEmptyGroups(groups) && Sane(c.env)
    requires BoundFrom(c, before, GroupsPush(c.env.jsText, groups))
    ensures forall i :: 0 <= i < |groups| ==>
              var r := Values(GroupTrees(c.env.jsText, groups, before), c)[i];
              && (Logical(r) || r == Error)
              && (r == Error <==> GroupFails(c.env, c.contact, groups[i]))
              && (r != Error ==> (r == Bool(true) <==> GroupHolds(c.env, c.contact, groups[i])))
  {
    hide Eval, GroupTree, GroupPush, GroupFails, GroupHolds, BoundFrom, Sane, AllKnown;
    if groups != [] {
      var n := |groups| - 1;
      var pushed := GroupsPush(c.env.jsText, groups[..n]);
      BoundSplits(c, before, pushed, GroupPush(c.env.jsText, groups[n]));
      GroupTreesMean(groups[..n], before, c);
      GroupMeaning(groups[n], before + |pushed|, c);
      var initial := GroupTrees(c.env.jsText, groups[..n], before);
      var trees := GroupTrees(c.env.jsText, groups, before);
      forall i | 0 <= i < n ensures Values(trees, c)[i] == Values(initial, c)[i] {
        assert trees[i] == initial[i];
      }
    }
  }

  lemma BaseMeaning(c: Ctx, workspaceId: string)
    requires Bound(c, 1, JsString(workspaceId))
    ensures Eval(WorkspaceTree, c) == Bool(c.contact.workspaceId == workspaceId)
    ensures Eval(NotAnonymizedTree, c) == Bool(c.contact.anonymizedAt.None?)
  {
    TextEquality(Column(WorkspaceIdOfContact), Param(1), c);
    assert Eval(Column(AnonymizedAt), c) == ColumnValue(c, AnonymizedAt);
  }

  /** What the groups come to once they are joined onto the base predicates. */
  predicate GroupsAnswer(env: Env, p: Contact, def: Definition, vals: seq<Val>)
    requires GroupsKnown(def.groups)
  {
    && Answers(vals)
    && (Error in vals <==> Refused(env, p, def))
    && (Error !in vals ==>
          (AllTrue(vals) <==>
           (def.groups == [] ||
            if def.combinator == Some(CombineOr)
            then exists i :: 0 <= i < |def.groups| && GroupHolds(env, p, def.groups[i])
            else forall i :: 0 <= i < |def.groups| ==> GroupHolds(env, p, def.groups[i]))))
  }

  function Grouped(jsText: Input -> string, def: Definition): seq<Expr>
    requires GroupsKnown(def.groups) && NonEmptyGroups(def.groups)
  {
    var trees := GroupTrees(jsText, def.groups, 1);
    if OrsGroups(def) then [Paren(JoinTree(OR_LEVEL, OpOr, trees))] else trees
  }

  /** What `GroupTreesMean` says of the groups' values. */
  predicate GroupValues(env: Env, p: Contact, groups: seq<Group>, vals: seq<Val>)
    requires GroupsKnown(groups)
  {
    && |vals| == |groups|
    && forall i :: 0 <= i < |groups| ==>
         && (Logical(vals[i]) || vals[i] == Error)
         && (vals[i] == Error <==> GroupFails(env, p, groups[i]))
         && (vals[i] != Error ==> (vals[i] == Bool(true) <==> GroupHolds(env, p, groups[i])))
  }

  lemma RefusalShows(env: Env, p: Contact, def: Definition, vals: seq<Val>)
    requires GroupsKnown(def.groups) && GroupValues(env, p, def.groups, vals)
    ensures Answers(vals) && (Error in vals <==> Refused(env, p, def))
  {
    hide GroupFails, GroupHolds;
    if i :| 0 <= i < |def.groups| && GroupFails(env, p, def.groups[i]) {
      assert vals[i] == Error;
    }
  }

  lemma AnyHolds(env: Env, p: Contact, groups: seq<Group>, vals: seq<Val>)
    requires GroupsKnown(groups) && GroupValues(env, p, groups, vals) && Error !in vals
    ensures Bool(true) in vals <==> exists i :: 0 <= i < |groups| && GroupHolds(env, p, groups[i])
    ensures AllTrue(vals) <==> forall i :: 0 <= i < |groups| ==> GroupHolds(env, p, groups[i])
  {
    hide GroupFails, GroupHolds;
    assert forall i :: 0 <= i < |vals| ==> vals[i] in vals;
    if i :| 0 <= i < |groups| && GroupHolds(env, p, groups[i]) {
      assert vals[i] == Bool(true);
    }
  }

  lemma GroupedMeaning(def: Definition, c: Ctx)
    requires GroupsKnown(def.groups) && NonEmptyGroups(def.groups) && Sane(c.env)
    requires BoundFrom(c, 1, GroupsPush(c.env.jsText, def.groups))
    ensures GroupsAnswer(c.env, c.contact, def, Values(Grouped(c.env.jsText, def), c))
  {
    hide Eval, GroupTrees, GroupHolds, GroupFails, BoundFrom, Sane, Values, AllTrue, Refused;
    var trees := GroupTrees(c.env.jsText, def.groups, 1);
    var vals := Values(trees, c);
    GroupTreesMean(def.groups, 1, c);
    assert GroupValues(c.env, c.contact, def.groups, vals);
    RefusalShows(c.env, c.contact, def, vals);
    if OrsGroups(def) {
      OrMeaning(c, trees);
    }
    JoinedAnswer(c.env, c.contact, def, vals, Values(Grouped(c.env.jsText, def), c));
  }

  /** From the groups' values to what they come to once they are joined. */
  lemma JoinedAnswer(env: Env, p: Contact, def: Definition, vals: seq<Val>, joined: seq<Val>)
    requires GroupsKnown(def.groups) && GroupValues(env, p, def.groups, vals) && Answers(vals)
    requires Error in vals <==> Refused(env, p, def)
    requires if OrsGroups(def)
             then Answers(joined) && (Error in joined <==> Error in vals) && (Error !in vals ==> (AllTrue(joined) <==> Bool(true) in vals))
             else joined == vals
    ensures GroupsAnswer(env, p, def, joined)
  {
    hide GroupHolds, GroupFails, AllTrue, Refused, Answers;
    if Error !in vals {
      AnyHolds(env, p, def.groups, vals);
      if |def.groups| == 1 {
        assert (exists i :: 0 <= i < 1 && GroupHolds(env, p, def.groups[i])) <==> GroupHolds(env, p, def.groups[0]);
      }
    }
  }

  lemma OrMeaning(c: Ctx, trees: seq<Expr>)
    requires trees != [] && Answers(Values(trees, c))
    ensures var vals, joined := Values(trees, c), Values([Paren(JoinTree(OR_LEVEL, OpOr, trees))], c);
            && Answers(joined)
            && (Error in joined <==> Error in vals)
            && (Error !in vals ==> (AllTrue(joined) <==> Bool(true) in vals))
  {
    hide Eval, Values, AllTrue, JoinTree;
    EvalJoin(OR_LEVEL, OpOr, trees, c);
    ParenEval(JoinTree(OR_LEVEL, OpOr, trees), c);
    var es := [Paren(JoinTree(OR_LEVEL, OpOr, trees))];
    var r := Eval(es[0], c);
    ValuesShift(es, c);
    assert Values(es, c) == [r] + [];
    AllTrueUnfolds(r, []);
    AllTrueOfNone();
  }

  lemma AllTrueOfNone()
    ensures AllTrue([])
  {
  }

  lemma ParenEval(e: Expr, c: Ctx)
    ensures Eval(Paren(e), c) == Eval(e, c)
  {
  }

  lemma BaseBound(def: Definition, c: Ctx, workspaceId: string)
    requires c.params == WherePush(c.env.jsText, def, workspaceId)
    ensures Bound(c, 1, JsString(workspaceId)) && BoundFrom(c, 1, GroupsPush(c.env.jsText, def.groups))
  {
    hide GroupsPush;
    assert c.params[1..] == GroupsPush(c.env.jsText, def.groups);
  }

  /** The intended tree, evaluated, decides membership. */
  lemma WhereTreeMeaning(def: Definition, c: Ctx, workspaceId: string)
    requires GroupsKnown(def.groups) && NonEmptyGroups(def.groups) && Sane(c.env)
    requires c.params == WherePush(c.env.jsText, def, workspaceId)
    ensures var r := Eval(WhereTree(c.env.jsText, def), c);
            && (r == Error <==> Refused(c.env, c.contact, def))
            && (r != Error ==> (r == Bool(true) <==> Member(c.env, c.contact, def, workspaceId)))
  {
    hide Eval, GroupTrees, GroupHolds, GroupFails, BoundFrom, Bound, Sane, Values, Refused, GroupsPush;
    BaseBound(def, c, workspaceId);
    BaseMeaning(c, workspaceId);
    GroupedMeaning(def, c);
    var grouped := Grouped(c.env.jsText, def);
    var es := [WorkspaceTree, NotAnonymizedTree] + grouped;
    ValuesOfBase(grouped, c);
    assert es[1..] == [NotAnonymizedTree] + grouped && es[1..][1..] == grouped;
    var a, b := Eval(WorkspaceTree, c), Eval(NotAnonymizedTree, c);
    AllTrueUnfolds(a, [b] + Values(grouped, c));
    AllTrueUnfolds(b, Values(grouped, c));
    EvalJoin(AND_LEVEL, OpAnd, es, c);
    assert WhereTree(c.env.jsText, def) == JoinTree(AND_LEVEL, OpAnd, es);
  }

  lemma ValuesOfBase(grouped: seq<Expr>, c: Ctx)
    ensures Values([WorkspaceTree, NotAnonymizedTree] + grouped, c) ==
              [Eval(WorkspaceTree, c)] + ([Eval(NotAnonymizedTree, c)] + Values(grouped, c))
  {
    hide Eval, Values;
    var es := [WorkspaceTree, NotAnonymizedTree] + grouped;
    ValuesShift(es, c);
    assert es[1..] == [NotAnonymizedTree] + grouped && es[1..][1..] == grouped;
    ValuesShift(es[1..], c);
  }

  /**
   * The compiler preserves meaning: the emitted tokens, read with AND tighter than OR and evaluated under
   * the pushed parameters, are true exactly for the members, and are refused exactly when a condition is.
   */
  lemma SegmentMeansMembership(env: Env, p: Contact, def: Definition, workspaceId: string)
    requires GroupsKnown(def.groups) && NonEmptyGroups(def.groups) && Sane(env)
    ensures var read := Parse(WhereToks(env.jsText, def));
            && read.Ok?
            && var answer := Eval(read.value, Ctx(env, p, None, None, WherePush(env.jsText, def, workspaceId)));
            && (answer == Error <==> Refused(env, p, def))
            && (answer != Error ==> (answer == Bool(true) <==> Member(env, p, def, workspaceId)))
  {
    hide *;
    WhereReadsAsIntended(env.jsText, def);
    WhereTreeMeaning(def, Ctx(env, p, None, None, WherePush(env.jsText, def, workspaceId)), workspaceId);
  }
}
