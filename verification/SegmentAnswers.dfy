/**
 * A database need not evaluate every operand: an OR with a true side and an AND with a false side may be
 * answered without the other. Whatever it leaves out, its answer is about membership, or an error it met.
 */
module SegmentAnswers {
  import opened Options
  import opened SqlGrammar
  import opened SqlEval
  import opened SegmentCompiler
  import opened SegmentMeaning

  /** What an operator may yield: its value, or what one operand decides alone. */
  predicate MayApply(env: Env, op: Op, l: Val, r: Val, out: Val) {
    || out == ApplyOp(env, op, l, r)
    || (op == OpOr && (l == Bool(true) || r == Bool(true)) && out == Bool(true))
    || (op == OpAnd && (l == Bool(false) || r == Bool(false)) && out == Bool(false))
  }

  /**
   * The answers a database may give for an expression. Inside the event subquery nothing is refused, so
   * there leaving out operands makes no difference, and `Eval` is its one answer.
   */
  ghost predicate MayAnswer(e: Expr, c: Ctx, answer: Val)
    decreases e
  {
    match e
    case Paren(a) => MayAnswer(a, c, answer)
    case Not(a) => exists v :: MayAnswer(a, c, v) && answer == LogicNot(v)
    case Chain(level, head, tail) =>
      if level == OR_LEVEL || level == AND_LEVEL then exists acc :: MayAnswer(head, c, acc) && MayRun(acc, tail, c, answer)
      else answer == Eval(e, c)
    case _ => answer == Eval(e, c)
  }

  ghost predicate MayRun(acc: Val, t: Tail, c: Ctx, answer: Val)
    decreases t
  {
    match t
    case End => answer == acc
    case More(op, operand, rest) =>
      exists v, out :: MayAnswer(operand, c, v) && MayApply(c.env, op, acc, v, out) && MayRun(out, rest, c, answer)
  }

  // ---------- what is not refused has one answer ----------

  lemma ErrorStays(env: Env, op: Op, v: Val)
    ensures ApplyOp(env, op, Error, v) == Error && ApplyOp(env, op, v, Error) == Error
  {
  }

  lemma {:induction false} ErrorRuns(t: Tail, c: Ctx)
    ensures EvalTail(Error, t, c) == Error
    decreases t
  {
    hide ApplyOp;
    match t
    case End =>
    case More(op, operand, rest) =>
      ErrorStays(c.env, op, Eval(operand, c));
      ErrorRuns(rest, c);
  }

  lemma OneOutcome(env: Env, op: Op, l: Val, r: Val, out: Val)
    requires MayApply(env, op, l, r, out) && ApplyOp(env, op, l, r) != Error
    ensures out == ApplyOp(env, op, l, r)
  {
  }

  /** Where full evaluation succeeds, every database gives its value. */
  lemma {:induction false} UnrefusedHasOneAnswer(e: Expr, c: Ctx, answer: Val)
    requires Eval(e, c) != Error && MayAnswer(e, c, answer)
    ensures answer == Eval(e, c)
    decreases e
  {
    match e
    case Paren(a) => UnrefusedHasOneAnswer(a, c, answer);
    case Not(a) =>
      var v :| MayAnswer(a, c, v) && answer == LogicNot(v);
      UnrefusedHasOneAnswer(a, c, v);
    case Chain(level, head, tail) =>
      if level == OR_LEVEL || level == AND_LEVEL {
        var acc :| MayAnswer(head, c, acc) && MayRun(acc, tail, c, answer);
        ErrorRuns(tail, c);
        UnrefusedHasOneAnswer(head, c, acc);
        UnrefusedRun(acc, tail, c, answer);
      }
    case _ =>
  }

  lemma {:induction false} UnrefusedRun(acc: Val, t: Tail, c: Ctx, answer: Val)
    requires EvalTail(acc, t, c) != Error && MayRun(acc, t, c, answer)
    ensures answer == EvalTail(acc, t, c)
    decreases t
  {
    hide ApplyOp, MayApply;
    match t
    case End =>
    case More(op, operand, rest) =>
      var v, out :| MayAnswer(operand, c, v) && MayApply(c.env, op, acc, v, out) && MayRun(out, rest, c, answer);
      ErrorStays(c.env, op, acc);
      ErrorRuns(rest, c);
      UnrefusedHasOneAnswer(operand, c, v);
      OneOutcome(c.env, op, acc, v, out);
      UnrefusedRun(out, rest, c, answer);
  }

  /** Full evaluation is one of the possible answers. */
  lemma {:induction false} FullEvaluationMayBe(e: Expr, c: Ctx)
    ensures MayAnswer(e, c, Eval(e, c))
    decreases e
  {
    hide ApplyOp;
    match e
    case Paren(a) => FullEvaluationMayBe(a, c);
    case Not(a) => FullEvaluationMayBe(a, c);
    case Chain(level, head, tail) =>
      FullEvaluationMayBe(head, c);
      FullRunMayBe(Eval(head, c), tail, c);
    case _ =>
  }

  lemma {:induction false} FullRunMayBe(acc: Val, t: Tail, c: Ctx)
    ensures MayRun(acc, t, c, EvalTail(acc, t, c))
    decreases t
  {
    hide ApplyOp;
    match t
    case End =>
    case More(op, operand, rest) =>
      var v := Eval(operand, c);
      var out := ApplyOp(c.env, op, acc, v);
      FullEvaluationMayBe(operand, c);
      FullRunMayBe(out, rest, c);
      assert MayApply(c.env, op, acc, v, out);
  }

  // ---------- conditions are evaluated whole ----------

  ghost predicate OneAnswer(e: Expr, c: Ctx) {
    forall v :: MayAnswer(e, c, v) ==> v == Eval(e, c)
  }

  lemma ParenAnswers(e: Expr, c: Ctx)
    requires OneAnswer(e, c)
    ensures OneAnswer(Paren(e), c)
  {
    ParenEval(e, c);
    forall v | MayAnswer(Paren(e), c, v) ensures MayAnswer(e, c, v) {
    }
  }

  lemma NotAnswers(e: Expr, c: Ctx)
    requires OneAnswer(e, c)
    ensures OneAnswer(Not(Paren(e)), c) && OneAnswer(Not(e), c)
  {
    ParenAnswers(e, c);
  }

  lemma ChainAnswers(level: nat, head: Expr, tail: Tail, c: Ctx, answer: Val) returns (acc: Val)
    requires level == OR_LEVEL || level == AND_LEVEL
    requires MayAnswer(Chain(level, head, tail), c, answer)
    ensures MayAnswer(head, c, acc) && MayRun(acc, tail, c, answer)
  {
    acc :| MayAnswer(head, c, acc) && MayRun(acc, tail, c, answer);
  }

  lemma RunAnswers(acc: Val, op: Op, operand: Expr, rest: Tail, c: Ctx, answer: Val) returns (v: Val, out: Val)
    requires MayRun(acc, More(op, operand, rest), c, answer)
    ensures MayAnswer(operand, c, v) && MayApply(c.env, op, acc, v, out) && MayRun(out, rest, c, answer)
  {
    v, out :| MayAnswer(operand, c, v) && MayApply(c.env, op, acc, v, out) && MayRun(out, rest, c, answer);
  }

  lemma ComparisonAnswers(level: nat, l: Expr, op: Op, r: Expr, c: Ctx)
    requires level >= NOT_LEVEL
    ensures OneAnswer(Binary(level, l, op, r), c) && OneAnswer(Not(Paren(Binary(level, l, op, r))), c)
  {
    hide Eval;
    NotAnswers(Binary(level, l, op, r), c);
  }

  lemma HoldsAnswers(col: Expr, e: Expr, c: Ctx)
    ensures OneAnswer(HoldsTree(col, e), c) && OneAnswer(Not(Paren(HoldsTree(col, e))), c)
  {
    hide Eval;
    NotAnswers(HoldsTree(col, e), c);
  }

  /** The two operands of an emptiness test: the second is refused only where the first leaves the matter open. */
  lemma EmptinessAnswers(col: Expr, c: Ctx)
    requires IsField(Eval(col, c))
    ensures OneAnswer(OperatorTree(col, IsEmptyOp, 0), c) && OneAnswer(OperatorTree(col, IsNotEmptyOp, 0), c)
  {
    var eq, neq := Binary(COMPARISON_LEVEL, col, OpEq, Str("")), Binary(COMPARISON_LEVEL, col, OpNeq, Str(""));
    EqualityMeaning(col, Str(""), JsString(""), c);
    EqualsInputIsLogical(c.env, Eval(col, c), JsString(""));
    EitherAnswers(OR_LEVEL, NullTest(col, false), OpOr, eq, c);
    EitherAnswers(AND_LEVEL, NullTest(col, true), OpAnd, neq, c);
  }

  lemma EitherAnswers(level: nat, l: Expr, op: Op, r: Expr, c: Ctx)
    requires (level == OR_LEVEL && op == OpOr) || (level == AND_LEVEL && op == OpAnd)
    requires OneAnswer(l, c) && OneAnswer(r, c) && Logical(Eval(l, c)) && (Logical(Eval(r, c)) || Eval(r, c) == Error)
    requires Eval(r, c) == Error ==> Eval(l, c) == Bool(op == OpAnd)
    ensures OneAnswer(Paren(Binary(level, l, op, r)), c)
  {
    EvalBinary(level, l, op, r, c);
    var a, b := Eval(l, c), Eval(r, c);
    assert forall out :: MayApply(c.env, op, a, b, out) ==> out == ApplyOp(c.env, op, a, b);
    hide Eval, ApplyOp, MayApply;
    forall v | MayAnswer(Binary(level, l, op, r), c, v) ensures v == Eval(Binary(level, l, op, r), c) {
      var acc := ChainAnswers(level, l, More(op, r, End), c, v);
      var x, out := RunAnswers(acc, op, r, End, c, v);
      assert v == out;
    }
    ParenAnswers(Binary(level, l, op, r), c);
  }

  lemma CondHasOneAnswer(cond: Condition, before: nat, c: Ctx)
    requires Known(cond) && BoundFrom(c, before, CondPush(c.env.jsText, cond))
    ensures OneAnswer(CondTree(cond, before), c)
  {
    hide Eval, BoundFrom, CondPush, ColumnTree, EventFilterTree, HavingTree, CutoffTree, HoldsTree;
    if cond.Attribute? {
      AttributeBinds(cond, before, c);
      ColumnMeaning(cond, before, c);
      OperatorAnswers(ColumnTree(cond, before), cond.op, before + (if cond.custom then 2 else 1), c);
    } else {
      NotAnswers(Exists(EventFilterTree(cond, before), HavingTree(cond, before)), c);
    }
  }

  lemma OperatorAnswers(col: Expr, op: ConditionOperator, k: nat, c: Ctx)
    requires IsField(Eval(col, c))
    ensures OneAnswer(OperatorTree(col, op, k), c)
  {
    hide Eval, OneAnswer, HoldsTree, CutoffTree;
    match op
    case NotContainsOp => ComparisonAnswers(LIKE_LEVEL, col, OpILike, Param(k), c);
    case IsEmptyOp => EmptinessAnswers(col, c);
    case IsNotEmptyOp => EmptinessAnswers(col, c);
    case HasTagOp => HoldsAnswers(col, Cast(ArrayOf(Param(k)), ToTextArray), c);
    case NotHasTagOp => HoldsAnswers(col, Cast(ArrayOf(Param(k)), ToTextArray), c);
    case EqOp => ComparisonAnswers(COMPARISON_LEVEL, col, OpEq, Param(k), c);
    case NeqOp => ComparisonAnswers(COMPARISON_LEVEL, col, OpNeq, Param(k), c);
    case ContainsOp => ComparisonAnswers(LIKE_LEVEL, col, OpILike, Param(k), c);
    case GtOp => ComparisonAnswers(COMPARISON_LEVEL, Cast(Paren(col), ToNumeric), OpGt, Param(k), c);
    case GteOp => ComparisonAnswers(COMPARISON_LEVEL, Cast(Paren(col), ToNumeric), OpGe, Param(k), c);
    case LtOp => ComparisonAnswers(COMPARISON_LEVEL, Cast(Paren(col), ToNumeric), OpLt, Param(k), c);
    case LteOp => ComparisonAnswers(COMPARISON_LEVEL, Cast(Paren(col), ToNumeric), OpLe, Param(k), c);
    case IsTrueOp => ComparisonAnswers(COMPARISON_LEVEL, Cast(Paren(col), ToBoolean), OpEq, Param(k), c);
    case IsFalseOp => ComparisonAnswers(COMPARISON_LEVEL, Cast(Paren(col), ToBoolean), OpEq, Param(k), c);
    case BeforeOp => ComparisonAnswers(COMPARISON_LEVEL, Cast(Paren(col), ToTimestamptz), OpLt, Param(k), c);
    case AfterOp => ComparisonAnswers(COMPARISON_LEVEL, Cast(Paren(col), ToTimestamptz), OpGt, Param(k), c);
    case InLastDaysOp => ComparisonAnswers(COMPARISON_LEVEL, Cast(Paren(col), ToTimestamptz), OpGe, CutoffTree(k), c);
  }

  // ---------- every answer tells the truth or is an error ----------

  /** An answer other than an error is true exactly if `truth`. */
  predicate Tells(v: Val, truth: bool) {
    v == Error || (Logical(v) && (v == Bool(true) <==> truth))
  }

  ghost predicate Decides(e: Expr, c: Ctx, truth: bool) {
    forall v :: MayAnswer(e, c, v) ==> Tells(v, truth)
  }

  ghost predicate AllDecide(es: seq<Expr>, c: Ctx, truths: seq<bool>) {
    |es| == |truths| && forall i :: 0 <= i < |es| ==> Decides(es[i], c, truths[i])
  }

  lemma OneMoreTells(env: Env, op: Op, acc: Val, was: bool, v: Val, truth: bool, out: Val)
    requires (op == OpOr || op == OpAnd) && Tells(acc, was) && Tells(v, truth) && MayApply(env, op, acc, v, out)
    ensures Tells(out, if op == OpOr then was || truth else was && truth)
  {
  }

  lemma {:induction false} RunDecides(acc: Val, was: bool, op: Op, es: seq<Expr>, c: Ctx, truths: seq<bool>, answer: Val)
    requires op == OpOr || op == OpAnd
    requires Tells(acc, was) && AllDecide(es, c, truths) && MayRun(acc, TailOf(op, es), c, answer)
    ensures Tells(answer, if op == OpOr then was || true in truths else was && false !in truths)
    decreases |es|
  {
    hide MayAnswer, MayApply, Tells;
    if es != [] {
      var v, out := RunAnswers(acc, op, es[0], TailOf(op, es[1..]), c, answer);
      assert Decides(es[0], c, truths[0]);
      OneMoreTells(c.env, op, acc, was, v, truths[0], out);
      RunDecides(out, if op == OpOr then was || truths[0] else was && truths[0], op, es[1..], c, truths[1..], answer);
      assert truths == [truths[0]] + truths[1..];
    }
  }

  lemma JoinDecides(level: nat, op: Op, es: seq<Expr>, c: Ctx, truths: seq<bool>)
    requires (level == OR_LEVEL && op == OpOr) || (level == AND_LEVEL && op == OpAnd)
    requires es != [] && AllDecide(es, c, truths)
    ensures Decides(JoinTree(level, op, es), c, if op == OpOr then true in truths else false !in truths)
  {
    assert Decides(es[0], c, truths[0]);
    assert truths == [truths[0]] + truths[1..];
    var whole := JoinTree(level, op, es);
    if |es| > 1 {
      forall answer | MayAnswer(whole, c, answer)
        ensures Tells(answer, if op == OpOr then true in truths else false !in truths)
      {
        var acc := ChainAnswers(level, es[0], TailOf(op, es[1..]), c, answer);
        RunDecides(acc, truths[0], op, es[1..], c, truths[1..], answer);
      }
    }
  }

  lemma ParenDecides(e: Expr, c: Ctx, truth: bool)
    requires Decides(e, c, truth)
    ensures Decides(Paren(e), c, truth)
  {
    forall v | MayAnswer(Paren(e), c, v) ensures MayAnswer(e, c, v) {
    }
  }

  lemma CondDecides(cond: Condition, before: nat, c: Ctx)
    requires Known(cond) && Sane(c.env) && BoundFrom(c, before, CondPush(c.env.jsText, cond))
    ensures Decides(CondTree(cond, before), c, ConditionHolds(c.env, c.contact, cond))
  {
    CondHasOneAnswer(cond, before, c);
    hide MayAnswer, Eval, CondTree, CondPush, BoundFrom, Sane;
    CondMeaning(cond, before, c);
    ConditionIsLogical(c.env, c.contact, cond);
  }

  function Holding(env: Env, p: Contact, conds: seq<Condition>): seq<bool>
    requires AllKnown(conds)
  {
    seq(|conds|, i requires 0 <= i < |conds| => ConditionHolds(env, p, conds[i]))
  }

  lemma {:induction false} CondTreesDecide(conds: seq<Condition>, before: nat, c: Ctx)
    requires AllKnown(conds) && Sane(c.env) && BoundFrom(c, before, GroupPush(c.env.jsText, conds))
    ensures AllDecide(CondTrees(c.env.jsText, conds, before), c, Holding(c.env, c.contact, conds))
  {
    hide Decides, CondTree, CondPush, ConditionHolds, BoundFrom, Sane, Known;
    if conds != [] {
      var n := |conds| - 1;
      var pushed := GroupPush(c.env.jsText, conds[..n]);
      BoundSplits(c, before, pushed, CondPush(c.env.jsText, conds[n]));
      CondTreesDecide(conds[..n], before, c);
      CondDecides(conds[n], before + |pushed|, c);
      var initial, trees := CondTrees(c.env.jsText, conds[..n], before), CondTrees(c.env.jsText, conds, before);
      var was, truths := Holding(c.env, c.contact, conds[..n]), Holding(c.env, c.contact, conds);
      forall i | 0 <= i < |conds| ensures Decides(trees[i], c, truths[i]) {
        if i < n {
          assert trees[i] == initial[i] && truths[i] == was[i];
        }
      }
    }
  }

  lemma GroupDecides(conds: seq<Condition>, before: nat, c: Ctx)
    requires AllKnown(conds) && conds != [] && Sane(c.env) && BoundFrom(c, before, GroupPush(c.env.jsText, conds))
    ensures Decides(GroupTree(c.env.jsText, conds, before), c, GroupHolds(c.env, c.contact, conds))
  {
    hide Decides, CondTrees, ConditionHolds, BoundFrom, Sane, JoinTree;
    var trees, truths := CondTrees(c.env.jsText, conds, before), Holding(c.env, c.contact, conds);
    CondTreesDecide(conds, before, c);
    JoinDecides(OR_LEVEL, OpOr, trees, c, truths);
    ParenDecides(JoinTree(OR_LEVEL, OpOr, trees), c, true in truths);
    if i :| 0 <= i < |conds| && ConditionHolds(c.env, c.contact, conds[i]) {
      assert truths[i];
    }
  }

  function HoldingGroups(env: Env, p: Contact, groups: seq<Group>): seq<bool>
    requires GroupsKnown(groups)
  {
    seq(|groups|, i requires 0 <= i < |groups| => GroupHolds(env, p, groups[i]))
  }

  lemma {:induction false} GroupTreesDecide(groups: seq<Group>, before: nat, c: Ctx)
    requires GroupsKnown(groups) && NonEmptyGroups(groups) && Sane(c.env)
    requires BoundFrom(c, before, GroupsPush(c.env.jsText, groups))
    ensures AllDecide(GroupTrees(c.env.jsText, groups, before), c, HoldingGroups(c.env, c.contact, groups))
  {
    hide Decides, GroupTree, GroupPush, GroupHolds, BoundFrom, Sane, AllKnown;
    if groups != [] {
      var n := |groups| - 1;
      var pushed := GroupsPush(c.env.jsText, groups[..n]);
      BoundSplits(c, before, pushed, GroupPush(c.env.jsText, groups[n]));
      GroupTreesDecide(groups[..n], before, c);
      GroupDecides(groups[n], before + |pushed|, c);
      var initial, trees := GroupTrees(c.env.jsText, groups[..n], before), GroupTrees(c.env.jsText, groups, before);
      var was, truths := HoldingGroups(c.env, c.contact, groups[..n]), HoldingGroups(c.env, c.contact, groups);
      forall i | 0 <= i < |groups| ensures Decides(trees[i], c, truths[i]) {
        if i < n {
          assert trees[i] == initial[i] && truths[i] == was[i];
        }
      }
    }
  }

  /** The truths of what stands beside the base predicates. */
  function GroupedTruths(env: Env, p: Contact, def: Definition): seq<bool>
    requires GroupsKnown(def.groups)
  {
    var truths := HoldingGroups(env, p, def.groups);
    if OrsGroups(def) then [true in truths] else truths
  }

  lemma GroupedDecide(def: Definition, c: Ctx)
    requires GroupsKnown(def.groups) && NonEmptyGroups(def.groups) && Sane(c.env)
    requires BoundFrom(c, 1, GroupsPush(c.env.jsText, def.groups))
    ensures AllDecide(Grouped(c.env.jsText, def), c, GroupedTruths(c.env, c.contact, def))
  {
    hide Decides, GroupTrees, HoldingGroups, BoundFrom, Sane, JoinTree;
    var trees, truths := GroupTrees(c.env.jsText, def.groups, 1), HoldingGroups(c.env, c.contact, def.groups);
    GroupTreesDecide(def.groups, 1, c);
    if OrsGroups(def) {
      JoinDecides(OR_LEVEL, OpOr, trees, c, truths);
      ParenDecides(JoinTree(OR_LEVEL, OpOr, trees), c, true in truths);
    }
  }

  lemma BaseDecides(c: Ctx, workspaceId: string)
    requires Bound(c, 1, JsString(workspaceId))
    ensures Decides(WorkspaceTree, c, c.contact.workspaceId == workspaceId)
    ensures Decides(NotAnonymizedTree, c, c.contact.anonymizedAt.None?)
  {
    BaseMeaning(c, workspaceId);
    hide Eval;
    ComparisonAnswers(COMPARISON_LEVEL, Column(WorkspaceIdOfContact), OpEq, Param(1), c);
  }

  lemma MembershipIsTheTruths(env: Env, p: Contact, def: Definition, workspaceId: string)
    requires GroupsKnown(def.groups)
    ensures var truths := [p.workspaceId == workspaceId, p.anonymizedAt.None?] + GroupedTruths(env, p, def);
            false !in truths <==> Member(env, p, def, workspaceId)
  {
    hide GroupHolds, HoldingGroups;
    HoldingTells(env, p, def.groups);
    TwoMore(p.workspaceId == workspaceId, p.anonymizedAt.None?, GroupedTruths(env, p, def));
    if |def.groups| == 1 {
      assert (exists i :: 0 <= i < 1 && GroupHolds(env, p, def.groups[i])) <==> GroupHolds(env, p, def.groups[0]);
    }
  }

  lemma TwoMore(a: bool, b: bool, rest: seq<bool>)
    ensures false !in [a, b] + rest <==> a && b && false !in rest
  {
    var all := [a, b] + rest;
    assert all[0] == a && all[1] == b && forall i :: 0 <= i < |rest| ==> all[i + 2] == rest[i];
  }

  lemma HoldingTells(env: Env, p: Contact, groups: seq<Group>)
    requires GroupsKnown(groups)
    ensures var holding := HoldingGroups(env, p, groups);
            && (true in holding <==> exists i :: 0 <= i < |groups| && GroupHolds(env, p, groups[i]))
            && (false !in holding <==> forall i :: 0 <= i < |groups| ==> GroupHolds(env, p, groups[i]))
  {
    hide GroupHolds;
    var holding := HoldingGroups(env, p, groups);
    assert forall i :: 0 <= i < |groups| ==> (holding[i] <==> GroupHolds(env, p, groups[i]));
  }

  lemma WhereDecides(def: Definition, c: Ctx, workspaceId: string)
    requires GroupsKnown(def.groups) && NonEmptyGroups(def.groups) && Sane(c.env)
    requires c.params == WherePush(c.env.jsText, def, workspaceId)
    ensures Decides(WhereTree(c.env.jsText, def), c, Member(c.env, c.contact, def, workspaceId))
  {
    hide Decides, GroupTrees, BoundFrom, Bound, Sane, JoinTree, GroupsPush, Member, GroupedTruths, Grouped;
    BaseBound(def, c, workspaceId);
    BaseDecides(c, workspaceId);
    GroupedDecide(def, c);
    MembershipIsTheTruths(c.env, c.contact, def, workspaceId);
    var es := [WorkspaceTree, NotAnonymizedTree] + Grouped(c.env.jsText, def);
    var truths := [c.contact.workspaceId == workspaceId, c.contact.anonymizedAt.None?] + GroupedTruths(c.env, c.contact, def);
    JoinDecides(AND_LEVEL, OpAnd, es, c, truths);
    WhereTreeOfGrouped(def, c.env.jsText);
  }

  lemma WhereTreeOfGrouped(def: Definition, jsText: Input -> string)
    requires GroupsKnown(def.groups) && NonEmptyGroups(def.groups)
    ensures WhereTree(jsText, def) == JoinTree(AND_LEVEL, OpAnd, [WorkspaceTree, NotAnonymizedTree] + Grouped(jsText, def))
  {
    hide GroupTrees, JoinTree;
  }

  /**
   * The compiler preserves meaning for every database: of the emitted tokens, read with AND tighter than
   * OR, each possible answer is true exactly for the members or is an error, and an error only where some
   * condition is refused. Full evaluation is one of those answers, and it is the error exactly there.
   */
  lemma EveryAnswerMeansMembership(env: Env, p: Contact, def: Definition, workspaceId: string, answer: Val)
    requires GroupsKnown(def.groups) && NonEmptyGroups(def.groups) && Sane(env)
    requires Parse(WhereToks(env.jsText, def)).Ok?
    requires MayAnswer(Parse(WhereToks(env.jsText, def)).value,
                       Ctx(env, p, None, None, WherePush(env.jsText, def, workspaceId)), answer)
    ensures answer == Error ==> Refused(env, p, def)
    ensures answer != Error ==> (answer == Bool(true) <==> Member(env, p, def, workspaceId))
  {
    hide *;
    var c := Ctx(env, p, None, None, WherePush(env.jsText, def, workspaceId));
    WhereReadsAsIntended(env.jsText, def);
    WhereDecides(def, c, workspaceId);
    TellsOf(WhereTree(env.jsText, def), c, Member(env, p, def, workspaceId), answer);
    WhereTreeMeaning(def, c, workspaceId);
    if answer == Error && Eval(WhereTree(env.jsText, def), c) != Error {
      UnrefusedHasOneAnswer(WhereTree(env.jsText, def), c, answer);
    }
  }

  lemma TellsOf(e: Expr, c: Ctx, truth: bool, answer: Val)
    requires Decides(e, c, truth) && MayAnswer(e, c, answer)
    ensures answer != Error ==> (answer == Bool(true) <==> truth)
  {
  }
}
