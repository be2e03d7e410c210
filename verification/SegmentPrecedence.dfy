/**
 * Where the parentheses matter: a definition with an empty group compiles to text that does not parse,
 * and joining the groups by OR without the enclosing parentheses would let other workspaces' contacts in.
 */
module SegmentPrecedence {
  import opened Options
  import opened SqlGrammar
  import opened SqlEval
  import opened SegmentCompiler
  import opened SegmentMeaning

  // ---------- an empty group ----------

  const EmptyParens: seq<Token> := [LParen, RParen]

  /** What no level below can read, no level above can either. */
  lemma {:induction false} FailsAtEveryLevel(level: nat, toks: seq<Token>)
    requires toks == [] || toks[0] != NotT
    requires ParsePrimary(toks).Fail?
    ensures ParseAt(level, toks).Fail?
    decreases PRIMARY_LEVEL - level
  {
    hide ParsePrimary, ParseTail;
    if level < PRIMARY_LEVEL {
      FailsAtEveryLevel(level + 1, toks);
    }
  }

  ghost predicate Unreadable(part: seq<Token>) {
    part != [] && part[0] == LParen && forall rest :: ParsePrimary(part + rest).Fail?
  }

  lemma EmptyParensAreUnreadable()
    ensures Unreadable(EmptyParens)
  {
    forall rest ensures ParsePrimary(EmptyParens + rest).Fail? {
      assert (EmptyParens + rest)[1..] == [RParen] + rest;
      FailsAtEveryLevel(0, [RParen] + rest);
    }
  }

  /** The parts before the m-th are printed operands; the m-th cannot be read. */
  ghost predicate BreaksAt(parts: seq<seq<Token>>, es: seq<Expr>, m: nat) {
    && m < |parts| && m <= |es| && Unreadable(parts[m])
    && forall i :: 0 <= i < m ==> parts[i] == Toks(es[i]) && Fits(es[i], NOT_LEVEL)
  }

  lemma {:induction false} JoinRestFails(op: Op, parts: seq<seq<Token>>, es: seq<Expr>, m: nat, rest: seq<Token>)
    requires BreaksAt(parts, es, m) && OpLevel(op) <= AND_LEVEL
    ensures ParseTail(OpLevel(op), JoinRest(op, parts) + rest).Fail?
    decreases m
  {
    hide ParseAt, ParsePrimary, Toks, Fits;
    var level := OpLevel(op);
    var after := JoinRest(op, parts[1..]) + rest;
    var toks := JoinRest(op, parts) + rest;
    assert toks[0] == BinT(op) && toks[1..] == parts[0] + after;
    if m == 0 {
      assert (parts[0] + after)[0] == parts[0][0];
      FailsAtEveryLevel(level + 1, parts[0] + after);
    } else {
      assert BreaksAt(parts[1..], es[1..], m - 1);
      JoinRestFails(op, parts[1..], es[1..], m - 1, rest);
      assert parts[1..] != [] && after[0] == BinT(op);
      FitsLower(es[0], NOT_LEVEL, level + 1);
      ParsePrint(es[0], level + 1, after);
    }
  }

  lemma JoinFails(op: Op, parts: seq<seq<Token>>, es: seq<Expr>, m: nat, rest: seq<Token>)
    requires BreaksAt(parts, es, m) && OpLevel(op) <= AND_LEVEL
    ensures ParseAt(OpLevel(op), Join(op, parts) + rest).Fail?
  {
    hide ParsePrimary, Toks, Fits, ParseTail;
    var level := OpLevel(op);
    var after := JoinRest(op, parts[1..]) + rest;
    assert Join(op, parts) + rest == parts[0] + after;
    if m == 0 {
      assert (parts[0] + after)[0] == parts[0][0];
      FailsAtEveryLevel(level, parts[0] + after);
    } else {
      assert BreaksAt(parts[1..], es[1..], m - 1);
      JoinRestFails(op, parts[1..], es[1..], m - 1, rest);
      assert parts[1..] != [] && after[0] == BinT(op);
      FitsLower(es[0], NOT_LEVEL, level + 1);
      ParsePrint(es[0], level + 1, after);
    }
  }

  lemma ParenthesisedJoinIsUnreadable(parts: seq<seq<Token>>, es: seq<Expr>, m: nat)
    requires BreaksAt(parts, es, m)
    ensures Unreadable([LParen] + Join(OpOr, parts) + [RParen])
  {
    hide ParseAt, ParseTail;
    var whole := [LParen] + Join(OpOr, parts) + [RParen];
    forall rest ensures ParsePrimary(whole + rest).Fail? {
      JoinFails(OpOr, parts, es, m, [RParen] + rest);
      assert (whole + rest)[1..] == Join(OpOr, parts) + ([RParen] + rest);
    }
  }

  lemma {:induction false} ClauseAt(jsText: Input -> string, groups: seq<Group>, before: nat, i: nat)
    requires GroupsKnown(groups) && i < |groups|
    ensures groups[i] == [] ==> GroupClauses(jsText, groups, before)[i] == EmptyParens
    ensures groups[i] != [] ==> exists e :: GroupClauses(jsText, groups, before)[i] == Toks(e) && Fits(e, PRIMARY_LEVEL)
  {
    hide Fits, Toks, GroupPush;
    var n := |groups| - 1;
    if i < n {
      ClauseAt(jsText, groups[..n], before, i);
    } else {
      var at := before + |GroupsPush(jsText, groups[..n])|;
      if groups[n] != [] {
        GroupTreePrints(jsText, groups[n], at);
        GroupTreeFits(jsText, groups[n], at);
      } else {
        assert GroupToks(jsText, groups[n], at) == EmptyParens;
      }
    }
  }

  lemma {:induction false} ClausesBreak(jsText: Input -> string, groups: seq<Group>, m: nat) returns (es: seq<Expr>)
    requires GroupsKnown(groups) && m < |groups| && groups[m] == [] && NonEmptyGroups(groups[..m])
    ensures BreaksAt(GroupClauses(jsText, groups, 1), es, m)
  {
    hide Fits, Toks, GroupClauses;
    var clauses := GroupClauses(jsText, groups, 1);
    es := [];
    for i := 0 to m
      invariant |es| == i && forall j :: 0 <= j < i ==> clauses[j] == Toks(es[j]) && Fits(es[j], NOT_LEVEL)
    {
      assert groups[i] == groups[..m][i];
      ClauseAt(jsText, groups, 1, i);
      var e :| clauses[i] == Toks(e) && Fits(e, PRIMARY_LEVEL);
      FitsLower(e, PRIMARY_LEVEL, NOT_LEVEL);
      es := es + [e];
    }
    ClauseAt(jsText, groups, 1, m);
    EmptyParensAreUnreadable();
  }

  lemma {:induction false} FirstEmpty(groups: seq<Group>) returns (m: nat)
    requires !NonEmptyGroups(groups)
    ensures m < |groups| && groups[m] == [] && NonEmptyGroups(groups[..m])
  {
    m := 0;
    while groups[m] != []
      invariant m < |groups| && NonEmptyGroups(groups[..m]) && exists i :: m <= i < |groups| && groups[i] == []
      decreases |groups| - m
    {
      m := m + 1;
    }
  }

  lemma BaseFits()
    ensures Fits(WorkspaceTree, NOT_LEVEL) && Fits(NotAnonymizedTree, NOT_LEVEL)
  {
    ComparisonFits(Column(WorkspaceIdOfContact), OpEq, Param(1));
  }

  lemma EmptyGroupBreaksTheClause(jsText: Input -> string, def: Definition)
    requires GroupsKnown(def.groups) && !NonEmptyGroups(def.groups)
    ensures Parse(WhereToks(jsText, def)).Fail?
  {
    hide Fits, Toks, GroupClauses, ParsePrimary, ParseTail;
    BaseFits();
    var m := FirstEmpty(def.groups);
    var clauses := GroupClauses(jsText, def.groups, 1);
    var es := ClausesBreak(jsText, def.groups, m);
    var base := [WorkspaceTree, NotAnonymizedTree];
    var texts := [Toks(WorkspaceTree), Toks(NotAnonymizedTree)];
    var where := WhereToks(jsText, def);
    if OrsGroups(def) {
      ParenthesisedJoinIsUnreadable(clauses, es, m);
      var parts := texts + [[LParen] + Join(OpOr, clauses) + [RParen]];
      assert BreaksAt(parts, base, 2);
      JoinFails(OpAnd, parts, base, 2, []);
      assert where + [] == Join(OpAnd, parts) + [];
    } else {
      assert BreaksAt(texts + clauses, base + es, m + 2);
      JoinFails(OpAnd, texts + clauses, base + es, m + 2, []);
      assert where + [] == Join(OpAnd, texts + clauses) + [];
    }
    assert where + [] == where;
    OrFailsWithAnd(where);
  }

  lemma OrFailsWithAnd(toks: seq<Token>)
    requires ParseAt(AND_LEVEL, toks).Fail?
    ensures Parse(toks).Fail?
  {
    hide ParsePrimary, ParseTail;
  }

  /** The clause is readable SQL exactly when no group is empty. */
  lemma ReadableIffNoEmptyGroup(jsText: Input -> string, def: Definition)
    requires GroupsKnown(def.groups)
    ensures Parse(WhereToks(jsText, def)).Ok? <==> NonEmptyGroups(def.groups)
  {
    hide *;
    if NonEmptyGroups(def.groups) {
      WhereReadsAsIntended(jsText, def);
    } else {
      EmptyGroupBreaksTheClause(jsText, def);
    }
  }

  // ---------- without the enclosing parentheses ----------

  /** The OR'd groups joined onto the base predicates with no parentheses around them. */
  function BareToks(jsText: Input -> string, def: Definition): seq<Token>
    requires GroupsKnown(def.groups)
  {
    Join(OpAnd, [Toks(WorkspaceTree), Toks(NotAnonymizedTree), Join(OpOr, GroupClauses(jsText, def.groups, 1))])
  }

  function FirstArm(jsText: Input -> string, def: Definition): Expr
    requires GroupsKnown(def.groups) && NonEmptyGroups(def.groups) && def.groups != []
  {
    JoinTree(AND_LEVEL, OpAnd, [WorkspaceTree, NotAnonymizedTree, GroupTrees(jsText, def.groups, 1)[0]])
  }

  /** How that text reads: the base predicates guard the first group only. */
  function BareTree(jsText: Input -> string, def: Definition): Expr
    requires GroupsKnown(def.groups) && NonEmptyGroups(def.groups) && def.groups != []
  {
    JoinTree(OR_LEVEL, OpOr, [FirstArm(jsText, def)] + GroupTrees(jsText, def.groups, 1)[1..])
  }

  lemma JoinOfThree(op: Op, a: seq<Token>, b: seq<Token>, c: seq<Token>)
    ensures Join(op, [a, b, c]) == a + [BinT(op)] + b + [BinT(op)] + c
  {
    assert [a, b, c][1..] == [b, c] && [b, c][1..] == [c] && [c][1..] == [];
    assert JoinRest(op, [c]) == [BinT(op)] + c;
    assert JoinRest(op, [b, c]) == [BinT(op)] + b + ([BinT(op)] + c);
  }

  lemma BarePrints(jsText: Input -> string, def: Definition)
    requires GroupsKnown(def.groups) && NonEmptyGroups(def.groups) && def.groups != []
    ensures Toks(BareTree(jsText, def)) == BareToks(jsText, def)
  {
    hide Toks, GroupTrees, GroupClauses, Join, JoinRest;
    var trees := GroupTrees(jsText, def.groups, 1);
    var clauses := GroupClauses(jsText, def.groups, 1);
    GroupTreesPrint(jsText, def.groups, 1);
    var arm := [WorkspaceTree, NotAnonymizedTree, trees[0]];
    JoinPrints(AND_LEVEL, OpAnd, arm);
    assert AllToks(arm) == [Toks(WorkspaceTree), Toks(NotAnonymizedTree), clauses[0]];
    JoinOfThree(OpAnd, Toks(WorkspaceTree), Toks(NotAnonymizedTree), clauses[0]);
    JoinOfThree(OpAnd, Toks(WorkspaceTree), Toks(NotAnonymizedTree), Join(OpOr, clauses));
    var es := [FirstArm(jsText, def)] + trees[1..];
    JoinPrints(OR_LEVEL, OpOr, es);
    assert AllToks(es) == [Toks(FirstArm(jsText, def))] + clauses[1..];
    JoinHead(OpOr, Toks(FirstArm(jsText, def)), clauses[1..]);
    JoinHead(OpOr, clauses[0], clauses[1..]);
    assert clauses == [clauses[0]] + clauses[1..];
  }

  lemma JoinHead(op: Op, head: seq<Token>, rest: seq<seq<Token>>)
    ensures Join(op, [head] + rest) == head + JoinRest(op, rest)
  {
    assert ([head] + rest)[1..] == rest;
  }

  lemma BareFits(jsText: Input -> string, def: Definition)
    requires GroupsKnown(def.groups) && NonEmptyGroups(def.groups) && def.groups != []
    ensures Fits(BareTree(jsText, def), 0)
  {
    hide Fits, GroupTrees;
    var trees := GroupTrees(jsText, def.groups, 1);
    BaseFits();
    GroupTreesFit(jsText, def.groups, 1);
    forall i | 0 <= i < |trees| ensures Fits(trees[i], AND_LEVEL) && Fits(trees[i], NOT_LEVEL) {
      FitsLower(trees[i], PRIMARY_LEVEL, AND_LEVEL);
      FitsLower(trees[i], PRIMARY_LEVEL, NOT_LEVEL);
    }
    JoinFits(OpAnd, [WorkspaceTree, NotAnonymizedTree, trees[0]], AND_LEVEL);
    JoinFits(OpOr, [FirstArm(jsText, def)] + trees[1..], OR_LEVEL);
  }

  lemma ArmIsLogical(a: Val, b: Val, v: Val, r: Val)
    requires a.Bool? && b.Bool? && (Logical(v) || v == Error) && Conjoined(Bool(true), [a, b, v], r)
    ensures (Logical(r) || r == Error) && (r == Error <==> v == Error)
  {
    assert [a, b, v][2] == v;
  }

  lemma FirstArmMeaning(def: Definition, c: Ctx, workspaceId: string, v: Val)
    requires GroupsKnown(def.groups) && NonEmptyGroups(def.groups) && def.groups != []
    requires Bound(c, 1, JsString(workspaceId)) && (Logical(v) || v == Error)
    requires v == Eval(GroupTrees(c.env.jsText, def.groups, 1)[0], c)
    ensures var r := Eval(FirstArm(c.env.jsText, def), c); (Logical(r) || r == Error) && (r == Error <==> v == Error)
  {
    hide Eval, GroupTrees, Bound, Conjoined;
    BaseMeaning(c, workspaceId);
    var arm := [WorkspaceTree, NotAnonymizedTree, GroupTrees(c.env.jsText, def.groups, 1)[0]];
    assert Values(arm, c) == [Eval(WorkspaceTree, c), Eval(NotAnonymizedTree, c), v];
    EvalJoin(AND_LEVEL, OpAnd, arm, c);
    ArmIsLogical(Eval(WorkspaceTree, c), Eval(NotAnonymizedTree, c), v, Eval(FirstArm(c.env.jsText, def), c));
  }

  lemma BareTreeAdmits(def: Definition, c: Ctx, workspaceId: string, i: nat)
    requires GroupsKnown(def.groups) && NonEmptyGroups(def.groups) && Sane(c.env) && !Refused(c.env, c.contact, def)
    requires c.params == WherePush(c.env.jsText, def, workspaceId)
    requires 1 <= i < |def.groups| && GroupHolds(c.env, c.contact, def.groups[i])
    ensures Eval(BareTree(c.env.jsText, def), c) == Bool(true)
  {
    hide Eval, GroupTrees, GroupHolds, GroupFails, BoundFrom, Bound, Sane, GroupsPush, FirstArm;
    BaseBound(def, c, workspaceId);
    GroupTreesMean(def.groups, 1, c);
    var trees := GroupTrees(c.env.jsText, def.groups, 1);
    forall j | 0 <= j < |trees| ensures Logical(Eval(trees[j], c)) {
      assert Values(trees, c)[j] == Eval(trees[j], c);
      assert !GroupFails(c.env, c.contact, def.groups[j]);
    }
    FirstArmMeaning(def, c, workspaceId, Eval(trees[0], c));
    var es := [FirstArm(c.env.jsText, def)] + trees[1..];
    EvalJoin(OR_LEVEL, OpOr, es, c);
    assert Values(es, c)[i] == Eval(trees[i], c) == Values(trees, c)[i] == Bool(true);
    forall j | 0 <= j < |es| ensures Values(es, c)[j] != Error {
      assert Values(es, c)[j] == Eval(es[j], c);
    }
  }

  /** Without the parentheses, matching any group but the first is enough, whatever the workspace or erasure. */
  lemma BareOrAdmitsForeignContacts(env: Env, p: Contact, def: Definition, workspaceId: string, i: nat)
    requires GroupsKnown(def.groups) && NonEmptyGroups(def.groups) && Sane(env) && !Refused(env, p, def)
    requires 1 <= i < |def.groups| && GroupHolds(env, p, def.groups[i])
    ensures var read := Parse(BareToks(env.jsText, def));
            && read.Ok?
            && Eval(read.value, Ctx(env, p, None, None, WherePush(env.jsText, def, workspaceId))) == Bool(true)
  {
    hide *;
    BarePrints(env.jsText, def);
    BareFits(env.jsText, def);
    TextReadsBack(BareTree(env.jsText, def));
    BareTreeAdmits(def, Ctx(env, p, None, None, WherePush(env.jsText, def, workspaceId)), workspaceId, i);
  }
}
