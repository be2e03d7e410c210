/** Three-valued evaluation of the segment compiler's SQL over one contact and the event table. */
module SqlEval {
  import opened Options
  import opened SqlGrammar
  import opened LikeEscape

  /** A bound value as the compiler pushes it. */
  datatype Input = Undefined | JsNull | JsBool(flag: bool) | JsNumber(n: nat) | JsString(text: string) | JsOther(id: string)

  datatype Event = Event(workspaceId: string, contactId: string, name: string, occurredAt: int)

  datatype Contact = Contact(
    id: string,
    workspaceId: string,
    anonymizedAt: Option<int>,
    country: Option<string>, city: Option<string>, firstName: Option<string>, lastName: Option<string>, phone: Option<string>,
    subscriptionStatus: string,
    tags: seq<string>,
    properties: map<string, string>)

  /** What lies outside: the clock, the event table, and how the driver and the database read and write text. */
  datatype Env = Env(
    now: int,
    events: seq<Event>,
    wireText: Input -> string,
    jsText: Input -> string,
    number: string -> Option<real>,
    boolean: string -> Option<bool>,
    instant: string -> Option<int>,
    interval: string -> Option<int>,
    textArray: string -> Option<seq<string>>,
    fold: char -> char)

  /** A bound value arrives as text, or as NULL. */
  predicate IsNullInput(v: Input) {
    v == Undefined || v == JsNull
  }

  function Wire(env: Env, v: Input): string {
    if v.JsString? then v.text else env.wireText(v)
  }

  /**
   * `Raw` is a parameter or a quoted literal, whose type the other operand decides. `Error` stands for
   * any statement the database refuses: an ill-typed operator or an unreadable value.
   */
  datatype Val =
    | Null | Error
    | Bool(b: bool) | Text(s: string) | StatusLabel(s: string) | TextArray(tags: seq<string>)
    | OneElement(element: Option<string>)
    | Number(x: real) | Instant(t: int) | Interval(ms: int) | CountOf(n: nat)
    | Props(m: map<string, string>) | Raw(v: Input)

  const SUBSCRIPTION_LABELS: set<string> := {"subscribed", "unsubscribed", "suppressed"}

  datatype Ctx = Ctx(env: Env, contact: Contact, event: Option<Event>, groupCount: Option<nat>, params: seq<Input>)

  function TextOrNull(t: Option<string>): Val {
    if t.Some? then Text(t.value) else Null
  }

  function ColumnValue(c: Ctx, name: ColumnName): Val {
    match name
    case WorkspaceIdOfContact => Text(c.contact.workspaceId)
    case IdOfContact => Text(c.contact.id)
    case AnonymizedAt => if c.contact.anonymizedAt.Some? then Instant(c.contact.anonymizedAt.value) else Null
    case Country => TextOrNull(c.contact.country)
    case City => TextOrNull(c.contact.city)
    case FirstName => TextOrNull(c.contact.firstName)
    case LastName => TextOrNull(c.contact.lastName)
    case Phone => TextOrNull(c.contact.phone)
    case SubscriptionStatus => StatusLabel(c.contact.subscriptionStatus)
    case Tags => TextArray(c.contact.tags)
    case Properties => Props(c.contact.properties)
    case WorkspaceIdOfEvent => if c.event.Some? then Text(c.event.value.workspaceId) else Error
    case ContactIdOfEvent => if c.event.Some? then Text(c.event.value.contactId) else Error
    case NameOfEvent => if c.event.Some? then Text(c.event.value.name) else Error
    case OccurredAtOfEvent => if c.event.Some? then Instant(c.event.value.occurredAt) else Error
  }

  /** A raw operand read at the type of the operand it meets. */
  function Coerce(env: Env, v: Val, other: Val): Val {
    if !v.Raw? then v
    else if IsNullInput(v.v) then Null
    else
      var text := Wire(env, v.v);
      match other
      case Text(_) => Text(text)
      case StatusLabel(_) => if text in SUBSCRIPTION_LABELS then StatusLabel(text) else Error
      case TextArray(_) => var a := env.textArray(text); if a.Some? then TextArray(a.value) else Error
      case Number(_) => var x := env.number(text); if x.Some? then Number(x.value) else Error
      case Bool(_) => var b := env.boolean(text); if b.Some? then Bool(b.value) else Error
      case Instant(_) => var t := env.instant(text); if t.Some? then Instant(t.value) else Error
      case CountOf(_) => if v.v.JsNumber? then CountOf(v.v.n) else Error
      case _ => Text(text)
  }

  function CompareSame(op: Op, l: Val, r: Val): Val {
    match (l, r)
    case (Text(a), Text(b)) => if op == OpEq then Bool(a == b) else if op == OpNeq then Bool(a != b) else Error
    case (StatusLabel(a), StatusLabel(b)) => if op == OpEq then Bool(a == b) else if op == OpNeq then Bool(a != b) else Error
    case (TextArray(a), TextArray(b)) => if op == OpEq then Bool(a == b) else if op == OpNeq then Bool(a != b) else Error
    case (Bool(a), Bool(b)) => if op == OpEq then Bool(a == b) else Error
    case (Number(a), Number(b)) =>
      Bool(match op case OpEq => a == b case OpNeq => a != b case OpLt => a < b case OpLe => a <= b case OpGt => a > b case _ => a >= b)
    case (Instant(a), Instant(b)) =>
      Bool(match op case OpEq => a == b case OpNeq => a != b case OpLt => a < b case OpLe => a <= b case OpGt => a > b case _ => a >= b)
    case (CountOf(a), CountOf(b)) => if op == OpGe then Bool(a >= b) else Error
    case _ => Error
  }

  function Compare(env: Env, op: Op, l: Val, r: Val): Val {
    var a, b := Coerce(env, l, r), Coerce(env, r, l);
    if a.Error? || b.Error? then Error
    else if a.Null? || b.Null? then Null
    else CompareSame(op, a, b)
  }

  predicate Logical(v: Val) { v.Bool? || v.Null? }

  function LogicOr(l: Val, r: Val): Val {
    if !Logical(l) || !Logical(r) then Error
    else if l == Bool(true) || r == Bool(true) then Bool(true)
    else if l.Null? || r.Null? then Null else Bool(false)
  }

  function LogicAnd(l: Val, r: Val): Val {
    if !Logical(l) || !Logical(r) then Error
    else if l == Bool(false) || r == Bool(false) then Bool(false)
    else if l.Null? || r.Null? then Null else Bool(true)
  }

  function LogicNot(v: Val): Val {
    if v.Bool? then Bool(!v.b) else if v.Null? then Null else Error
  }

  function ApplyOp(env: Env, op: Op, l: Val, r: Val): Val {
    match op
    case OpOr => LogicOr(l, r)
    case OpAnd => LogicAnd(l, r)
    case OpILike =>
      if l.Null? && r.Raw? then Null
      else if l.Text? && r.Raw? then (if IsNullInput(r.v) then Null else Bool(ILike(env.fold, l.s, Wire(env, r.v))))
      else Error
    case OpArrow =>
      if l.Props? && r.Raw? then
        (if IsNullInput(r.v) then Null else if Wire(env, r.v) in l.m then Text(l.m[Wire(env, r.v)]) else Null)
      else Error
    case OpHolds =>
      if l.TextArray? && r.OneElement? then Bool(r.element.Some? && r.element.value in l.tags) else Error
    case OpConcat =>
      if l.Raw? && r.Raw? then (if IsNullInput(l.v) || IsNullInput(r.v) then Null else Text(Wire(env, l.v) + Wire(env, r.v)))
      else Error
    case OpMinus =>
      if l.Instant? && r.Interval? then Instant(l.t - r.ms)
      else if l.Instant? && r.Null? then Null else Error
    case _ => Compare(env, op, l, r)
  }

  function ReadText(env: Env, ty: CastType, s: string): Val {
    match ty
    case ToNumeric => var x := env.number(s); if x.Some? then Number(x.value) else Error
    case ToBoolean => var b := env.boolean(s); if b.Some? then Bool(b.value) else Error
    case ToTimestamptz => var t := env.instant(s); if t.Some? then Instant(t.value) else Error
    case ToInterval => var ms := env.interval(s); if ms.Some? then Interval(ms.value) else Error
    case ToTextArray => Error
  }

  function ApplyCast(env: Env, ty: CastType, v: Val): Val {
    if ty == ToTextArray then (if v.OneElement? then v else Error)
    else if v.Null? then Null
    else if v.Text? then ReadText(env, ty, v.s)
    else Error
  }

  function Eval(e: Expr, c: Ctx): Val
    decreases e, 0
  {
    match e
    case Chain(_, head, tail) => EvalTail(Eval(head, c), tail, c)
    case Not(a) => LogicNot(Eval(a, c))
    case NullTest(a, negated) => var v := Eval(a, c); if v.Error? then Error else Bool(v.Null? != negated)
    case Cast(a, ty) => ApplyCast(c.env, ty, Eval(a, c))
    case Paren(a) => Eval(a, c)
    case Exists(where, having) =>
      if exists i :: 0 <= i < |c.env.events| && !Logical(Eval(where, c.(event := Some(c.env.events[i])))) then Error
      else
        var kept := Kept(where, c, c.env.events);
        (match having
         case NoHaving => Bool(kept != [])
         case HavingClause(test) => SomeGroup(test, c, kept, kept))
    case Param(k) => if 1 <= k <= |c.params| then Raw(c.params[k - 1]) else Error
    case Column(name) => ColumnValue(c, name)
    case Str(text) => Raw(JsString(text))
    case Now => Instant(c.env.now)
    case CountStar => if c.groupCount.Some? then CountOf(c.groupCount.value) else Error
    case ArrayOf(a) =>
      var v := Eval(a, c);
      if v.Raw? then OneElement(if IsNullInput(v.v) then None else Some(Wire(c.env, v.v))) else Error
  }

  function EvalTail(acc: Val, t: Tail, c: Ctx): Val
    decreases t, 0
  {
    match t
    case End => acc
    case More(op, operand, rest) => EvalTail(ApplyOp(c.env, op, acc, Eval(operand, c)), rest, c)
  }

  /** The events the subquery's WHERE keeps. */
  function Kept(where: Expr, c: Ctx, events: seq<Event>): seq<Event>
    decreases where, |events|
  {
    if events == [] then []
    else (if Eval(where, c.(event := Some(events[0]))) == Bool(true) then [events[0]] else []) + Kept(where, c, events[1..])
  }

  function CountFor(contactId: string, events: seq<Event>): nat {
    if events == [] then 0 else (if events[0].contactId == contactId then 1 else 0) + CountFor(contactId, events[1..])
  }

  /** Some group of `kept` by contact passes the HAVING test; `groups` lists an event of each group to try. */
  function SomeGroup(test: Expr, c: Ctx, kept: seq<Event>, groups: seq<Event>): Val
    decreases test, |groups|
  {
    if groups == [] then Bool(false)
    else
      LogicOr(
        Eval(test, c.(event := None, groupCount := Some(CountFor(groups[0].contactId, kept)))),
        SomeGroup(test, c, kept, groups[1..]))
  }
}
