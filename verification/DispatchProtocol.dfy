/**
 * The ledger under any number of send workers and reconcilers. A world is the two tables, the attempts
 * in flight and a clock; every step is one transaction; a run is any interleaving of steps.
 */
module DispatchProtocol {
  import opened Options
  import opened SendStateMachine
  import opened SendId
  import opened SendLedger

  /** A worker between its claim and its last write: what it claimed, when it took the lock, when it claimed. */
  datatype Attempt = Attempt(key: SendKey, lockedAt: int, claimedAt: int)

  datatype World = World(db: Db, held: map<string, Attempt>, now: int)

  datatype Step =
    | Tick(ms: nat)
    | Claim(worker: string, key: SendKey, contactId: string, decision: PreSendDecision, lockedAt: int)
    | Finish(worker: string, outcome: Outcome, dispatchedAt: int, durationMs: int)
    | Crash(worker: string)
    | KickoffExclude(key: SendKey, contactId: string, reason: string)
    | FanOut(campaignId: string, sendable: nat, excluded: nat)
    | Launch(campaignId: string)
    | Cancel(campaignId: string)
    | Reconcile(sendId: string, hasEvidence: bool)

  predicate Enabled(d: NameDigest, w: World, s: Step) {
    match s
    case Claim(worker, key, _, _, lockedAt) => worker !in w.held && d.Serves(key) && lockedAt <= w.now
    case Finish(worker, _, dispatchedAt, _) => worker in w.held && w.held[worker].claimedAt <= dispatchedAt <= w.now
    case Crash(worker) => worker in w.held
    case KickoffExclude(key, _, _) => key.CampaignKey? && d.Serves(key)
    case _ => true
  }

  function SetStatus(cs: Campaigns, campaignId: string, from: set<CampaignStatus>, to: CampaignStatus): Campaigns {
    if campaignId in cs && cs[campaignId].status in from then cs[campaignId := cs[campaignId].(status := to)] else cs
  }

  function Effect(d: NameDigest, w: World, s: Step): World
    requires Enabled(d, w, s)
  {
    match s
    case Tick(ms) => w.(now := w.now + ms)
    case Claim(worker, key, contactId, decision, lockedAt) =>
      var id := DeriveSendId(d, key);
      var claimed := w.(db := ClaimTx(w.db, id, key, contactId, decision, w.now));
      if ClaimAnswer(w.db, id, key, decision).ClaimProceed?
      then claimed.(held := w.held[worker := Attempt(key, lockedAt, w.now)])
      else claimed
    case Finish(worker, outcome, dispatchedAt, durationMs) =>
      var a := w.held[worker];
      w.(db := FinishTx(w.db, DeriveSendId(d, a.key), a.key, outcome, dispatchedAt, durationMs, w.now),
         held := w.held - {worker})
    case Crash(worker) => w.(held := w.held - {worker})
    case KickoffExclude(key, contactId, reason) =>
      w.(db := w.db.(sends := Exclude(w.db.sends, DeriveSendId(d, key), key, contactId, reason, w.now)))
    case FanOut(campaignId, sendable, excluded) => w.(db := FanOutTx(w.db, campaignId, sendable, excluded))
    case Launch(campaignId) =>
      w.(db := w.db.(campaigns := SetStatus(w.db.campaigns, campaignId, {Draft, Scheduled}, Sending)))
    case Cancel(campaignId) =>
      w.(db := w.db.(campaigns := SetStatus(w.db.campaigns, campaignId, {Sending}, Canceled)))
    case Reconcile(sendId, hasEvidence) => w.(db := ResolveTx(w.db, sendId, hasEvidence, w.now))
  }

  function Next(d: NameDigest, w: World, s: Step): World {
    if Enabled(d, w, s) then Effect(d, w, s) else w
  }

  function Exec(d: NameDigest, w: World, steps: seq<Step>): World {
    if steps == [] then w else Next(d, Exec(d, w, steps[..|steps| - 1]), steps[|steps| - 1])
  }

  lemma {:induction false} ExecAppend(d: NameDigest, w: World, a: seq<Step>, b: seq<Step>)
    ensures Exec(d, w, a + b) == Exec(d, Exec(d, w, a), b)
    decreases |b|
  {
    if b == [] {
      assert a + b == a;
    } else {
      ExecAppend(d, w, a, b[..|b| - 1]);
      assert (a + b)[..|a + b| - 1] == a + b[..|b| - 1];
    }
  }

  /** Where every run starts: no send yet, nobody at work, no campaign counted, fanned out or completed. */
  predicate Initial(w: World) {
    && w.db.sends == map[] && w.held == map[]
    && forall c :: c in w.db.campaigns ==>
         var k := w.db.campaigns[c];
         k.sentCount == 0 && k.failedCount == 0 && !k.fanOutComplete && k.sendableTotal.None? && k.status != CampaignSent
  }

  /**
   * The duty of whoever calls the unguarded record statement: the row is there and still `dispatching`.
   * Nothing in the ledger checks it; TimedDispatch discharges it from the lock and timeout constants.
   */
  predicate LiveClaim(d: NameDigest, w: World, s: Step) {
    Enabled(d, w, s) && s.Finish? && !s.outcome.Released? ==>
      var id := DeriveSendId(d, w.held[s.worker].key);
      id in w.db.sends && w.db.sends[id].status == Dispatching
  }

  ghost predicate AllClaimsLive(d: NameDigest, w: World, steps: seq<Step>) {
    forall i :: 0 <= i < |steps| ==> LiveClaim(d, Exec(d, w, steps[..i]), steps[i])
  }

  lemma ExecLast(d: NameDigest, w: World, steps: seq<Step>)
    requires steps != []
    ensures Exec(d, w, steps) == Next(d, Exec(d, w, steps[..|steps| - 1]), steps[|steps| - 1])
  {
    hide Next;
  }

  /** A run is its beginning and one last step; so is the duty of its recorders. */
  lemma LastStep(d: NameDigest, w: World, steps: seq<Step>)
    requires steps != [] && AllClaimsLive(d, w, steps)
    ensures var n := |steps| - 1;
            && AllClaimsLive(d, w, steps[..n])
            && LiveClaim(d, Exec(d, w, steps[..n]), steps[n])
            && Exec(d, w, steps) == Next(d, Exec(d, w, steps[..n]), steps[n])
  {
    hide Exec, Next, LiveClaim;
    var n := |steps| - 1;
    ExecLast(d, w, steps);
    forall i | 0 <= i < n ensures LiveClaim(d, Exec(d, w, steps[..n][..i]), steps[..n][i]) {
      assert steps[..n][..i] == steps[..i];
    }
  }

  lemma NoSteps(d: NameDigest, w: World)
    ensures Exec(d, w, []) == w
  {
  }

  // ---------- what one step may do to one row ----------

  function Lookup(t: Sends, id: string): Option<SendRow> {
    if id in t then Some(t[id]) else None
  }

  function Row(w: World, id: string): Option<SendRow> {
    Lookup(w.db.sends, id)
  }

  function WriterOf(s: Step): SendStatusWriter {
    match s
    case Claim(_, _, _, _, _) => SendWorker
    case Finish(_, _, _, _) => SendWorker
    case Reconcile(_, _) => SendReconciler
    case _ => PreSendGate
  }

  predicate IsFresh(row: SendRow, now: int) {
    && (row.status == Dispatching || row.status == Excluded)
    && row == FreshRow(row.key, row.contactId, row.status, row.exclusionReason, now)
  }

  ghost predicate RowMove(before: Option<SendRow>, after: Option<SendRow>, writer: SendStatusWriter, now: int) {
    || before == after
    || (before.None? && after.Some? && IsFresh(after.value, now))
    || (before.Some? && after.None? && before.value.status == Dispatching && writer == SendWorker)
    || (before.Some? && after.Some? && (
          || (before.value.status == Excluded && after.value == before.value.(exclusionReason := after.value.exclusionReason))
          || (before.value.status == Dispatching && writer == SendWorker &&
              exists r: SendResult :: Recordable(r.status) && (r.dispatchedAt.Some? ==> r.dispatchedAt.value <= now) &&
                                      after.value == RecordRow(before.value, r, now))
          || (before.value.status == Dispatching && writer == SendReconciler && after.value == SweptRow(before.value, now))
          || (Ambiguous(before.value.status) && writer == SendReconciler && after.value == ResolvedSentRow(before.value))
          || (before.value.status == Reconciling && writer == SendReconciler && after.value == before.value.(status := Unknown))))
  }

  predicate SameExcept(t: Sends, t': Sends, id: string) {
    && (forall other :: other in t && other != id ==> other in t' && t'[other] == t[other])
    && (forall other :: other in t' && other != id ==> other in t)
  }

  lemma ClaimTxRows(db: Db, id: string, key: SendKey, contactId: string, decision: PreSendDecision, now: int)
    ensures var t' := ClaimTx(db, id, key, contactId, decision, now).sends;
            SameExcept(db.sends, t', id) && RowMove(Lookup(db.sends, id), Lookup(t', id), SendWorker, now)
  {
    if MayClaim(db, key) && decision.Sendable? && id in db.sends && db.sends[id].status == Dispatching {
      assert ClaimTx(db, id, key, contactId, decision, now).sends[id] == RecordRow(db.sends[id], InterruptedResult, now);
    }
  }

  lemma FinishTxRows(db: Db, id: string, key: SendKey, outcome: Outcome, at: int, ms: int, now: int)
    requires at <= now
    requires !outcome.Released? ==> id in db.sends && db.sends[id].status == Dispatching
    ensures var t' := FinishTx(db, id, key, outcome, at, ms, now).sends;
            SameExcept(db.sends, t', id) && RowMove(Lookup(db.sends, id), Lookup(t', id), SendWorker, now)
  {
    if !outcome.Released? {
      var r := OutcomeResult(outcome, at, ms);
      assert FinishTx(db, id, key, outcome, at, ms, now).sends == RecordSend(db.sends, id, r, now);
      assert Recordable(r.status) && RecordSend(db.sends, id, r, now)[id] == RecordRow(db.sends[id], r, now);
    }
  }

  lemma ResolveTxRows(db: Db, id: string, hasEvidence: bool, now: int)
    ensures var t' := ResolveTx(db, id, hasEvidence, now).sends;
            SameExcept(db.sends, t', id) && RowMove(Lookup(db.sends, id), Lookup(t', id), SendReconciler, now)
  {
    hide CountIn;
  }

  /** The id a step works on; the others it leaves alone. */
  function Touched(d: NameDigest, w: World, s: Step): string {
    match s
    case Claim(_, key, _, _, _) => DeriveSendId(d, key)
    case Finish(worker, _, _, _) => if worker in w.held then DeriveSendId(d, w.held[worker].key) else ""
    case KickoffExclude(key, _, _) => DeriveSendId(d, key)
    case Reconcile(sendId, _) => sendId
    case _ => ""
  }

  lemma StepMovesTouchedRow(d: NameDigest, w: World, s: Step)
    requires LiveClaim(d, w, s)
    ensures var id := Touched(d, w, s);
            && SameExcept(w.db.sends, Next(d, w, s).db.sends, id)
            && RowMove(Row(w, id), Row(Next(d, w, s), id), WriterOf(s), w.now)
  {
    hide ClaimTx, FinishTx, ResolveTx, RowMove;
    if Enabled(d, w, s) {
      match s {
        case Claim(_, key, contactId, decision, _) =>
          ClaimTxRows(w.db, DeriveSendId(d, key), key, contactId, decision, w.now);
        case Finish(worker, outcome, at, ms) =>
          var key := w.held[worker].key;
          FinishTxRows(w.db, DeriveSendId(d, key), key, outcome, at, ms, w.now);
        case Reconcile(id, hasEvidence) =>
          ResolveTxRows(w.db, id, hasEvidence, w.now);
        case KickoffExclude(key, contactId, reason) =>
          ExcludeRows(w.db.sends, DeriveSendId(d, key), key, contactId, reason, w.now);
        case _ =>
          UnchangedRows(w.db.sends, WriterOf(s), w.now);
      }
    } else {
      UnchangedRows(w.db.sends, WriterOf(s), w.now);
    }
  }

  lemma ExcludeRows(t: Sends, id: string, key: SendKey, contactId: string, reason: string, now: int)
    ensures var t' := Exclude(t, id, key, contactId, reason, now);
            SameExcept(t, t', id) && RowMove(Lookup(t, id), Lookup(t', id), PreSendGate, now)
  {
  }

  lemma UnchangedRows(t: Sends, writer: SendStatusWriter, now: int)
    ensures forall id :: SameExcept(t, t, id) && RowMove(Lookup(t, id), Lookup(t, id), writer, now)
  {
  }

  lemma StepMovesRow(d: NameDigest, w: World, s: Step, id: string)
    requires LiveClaim(d, w, s)
    ensures RowMove(Row(w, id), Row(Next(d, w, s), id), WriterOf(s), w.now)
  {
    hide Next;
    StepMovesTouchedRow(d, w, s);
  }

  lemma ClockMovesForward(d: NameDigest, w: World, s: Step)
    ensures Next(d, w, s).now >= w.now
  {
  }

  // ---------- the matrix is kept, and ends stay ends ----------

  lemma MoveIsEdge(before: SendRow, after: SendRow, writer: SendStatusWriter, now: int)
    requires RowMove(Some(before), Some(after), writer, now)
    ensures EdgeOrStutter(before.status, after.status, writer)
    ensures after.key == before.key && after.queuedAt == before.queuedAt
    ensures before.status == Sent || before.status == Failed ==> after == before
  {
    if before.status != after.status {
      assert IsAllowedTransition(before.status, after.status) by {
        match before.status
        case Dispatching =>
          assert SendStatusTransitions(Dispatching)[if after.status == Sent then 0 else if after.status == Failed then 1 else 2].to == after.status;
        case Reconciling =>
          assert SendStatusTransitions(Reconciling)[if after.status == Sent then 0 else 1].to == after.status;
        case Unknown =>
          assert SendStatusTransitions(Unknown)[0].to == after.status;
      }
      AllowedIffSomeoneWrites(before.status, after.status);
    }
  }

  /**
   * In every run whose records are on live claims, each change of a row's status is an edge of the
   * matrix made by a writer listed for it; rows appear only as `dispatching` or `excluded`, and only
   * a `dispatching` row is ever removed.
   */
  lemma EveryStatusChangeIsAnEdge(d: NameDigest, w: World, steps: seq<Step>, i: nat, id: string)
    requires AllClaimsLive(d, w, steps) && i < |steps|
    ensures var before := Row(Exec(d, w, steps[..i]), id);
            var after := Row(Exec(d, w, steps[..i + 1]), id);
            && (before.Some? && after.Some? ==>
                  EdgeOrStutter(before.value.status, after.value.status, WriterOf(steps[i])))
            && (before.None? && after.Some? ==> after.value.status == Dispatching || after.value.status == Excluded)
            && (before.Some? && after.None? ==> before.value.status == Dispatching)
  {
    hide Exec, Next, LiveClaim, AllClaimsLive, RowMove;
    var at := Exec(d, w, steps[..i]);
    StepAt(d, w, steps, i);
    StepMovesRow(d, at, steps[i], id);
    MoveKeepsMatrix(Row(at, id), Row(Next(d, at, steps[i]), id), WriterOf(steps[i]), at.now);
  }

  lemma StepAt(d: NameDigest, w: World, steps: seq<Step>, i: nat)
    requires AllClaimsLive(d, w, steps) && i < |steps|
    ensures LiveClaim(d, Exec(d, w, steps[..i]), steps[i])
    ensures Exec(d, w, steps[..i + 1]) == Next(d, Exec(d, w, steps[..i]), steps[i])
  {
    hide Exec, Next, LiveClaim;
    ExecLast(d, w, steps[..i + 1]);
    assert steps[..i + 1][..i] == steps[..i];
  }

  lemma MoveKeepsMatrix(before: Option<SendRow>, after: Option<SendRow>, writer: SendStatusWriter, now: int)
    requires RowMove(before, after, writer, now)
    ensures before.Some? && after.Some? ==> EdgeOrStutter(before.value.status, after.value.status, writer)
    ensures before.None? && after.Some? ==> after.value.status == Dispatching || after.value.status == Excluded
    ensures before.Some? && after.None? ==> before.value.status == Dispatching
  {
    if before.Some? && after.Some? {
      MoveIsEdge(before.value, after.value, writer, now);
    }
  }

  predicate Settled(row: Option<SendRow>) {
    row.Some? && row.value.status != Dispatching
  }

  lemma SettledStep(d: NameDigest, w: World, s: Step, id: string)
    requires LiveClaim(d, w, s) && Settled(Row(w, id))
    ensures var after := Row(Next(d, w, s), id);
            && Settled(after)
            && (Row(w, id).value.status in {Sent, Failed} ==> after == Row(w, id))
            && (Row(w, id).value.status == Excluded <==> after.value.status == Excluded)
  {
    hide Next, LiveClaim;
    StepMovesRow(d, w, s, id);
  }

  /**
   * Once terminal or ambiguous a row is never removed or reopened; an `excluded` row stays `excluded`,
   * and a `sent` or `failed` row never changes at all.
   */
  lemma {:induction false} SettledForever(d: NameDigest, w: World, steps: seq<Step>, id: string)
    requires AllClaimsLive(d, w, steps) && Settled(Row(w, id))
    ensures Settled(Row(Exec(d, w, steps), id))
    ensures Row(w, id).value.status in {Sent, Failed} ==> Row(Exec(d, w, steps), id) == Row(w, id)
    ensures Row(w, id).value.status == Excluded <==> Row(Exec(d, w, steps), id).value.status == Excluded
    decreases |steps|
  {
    hide Exec, Next, LiveClaim, AllClaimsLive;
    if steps == [] {
      NoSteps(d, w);
    } else {
      var n := |steps| - 1;
      LastStep(d, w, steps);
      SettledForever(d, w, steps[..n], id);
      SettledStep(d, Exec(d, w, steps[..n]), steps[n], id);
    }
  }

  // ---------- conservation of the permission to send ----------

  /** The gate answers this step with a fresh permission to send for `id`. */
  predicate Proceeding(d: NameDigest, w: World, s: Step, id: string) {
    s.Claim? && Enabled(d, w, s) && DeriveSendId(d, s.key) == id && ClaimAnswer(w.db, id, s.key, s.decision) == ClaimProceed(id)
  }

  /** This step takes the permission for `id` back by deleting the claimed row. */
  predicate Releasing(d: NameDigest, w: World, s: Step, id: string) {
    && s.Finish? && Enabled(d, w, s) && s.outcome.Released? && DeriveSendId(d, w.held[s.worker].key) == id
    && id in w.db.sends && w.db.sends[id].status == Dispatching
  }

  function ProceedCount(d: NameDigest, w: World, steps: seq<Step>, id: string): nat {
    if steps == [] then 0
    else
      var n := |steps| - 1;
      ProceedCount(d, w, steps[..n], id) + if Proceeding(d, Exec(d, w, steps[..n]), steps[n], id) then 1 else 0
  }

  function ReleaseCount(d: NameDigest, w: World, steps: seq<Step>, id: string): nat {
    if steps == [] then 0
    else
      var n := |steps| - 1;
      ReleaseCount(d, w, steps[..n], id) + if Releasing(d, Exec(d, w, steps[..n]), steps[n], id) then 1 else 0
  }

  /** One when the intent has a row that is not `excluded`, otherwise zero. */
  function Outstanding(w: World, id: string): nat {
    if id in w.db.sends && w.db.sends[id].status != Excluded then 1 else 0
  }

  /** Where an attempt's row is. */
  function HeldId(d: NameDigest, w: World, worker: string): string
    requires worker in w.held
  {
    DeriveSendId(d, w.held[worker].key)
  }

  /** Each attempt has a row of its own, which nobody but the reconciler can have moved on meanwhile. */
  ghost predicate HeldRows(d: NameDigest, w: World) {
    && (forall v :: v in w.held ==>
          HeldId(d, w, v) in w.db.sends && w.db.sends[HeldId(d, w, v)].status in InHand)
    && (forall u, v :: u in w.held && v in w.held && HeldId(d, w, u) == HeldId(d, w, v) ==> u == v)
  }

  /** Attempts are the old ones, less a finished one, and perhaps one that has just put its row there. */
  lemma HeldAfter(d: NameDigest, w: World, s: Step, v: string)
    requires v in Next(d, w, s).held
    ensures var w' := Next(d, w, s);
            || (v in w.held && w'.held[v] == w.held[v] && (s.Finish? && Enabled(d, w, s) ==> s.worker != v))
            || (v !in w.held && s.Claim? && s.worker == v && HeldId(d, w', v) !in w.db.sends &&
                HeldId(d, w', v) in w'.db.sends && w'.db.sends[HeldId(d, w', v)].status == Dispatching)
  {
    hide FinishTx, ResolveTx, MayClaim;
  }

  const InHand: set<SendStatus> := {Dispatching, Reconciling, Unknown, Sent}

  /** Only its holder removes a row or makes it `failed`. */
  lemma OthersKeepInHand(d: NameDigest, w: World, s: Step, id: string)
    requires Row(w, id).Some? && Row(w, id).value.status in InHand
    requires s.Finish? && Enabled(d, w, s) ==> HeldId(d, w, s.worker) != id
    ensures Row(Next(d, w, s), id).Some? && Row(Next(d, w, s), id).value.status in InHand
  {
    hide CountIn, MayClaim;
  }

  lemma HeldRowsStep(d: NameDigest, w: World, s: Step)
    requires HeldRows(d, w)
    ensures HeldRows(d, Next(d, w, s))
  {
    hide Next, Enabled;
    var w' := Next(d, w, s);
    forall v | v in w'.held ensures HeldId(d, w', v) in w'.db.sends && w'.db.sends[HeldId(d, w', v)].status in InHand {
      HeldAfter(d, w, s, v);
      if v in w.held {
        FinisherInHand(d, w, s);
        OthersKeepInHand(d, w, s, HeldId(d, w, v));
      }
    }
    forall u, v | u in w'.held && v in w'.held && HeldId(d, w', u) == HeldId(d, w', v) ensures u == v {
      HeldAfter(d, w, s, u);
      HeldAfter(d, w, s, v);
    }
  }

  lemma FinisherInHand(d: NameDigest, w: World, s: Step)
    ensures s.Finish? && Enabled(d, w, s) ==> s.worker in w.held
  {
  }

  /**
   * In every run, whatever the clock: at most one attempt at a time holds the permission for an intent,
   * and the row it was given for is still there.
   */
  lemma {:induction false} EveryAttemptKeepsItsRow(d: NameDigest, w: World, steps: seq<Step>)
    requires HeldRows(d, w)
    ensures HeldRows(d, Exec(d, w, steps))
    decreases |steps|
  {
    hide Next, HeldRows;
    if steps != [] {
      var n := |steps| - 1;
      EveryAttemptKeepsItsRow(d, w, steps[..n]);
      HeldRowsStep(d, Exec(d, w, steps[..n]), steps[n]);
    }
  }

  predicate PresenceMove(before: Option<SendRow>, after: Option<SendRow>, proceeding: bool, releasing: bool) {
    && (proceeding <==> before.None? && after.Some? && after.value.status == Dispatching)
    && (releasing <==> before.Some? && after.None?)
    && (before.None? && after.Some? ==> after.value.status in {Dispatching, Excluded})
    && (Settled(before) ==> Settled(after))
  }

  lemma ClaimPresence(d: NameDigest, w: World, s: Step, id: string)
    requires s.Claim? && Enabled(d, w, s)
    ensures PresenceMove(Row(w, id), Row(Next(d, w, s), id), Proceeding(d, w, s, id), Releasing(d, w, s, id))
  {
    hide MayClaim;
  }

  lemma FinishPresence(d: NameDigest, w: World, s: Step, id: string)
    requires s.Finish? && Enabled(d, w, s)
    ensures PresenceMove(Row(w, id), Row(Next(d, w, s), id), Proceeding(d, w, s, id), Releasing(d, w, s, id))
  {
    hide CountIn;
  }

  /** A row comes into flight exactly by a fresh permission and disappears exactly by a release. */
  lemma PresenceChanges(d: NameDigest, w: World, s: Step, id: string)
    ensures PresenceMove(Row(w, id), Row(Next(d, w, s), id), Proceeding(d, w, s, id), Releasing(d, w, s, id))
  {
    hide CountIn;
    if s.Claim? && Enabled(d, w, s) {
      ClaimPresence(d, w, s, id);
    } else if s.Finish? && Enabled(d, w, s) {
      FinishPresence(d, w, s, id);
    } else {
      hide Next;
      StepMovesRow(d, w, s, id);
    }
  }

  lemma ExclusionIsKept(d: NameDigest, w: World, s: Step, id: string)
    requires HeldRows(d, w)
    ensures var before, after := Row(w, id), Row(Next(d, w, s), id);
            before.Some? && after.Some? ==> (before.value.status == Excluded <==> after.value.status == Excluded)
  {
    if s.Finish? && s.worker in w.held {
      assert HeldId(d, w, s.worker) in w.db.sends;
    }
  }

  lemma OneStepConserves(d: NameDigest, w: World, s: Step, id: string)
    requires HeldRows(d, w)
    ensures Outstanding(Next(d, w, s), id) + (if Releasing(d, w, s, id) then 1 else 0)
         == Outstanding(w, id) + (if Proceeding(d, w, s, id) then 1 else 0)
  {
    PresenceChanges(d, w, s, id);
    ExclusionIsKept(d, w, s, id);
    hide Next, Proceeding, Releasing, HeldRows;
  }

  /**
   * Permissions granted minus permissions taken back is exactly what the ledger still shows, over any
   * run: neither the clock nor the order of the workers is assumed.
   */
  lemma {:induction false} SendPermissionIsConserved(d: NameDigest, w: World, steps: seq<Step>, id: string)
    requires HeldRows(d, w)
    ensures ProceedCount(d, w, steps, id) + Outstanding(w, id)
         == ReleaseCount(d, w, steps, id) + Outstanding(Exec(d, w, steps), id)
    decreases |steps|
  {
    hide Next, Outstanding, Proceeding, Releasing, HeldRows;
    if steps != [] {
      var n := |steps| - 1;
      SendPermissionIsConserved(d, w, steps[..n], id);
      EveryAttemptKeepsItsRow(d, w, steps[..n]);
      OneStepConserves(d, Exec(d, w, steps[..n]), steps[n], id);
    }
  }

  /** Without a release there is at most one permission, and none where the row is already settled. */
  lemma NoSecondSendWithoutRelease(d: NameDigest, w: World, steps: seq<Step>, id: string)
    requires HeldRows(d, w)
    ensures ReleaseCount(d, w, steps, id) == 0 ==> ProceedCount(d, w, steps, id) + Outstanding(w, id) <= 1
    ensures Settled(Row(w, id)) ==> ProceedCount(d, w, steps, id) == 0
  {
    hide Exec, Next, ProceedCount, ReleaseCount, HeldRows;
    SendPermissionIsConserved(d, w, steps, id);
    if Settled(Row(w, id)) {
      NoReleaseOnceSettled(d, w, steps, id);
      if w.db.sends[id].status == Excluded {
        ExcludedStays(d, w, steps, id);
      }
    }
  }

  /** A settled row is never removed, so its permission never comes back. */
  lemma {:induction false} NoReleaseOnceSettled(d: NameDigest, w: World, steps: seq<Step>, id: string)
    requires Settled(Row(w, id))
    ensures ReleaseCount(d, w, steps, id) == 0 && Settled(Row(Exec(d, w, steps), id))
    decreases |steps|
  {
    hide Next;
    if steps != [] {
      var n := |steps| - 1;
      NoReleaseOnceSettled(d, w, steps[..n], id);
      PresenceChanges(d, Exec(d, w, steps[..n]), steps[n], id);
    }
  }

  lemma {:induction false} ExcludedStays(d: NameDigest, w: World, steps: seq<Step>, id: string)
    requires HeldRows(d, w) && Row(w, id).Some? && Row(w, id).value.status == Excluded
    ensures Row(Exec(d, w, steps), id).Some? && Row(Exec(d, w, steps), id).value.status == Excluded
    decreases |steps|
  {
    hide Next, HeldRows;
    if steps != [] {
      var n := |steps| - 1;
      ExcludedStays(d, w, steps[..n], id);
      EveryAttemptKeepsItsRow(d, w, steps[..n]);
      PresenceChanges(d, Exec(d, w, steps[..n]), steps[n], id);
      ExclusionIsKept(d, Exec(d, w, steps[..n]), steps[n], id);
    }
  }

  // ---------- timestamps ----------

  predicate StampedRow(row: SendRow, now: int) {
    && row.queuedAt <= now
    && (row.sentAt.Some? <==> row.status == Sent)
    && (row.sentAt.Some? ==> row.sentAt.value <= now)
    && (row.reconcilingSince.Some? <==> Ambiguous(row.status))
    && (row.reconcilingSince.Some? ==>
          && row.queuedAt <= row.reconcilingSince.value <= now
          && (row.dispatchedAt.Some? ==> row.dispatchedAt.value <= row.reconcilingSince.value))
    && (row.dispatchedAt.Some? ==> row.dispatchedAt.value <= now && row.status != Dispatching && row.status != Excluded)
  }

  ghost predicate Stamped(w: World) {
    forall id :: id in w.db.sends ==> StampedRow(w.db.sends[id], w.now)
  }

  /**
   * At every reachable state `sent_at` is set exactly on `sent` rows and `reconciling_since` exactly
   * on the ambiguous ones, and no recorded time lies in the future.
   */
  lemma {:induction false} StampsAgreeWithStatus(d: NameDigest, w: World, steps: seq<Step>)
    requires Initial(w) && AllClaimsLive(d, w, steps)
    ensures Stamped(Exec(d, w, steps))
    decreases |steps|
  {
    hide Exec, Next, LiveClaim, AllClaimsLive;
    if steps == [] {
      NoSteps(d, w);
    } else {
      var n := |steps| - 1;
      LastStep(d, w, steps);
      StampsAgreeWithStatus(d, w, steps[..n]);
      StampsStep(d, Exec(d, w, steps[..n]), steps[n]);
    }
  }

  lemma StampsStep(d: NameDigest, w: World, s: Step)
    requires Stamped(w) && LiveClaim(d, w, s)
    ensures Stamped(Next(d, w, s))
  {
    hide Next, LiveClaim;
    ClockMovesForward(d, w, s);
    var w' := Next(d, w, s);
    forall id | id in w'.db.sends ensures StampedRow(w'.db.sends[id], w'.now) {
      StepMovesRow(d, w, s, id);
      MoveKeepsStamps(Row(w, id), w'.db.sends[id], WriterOf(s), w.now, w'.now);
    }
  }

  lemma MoveKeepsStamps(before: Option<SendRow>, after: SendRow, writer: SendStatusWriter, now: int, later: int)
    requires before.Some? ==> StampedRow(before.value, now)
    requires RowMove(before, Some(after), writer, now) && now <= later
    ensures StampedRow(after, later)
  {
  }

  /**
   * A send resolved by the reconciler is dated back: to the start of its provider call if that was
   * recorded, else to when it became ambiguous; in either case no later than the ambiguity began.
   */
  lemma ResolutionIsBackDated(d: NameDigest, w: World, id: string, hasEvidence: bool)
    requires Stamped(w)
    requires var w' := Next(d, w, Reconcile(id, hasEvidence));
             id in w.db.sends && w.db.sends[id].status != Sent && id in w'.db.sends && w'.db.sends[id].status == Sent
    ensures var row := w.db.sends[id];
            var sentAt := Next(d, w, Reconcile(id, hasEvidence)).db.sends[id].sentAt;
            && hasEvidence && row.reconcilingSince.Some?
            && sentAt == (if row.dispatchedAt.Some? then row.dispatchedAt else row.reconcilingSince)
            && sentAt.value <= row.reconcilingSince.value
  {
    StepMovesRow(d, w, Reconcile(id, hasEvidence), id);
  }

  // ---------- exactly when a record keeps the matrix ----------

  function Recorded(outcome: Outcome): SendStatus
    requires !outcome.Released?
  {
    match outcome
    case Accepted(_) => Sent
    case Rejected => Failed
    case AmbiguousThrow => Reconciling
  }

  /** A record that finds its row in another's hands writes the status that is there already, or none. */
  predicate RecordInOrder(d: NameDigest, w: World, s: Step) {
    s.Finish? && Enabled(d, w, s) && !s.outcome.Released? ==>
      var row := Row(w, DeriveSendId(d, w.held[s.worker].key));
      row.Some? ==> row.value.status == Dispatching || row.value.status == Recorded(s.outcome)
  }

  ghost predicate KeepsMatrix(d: NameDigest, w: World, s: Step) {
    forall id ::
      var before, after := Row(w, id), Row(Next(d, w, s), id);
      before.Some? && after.Some? ==> EdgeOrStutter(before.value.status, after.value.status, WriterOf(s))
  }

  /** Of the statuses a worker records, each is an edge for it from `dispatching` only. */
  lemma WorkerEdges(before: SendStatus, after: SendStatus)
    requires Recordable(after)
    ensures EdgeOrStutter(before, after, SendWorker) <==> before == Dispatching || before == after
  {
    AllowedIffSomeoneWrites(before, after);
    if before == Dispatching {
      assert SendStatusTransitions(Dispatching)[if after == Sent then 0 else if after == Failed then 1 else 2].to == after;
    }
  }

  /** The effect of a record on its row. */
  lemma RecordAt(d: NameDigest, w: World, s: Step)
    requires s.Finish? && Enabled(d, w, s) && !s.outcome.Released?
    ensures var id := DeriveSendId(d, w.held[s.worker].key);
            var before, after := Row(w, id), Row(Next(d, w, s), id);
            && SameExcept(w.db.sends, Next(d, w, s).db.sends, id)
            && (before.None? <==> after.None?)
            && (before.Some? ==> after.value.status == Recorded(s.outcome) && after.value.key == before.value.key)
  {
    hide CountIn;
  }

  /** Whoever acts, one row changes, and it stays the row of its intent. */
  lemma OneRowChanges(d: NameDigest, w: World, s: Step)
    ensures var id, t' := Touched(d, w, s), Next(d, w, s).db.sends;
            SameExcept(w.db.sends, t', id) && (id in w.db.sends && id in t' ==> t'[id].key == w.db.sends[id].key)
  {
    hide Next, RowMove;
    if s.Finish? && Enabled(d, w, s) && !s.outcome.Released? {
      RecordAt(d, w, s);
    } else {
      var id, t' := Touched(d, w, s), Next(d, w, s).db.sends;
      StepMovesTouchedRow(d, w, s);
      if id in w.db.sends && id in t' {
        MoveIsEdge(w.db.sends[id], t'[id], WriterOf(s), w.now);
      }
    }
  }

  lemma StepKeepsMatrixIff(d: NameDigest, w: World, s: Step)
    ensures KeepsMatrix(d, w, s) <==> RecordInOrder(d, w, s)
  {
    hide Next, EdgeOrStutter, RowMove;
    if s.Finish? && Enabled(d, w, s) && !s.outcome.Released? {
      var id := DeriveSendId(d, w.held[s.worker].key);
      RecordAt(d, w, s);
      forall other | other != id && Row(w, other).Some? ensures EdgeOrStutter(w.db.sends[other].status, w.db.sends[other].status, WriterOf(s)) {
        NoChange(w.db.sends[other].status, WriterOf(s));
      }
      if Row(w, id).Some? {
        WorkerEdges(w.db.sends[id].status, Recorded(s.outcome));
        assert Row(Next(d, w, s), id).Some?;
      }
    } else {
      forall id ensures var before, after := Row(w, id), Row(Next(d, w, s), id);
                        before.Some? && after.Some? ==> EdgeOrStutter(before.value.status, after.value.status, WriterOf(s)) {
        StepMovesRow(d, w, s, id);
        MoveKeepsMatrix(Row(w, id), Row(Next(d, w, s), id), WriterOf(s), w.now);
      }
    }
  }

  lemma NoChange(status: SendStatus, writer: SendStatusWriter)
    ensures EdgeOrStutter(status, status, writer)
  {
  }

  /**
   * In any run at all, with no assumption on clocks: every change of status is an edge for its writer if
   * and only if each record finds its row `dispatching`, or already at the status it records.
   */
  lemma MatrixIsKeptIff(d: NameDigest, w: World, steps: seq<Step>)
    ensures (forall i :: 0 <= i < |steps| ==> KeepsMatrix(d, Exec(d, w, steps[..i]), steps[i]))
       <==> (forall i :: 0 <= i < |steps| ==> RecordInOrder(d, Exec(d, w, steps[..i]), steps[i]))
  {
    hide Exec, KeepsMatrix, RecordInOrder;
    forall i | 0 <= i < |steps|
      ensures KeepsMatrix(d, Exec(d, w, steps[..i]), steps[i]) <==> RecordInOrder(d, Exec(d, w, steps[..i]), steps[i])
    {
      StepKeepsMatrixIff(d, Exec(d, w, steps[..i]), steps[i]);
    }
  }

  const TwoWorkers: seq<Step> := [
    Claim("first", FlowKey("w", "r", "n"), "p", Sendable, 0),
    Claim("second", FlowKey("w", "r", "n"), "p", Sendable, 0),
    Finish("first", Rejected, 0, 0)
  ]

  /**
   * The record statement alone does not keep the matrix: if a second delivery finds the first one's
   * claim, hands it to the reconciler, and the first worker then records its answer after all, the
   * row goes from `reconciling` to `failed`, which no one may write.
   */
  lemma RecordWithoutLiveClaimBreaksTheMatrix(d: NameDigest)
    requires d.Serves(FlowKey("w", "r", "n"))
    ensures var w := World(Db(map[], map[]), map[], 0);
            var id := DeriveSendId(d, FlowKey("w", "r", "n"));
            && Row(Exec(d, w, TwoWorkers[..2]), id).Some? && Row(Exec(d, w, TwoWorkers), id).Some?
            && Row(Exec(d, w, TwoWorkers[..2]), id).value.status == Reconciling
            && Row(Exec(d, w, TwoWorkers), id).value.status == Failed
            && !IsAllowedTransition(Reconciling, Failed)
            && !RecordInOrder(d, Exec(d, w, TwoWorkers[..2]), TwoWorkers[2])
  {
    var w := World(Db(map[], map[]), map[], 0);
    var key := FlowKey("w", "r", "n");
    var id := DeriveSendId(d, key);
    var w1 := Next(d, w, TwoWorkers[0]);
    var w2 := Next(d, w1, TwoWorkers[1]);
    assert TwoWorkers[..1][..0] == [] && TwoWorkers[..2][..1] == TwoWorkers[..1] && TwoWorkers[..3] == TwoWorkers;
    assert TwoWorkers[..3][..2] == TwoWorkers[..2];
    assert Exec(d, w, TwoWorkers[..1]) == w1;
    assert Exec(d, w, TwoWorkers[..2]) == w2;
    assert d.Serves(key);
    assert w1.held["first"].key == key && w1.db.sends[id].status == Dispatching;
    assert w2.db.sends[id].status == Reconciling && "first" in w2.held;
  }
}
