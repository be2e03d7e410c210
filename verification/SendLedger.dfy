/**
 * The send ledger. Each SQL statement is a function on the two tables it touches; the class holds the
 * tables and its methods are those statements, each proved to be its function. The transactions that
 * the send worker and the reconciler compose from them follow at the end.
 */
module SendLedger {
  import opened Options
  import opened SendStateMachine
  import opened SendId
  import Reconciler

  datatype SendRow = SendRow(
    key: SendKey,
    contactId: string,
    status: SendStatus,
    exclusionReason: Option<string>,
    providerMessageId: Option<string>,
    queuedAt: int,
    sentAt: Option<int>,
    reconcilingSince: Option<int>,
    dispatchedAt: Option<int>,
    dispatchDurationMs: Option<int>)

  datatype CampaignStatus = Draft | Scheduled | Sending | CampaignSent | Canceled

  datatype Campaign = Campaign(
    status: CampaignStatus,
    fanOutComplete: bool,
    sendableTotal: Option<nat>,
    excludedTotal: Option<nat>,
    sentCount: nat,
    failedCount: nat)

  type Sends = map<string, SendRow>
  type Campaigns = map<string, Campaign>
  datatype Db = Db(sends: Sends, campaigns: Campaigns)

  // ---------- the statements on `sends` ----------

  function FreshRow(key: SendKey, contactId: string, status: SendStatus, reason: Option<string>, now: int): SendRow {
    SendRow(key, contactId, status, reason, None, now, None, None, None, None)
  }

  datatype GateResult = Skipped | Proceed(sendId: string, interrupted: bool)

  /** What the gate answers when the intent's id is `id`. */
  function GateAnswer(t: Sends, id: string): GateResult {
    if id !in t then Proceed(id, false)
    else if t[id].status == Dispatching then Proceed(id, true)
    else Skipped
  }

  function GateInsert(t: Sends, id: string, key: SendKey, contactId: string, now: int): Sends {
    if id in t then t else t[id := FreshRow(key, contactId, Dispatching, None, now)]
  }

  function ReleaseClaim(t: Sends, id: string): Sends {
    if id in t && t[id].status == Dispatching then t - {id} else t
  }

  datatype SendResult = SendResult(
    status: SendStatus, providerMessageId: Option<string>, dispatchedAt: Option<int>, dispatchDurationMs: Option<int>)

  predicate Recordable(status: SendStatus) {
    status == Sent || status == Failed || status == Reconciling
  }

  /** The unguarded UPDATE: whatever status the row has, it takes the new one. */
  function RecordRow(row: SendRow, result: SendResult, now: int): SendRow {
    row.(status := result.status,
         providerMessageId := result.providerMessageId,
         sentAt := if result.status == Sent then Some(now) else row.sentAt,
         reconcilingSince := if result.status == Reconciling then Coalesce(row.reconcilingSince, Some(now)) else row.reconcilingSince,
         dispatchedAt := Coalesce(result.dispatchedAt, row.dispatchedAt),
         dispatchDurationMs := Coalesce(result.dispatchDurationMs, row.dispatchDurationMs))
  }

  function RecordSend(t: Sends, id: string, result: SendResult, now: int): Sends {
    if id in t then t[id := RecordRow(t[id], result, now)] else t
  }

  predicate Ambiguous(s: SendStatus) { s == Reconciling || s == Unknown }

  function ResolvedSentRow(row: SendRow): SendRow {
    row.(status := Sent,
         sentAt := Coalesce(row.dispatchedAt, Coalesce(row.reconcilingSince, Some(row.queuedAt))),
         reconcilingSince := None)
  }

  /** `toSent` is the verdict `resolve_sent`, otherwise it is `resolve_unknown`. */
  function ResolveSend(t: Sends, id: string, toSent: bool): Sends {
    if id in t && Ambiguous(t[id].status)
    then t[id := if toSent then ResolvedSentRow(t[id]) else t[id].(status := Unknown)]
    else t
  }

  function SweptRow(row: SendRow, now: int): SendRow {
    row.(status := Reconciling, reconcilingSince := Coalesce(row.reconcilingSince, Some(now)))
  }

  function SweepStale(t: Sends, id: string, now: int): Sends {
    if id in t && t[id].status == Dispatching then t[id := SweptRow(t[id], now)] else t
  }

  function Exclude(t: Sends, id: string, key: SendKey, contactId: string, reason: string, now: int): Sends {
    if id !in t then t[id := FreshRow(key, contactId, Excluded, Some(reason), now)]
    else if t[id].status == Excluded then t[id := t[id].(exclusionReason := Some(reason))]
    else t
  }

  // ---------- the statements on `campaigns` ----------

  predicate OfCampaign(row: SendRow, campaignId: string) {
    row.key.CampaignKey? && row.key.campaignId == campaignId
  }

  /** The ids of a campaign's rows whose status is one of `statuses`. */
  function RowsIn(t: Sends, campaignId: string, statuses: set<SendStatus>): set<string> {
    set id | id in t && OfCampaign(t[id], campaignId) && t[id].status in statuses
  }

  function CountIn(t: Sends, campaignId: string, statuses: set<SendStatus>): nat {
    |RowsIn(t, campaignId, statuses)|
  }

  function Incremented(c: Campaign, sent: bool): Campaign {
    if sent then c.(sentCount := c.sentCount + 1) else c.(failedCount := c.failedCount + 1)
  }

  /** Refuses once the campaign has left `sending`. */
  function IncrementCounter(cs: Campaigns, campaignId: string, sent: bool): Campaigns {
    if campaignId in cs && cs[campaignId].status == Sending
    then cs[campaignId := Incremented(cs[campaignId], sent)] else cs
  }

  /** The reconciler's path, without the status guard. */
  function BackfillCounter(cs: Campaigns, campaignId: string, sent: bool): Campaigns {
    if campaignId in cs then cs[campaignId := Incremented(cs[campaignId], sent)] else cs
  }

  predicate Completes(db: Db, campaignId: string) {
    && campaignId in db.campaigns
    && var c := db.campaigns[campaignId];
       && c.status == Sending
       && c.fanOutComplete
       && c.sendableTotal.Some?
       && c.sentCount + c.failedCount + CountIn(db.sends, campaignId, {Reconciling, Unknown}) >= c.sendableTotal.value
  }

  function TryComplete(db: Db, campaignId: string): Db {
    if Completes(db, campaignId)
    then db.(campaigns := db.campaigns[campaignId := db.campaigns[campaignId].(status := CampaignSent)])
    else db
  }

  // ---------- the transactions ----------

  /** What the pre-send gate and the soft-delete check decided, before the ledger is touched. */
  datatype PreSendDecision = Sendable | NotSendable(reason: string)

  datatype ClaimResult = ClaimProceed(sendId: string) | ClaimExcluded(reason: string) | ClaimSkipped | ClaimReconciling(sendId: string)

  /** A campaign that is not `sending` never claims; a flow send has no campaign to ask. */
  predicate MayClaim(db: Db, key: SendKey) {
    key.CampaignKey? ==> key.campaignId in db.campaigns && db.campaigns[key.campaignId].status == Sending
  }

  const InterruptedResult := SendResult(Reconciling, None, None, None)

  /** Unit 1 of a dispatch: gate, claim, and the hand-over of an interrupted claim to the reconciler. */
  function ClaimTx(db: Db, id: string, key: SendKey, contactId: string, decision: PreSendDecision, now: int): Db {
    if !MayClaim(db, key) then db
    else match decision
      case NotSendable(reason) => db.(sends := Exclude(db.sends, id, key, contactId, reason, now))
      case Sendable =>
        var t := GateInsert(db.sends, id, key, contactId, now);
        if GateAnswer(db.sends, id) == Proceed(id, true) then db.(sends := RecordSend(t, id, InterruptedResult, now))
        else db.(sends := t)
  }

  function ClaimAnswer(db: Db, id: string, key: SendKey, decision: PreSendDecision): ClaimResult {
    if !MayClaim(db, key) then ClaimSkipped
    else match decision
      case NotSendable(reason) => ClaimExcluded(reason)
      case Sendable =>
        match GateAnswer(db.sends, id)
        case Skipped => ClaimSkipped
        case Proceed(sendId, interrupted) => if interrupted then ClaimReconciling(sendId) else ClaimProceed(sendId)
  }

  /**
   * How an attempt that holds a claim ends: a 2xx answer, a permanent 4xx answer, an ambiguous throw,
   * or one of the releasing exits (no lane slot, no rate token, 429/5xx, a provably unsent request).
   */
  datatype Outcome = Accepted(messageId: string) | Rejected | AmbiguousThrow | Released

  function OutcomeResult(outcome: Outcome, dispatchedAt: int, durationMs: int): SendResult
    requires !outcome.Released?
  {
    match outcome
    case Accepted(m) => SendResult(Sent, Some(m), Some(dispatchedAt), Some(durationMs))
    case Rejected => SendResult(Failed, None, Some(dispatchedAt), Some(durationMs))
    case AmbiguousThrow => SendResult(Reconciling, None, Some(dispatchedAt), Some(durationMs))
  }

  /** Unit 3 of a dispatch; the counters move only for a campaign send with a definite answer. */
  function FinishTx(db: Db, id: string, key: SendKey, outcome: Outcome, dispatchedAt: int, durationMs: int, now: int): Db {
    if outcome.Released? then db.(sends := ReleaseClaim(db.sends, id))
    else
      var recorded := db.(sends := RecordSend(db.sends, id, OutcomeResult(outcome, dispatchedAt, durationMs), now));
      if outcome.AmbiguousThrow? || key.FlowKey? then recorded
      else TryComplete(recorded.(campaigns := IncrementCounter(db.campaigns, key.campaignId, outcome.Accepted?)), key.campaignId)
  }

  function VerdictFor(t: Sends, id: string, hasEvidence: bool, now: int): Reconciler.ReconcileVerdict
    requires id in t
  {
    Reconciler.ClassifyReconcilableSend(
      Reconciler.ReconcileInput(t[id].status, t[id].queuedAt, t[id].reconcilingSince, hasEvidence, now))
  }

  /** One candidate of a reconciler tick, under the row's lock. */
  function ResolveTx(db: Db, id: string, hasEvidence: bool, now: int): Db {
    if id !in db.sends then db
    else match VerdictFor(db.sends, id, hasEvidence, now)
      case Hold => db
      case SweepToReconciling => db.(sends := SweepStale(db.sends, id, now))
      case ResolveUnknown => db.(sends := ResolveSend(db.sends, id, false))
      case ResolveSent =>
        var resolved := db.(sends := ResolveSend(db.sends, id, true));
        var key := db.sends[id].key;
        if key.FlowKey? then resolved
        else TryComplete(resolved.(campaigns := BackfillCounter(db.campaigns, key.campaignId, true)), key.campaignId)
  }

  /** The kickoff's last write: the frozen totals, and completion of an empty audience. */
  function FanOutTx(db: Db, campaignId: string, sendable: nat, excluded: nat): Db {
    if campaignId !in db.campaigns || db.campaigns[campaignId].fanOutComplete then db
    else
      var c := db.campaigns[campaignId];
      var totals := c.(sendableTotal := Some(sendable), excludedTotal := Some(excluded), fanOutComplete := true);
      if sendable == 0 then
        if c.status == Sending then db.(campaigns := db.campaigns[campaignId := totals.(status := CampaignSent)]) else db
      else TryComplete(db.(campaigns := db.campaigns[campaignId := totals]), campaignId)
  }

  // ---------- the tables in place ----------

  class Ledger {
    var sends: Sends
    var campaigns: Campaigns
    const digest: NameDigest

    constructor (digest: NameDigest)
      requires CollisionFree(digest)
      ensures Valid() && sends == map[] && campaigns == map[] && this.digest == digest
    {
      this.digest := digest;
      sends, campaigns := map[], map[];
    }

    /** Every row sits under the id its intent derives; so the unique constraints on intents hold. */
    ghost predicate Valid()
      reads this
    {
      && CollisionFree(digest)
      && (forall id :: id in sends ==> digest.Serves(sends[id].key) && DeriveSendId(digest, sends[id].key) == id)
    }

    function Snapshot(): Db
      reads this
    {
      Db(sends, campaigns)
    }

    /** The row that conflicts with `key` on its unique constraint, found by its key columns. */
    method FindConflict(key: SendKey) returns (found: Option<string>)
      requires Valid() && digest.Serves(key)
      ensures found == if DeriveSendId(digest, key) in sends then Some(DeriveSendId(digest, key)) else None
    {
      var ids := sends.Keys;
      found := None;
      while ids != {}
        invariant ids <= sends.Keys
        invariant forall id :: id in sends && id !in ids ==> sends[id].key != key
        decreases |ids|
      {
        var id :| id in ids;
        if sends[id].key == key {
          return Some(id);
        }
        ids := ids - {id};
      }
      if DeriveSendId(digest, key) in sends {
        SendIdsIdentifyIntents(digest, sends[DeriveSendId(digest, key)].key, key);
      }
    }

    /** The gate of both send kinds; `key` names the unique constraint the insert may conflict on. */
    method DispatchSendGate(key: SendKey, contactId: string, now: int) returns (r: GateResult)
      requires Valid() && digest.Serves(key)
      modifies this`sends
      ensures Valid()
      ensures sends == GateInsert(old(sends), DeriveSendId(digest, key), key, contactId, now)
      ensures r == GateAnswer(old(sends), DeriveSendId(digest, key))
    {
      var derivedId := DeriveSendId(digest, key);
      var existing := FindConflict(key);
      if existing.None? {
        sends := sends[derivedId := FreshRow(key, contactId, Dispatching, None, now)];
        return Proceed(derivedId, false);
      }
      var status := sends[existing.value].status;
      if status == Sent || status == Failed || status == Excluded {
        return Skipped;
      }
      if status == Reconciling || status == Unknown {
        return Skipped;
      }
      return Proceed(existing.value, true);
    }

    method ReleaseDispatchClaim(sendId: string)
      requires Valid()
      modifies this`sends
      ensures Valid() && sends == ReleaseClaim(old(sends), sendId)
    {
      if sendId in sends && sends[sendId].status == Dispatching {
        sends := map id | id in sends && id != sendId :: sends[id];
        assert sends == ReleaseClaim(old(sends), sendId);
      }
    }

    method RecordSendResult(sendId: string, result: SendResult, now: int)
      requires Valid() && Recordable(result.status)
      modifies this`sends
      ensures Valid() && sends == RecordSend(old(sends), sendId, result, now)
    {
      if sendId in sends {
        var row := sends[sendId];
        row := row.(status := result.status, providerMessageId := result.providerMessageId);
        if result.status == Sent {
          row := row.(sentAt := Some(now));
        }
        if result.status == Reconciling && row.reconcilingSince.None? {
          row := row.(reconcilingSince := Some(now));
        }
        if result.dispatchedAt.Some? {
          row := row.(dispatchedAt := result.dispatchedAt);
        }
        if result.dispatchDurationMs.Some? {
          row := row.(dispatchDurationMs := result.dispatchDurationMs);
        }
        sends := sends[sendId := row];
      }
    }

    method ResolveReconcilingSend(sendId: string, toSent: bool) returns (resolved: bool)
      requires Valid()
      modifies this`sends
      ensures Valid() && sends == ResolveSend(old(sends), sendId, toSent)
      ensures resolved <==> sendId in old(sends) && Ambiguous(old(sends)[sendId].status)
    {
      resolved := sendId in sends && (sends[sendId].status == Reconciling || sends[sendId].status == Unknown);
      if resolved {
        var row := sends[sendId];
        if !toSent {
          row := row.(status := Unknown);
        } else {
          var acceptedAt := Coalesce(row.dispatchedAt, Coalesce(row.reconcilingSince, Some(row.queuedAt)));
          row := row.(status := Sent, sentAt := acceptedAt, reconcilingSince := None);
        }
        sends := sends[sendId := row];
      }
    }

    method SweepStaleDispatchingSend(sendId: string, now: int) returns (resolved: bool)
      requires Valid()
      modifies this`sends
      ensures Valid() && sends == SweepStale(old(sends), sendId, now)
      ensures resolved <==> sendId in old(sends) && old(sends)[sendId].status == Dispatching
    {
      resolved := sendId in sends && sends[sendId].status == Dispatching;
      if resolved {
        var row := sends[sendId];
        var since := Coalesce(row.reconcilingSince, Some(now));
        sends := sends[sendId := row.(status := Reconciling, reconcilingSince := since)];
      }
    }

    method RecordExcluded(key: SendKey, contactId: string, reason: string, now: int)
      requires Valid() && digest.Serves(key)
      modifies this`sends
      ensures Valid() && sends == Exclude(old(sends), DeriveSendId(digest, key), key, contactId, reason, now)
    {
      var existing := FindConflict(key);
      if existing.None? {
        sends := sends[DeriveSendId(digest, key) := FreshRow(key, contactId, Excluded, Some(reason), now)];
      } else {
        var row := sends[existing.value];
        if row.status !in {Sent, Dispatching, Failed, Reconciling, Unknown} {
          sends := sends[existing.value := row.(status := Excluded, exclusionReason := Some(reason))];
        }
      }
    }

    method IncrementCampaignSendCounter(campaignId: string, sent: bool)
      modifies this`campaigns
      ensures campaigns == IncrementCounter(old(campaigns), campaignId, sent)
    {
      if campaignId in campaigns && campaigns[campaignId].status == Sending {
        var c := campaigns[campaignId];
        campaigns := campaigns[campaignId := if sent then c.(sentCount := c.sentCount + 1) else c.(failedCount := c.failedCount + 1)];
      }
    }

    method BackfillCampaignSendCounter(campaignId: string, sent: bool)
      modifies this`campaigns
      ensures campaigns == BackfillCounter(old(campaigns), campaignId, sent)
    {
      if campaignId in campaigns {
        var c := campaigns[campaignId];
        campaigns := campaigns[campaignId := if sent then c.(sentCount := c.sentCount + 1) else c.(failedCount := c.failedCount + 1)];
      }
    }

    method TryCompleteCampaign(campaignId: string) returns (completed: bool)
      modifies this`campaigns
      ensures Snapshot() == TryComplete(old(Snapshot()), campaignId)
      ensures completed <==> Completes(old(Snapshot()), campaignId)
    {
      completed := false;
      if campaignId in campaigns && campaigns[campaignId].status == Sending && campaigns[campaignId].fanOutComplete {
        var c := campaigns[campaignId];
        var ambiguous := set id | id in sends && OfCampaign(sends[id], campaignId) && sends[id].status in {Reconciling, Unknown};
        assert ambiguous == RowsIn(sends, campaignId, {Reconciling, Unknown});
        completed := c.sendableTotal.Some? && c.sentCount + c.failedCount + |ambiguous| >= c.sendableTotal.value;
        if completed {
          campaigns := campaigns[campaignId := c.(status := CampaignSent)];
        }
      }
    }

    method ClaimSend(key: SendKey, contactId: string, decision: PreSendDecision, now: int) returns (r: ClaimResult)
      requires Valid() && digest.Serves(key)
      modifies this`sends
      ensures Valid()
      ensures Snapshot() == ClaimTx(old(Snapshot()), DeriveSendId(digest, key), key, contactId, decision, now)
      ensures r == ClaimAnswer(old(Snapshot()), DeriveSendId(digest, key), key, decision)
    {
      if !MayClaim(Snapshot(), key) {
        return ClaimSkipped;
      }
      if decision.NotSendable? {
        RecordExcluded(key, contactId, decision.reason, now);
        return ClaimExcluded(decision.reason);
      }
      var gate := DispatchSendGate(key, contactId, now);
      match gate {
        case Skipped =>
          return ClaimSkipped;
        case Proceed(sendId, interrupted) =>
          if interrupted {
            RecordSendResult(sendId, SendResult(Reconciling, None, None, None), now);
            return ClaimReconciling(sendId);
          }
          return ClaimProceed(sendId);
      }
    }

    method FinishSend(sendId: string, key: SendKey, outcome: Outcome, dispatchedAt: int, durationMs: int, now: int)
      requires Valid()
      modifies this
      ensures Valid()
      ensures Snapshot() == FinishTx(old(Snapshot()), sendId, key, outcome, dispatchedAt, durationMs, now)
    {
      match outcome {
        case Released =>
          ReleaseDispatchClaim(sendId);
        case AmbiguousThrow =>
          RecordSendResult(sendId, SendResult(Reconciling, None, Some(dispatchedAt), Some(durationMs)), now);
        case Rejected =>
          RecordSendResult(sendId, SendResult(Failed, None, Some(dispatchedAt), Some(durationMs)), now);
          if key.CampaignKey? {
            IncrementCampaignSendCounter(key.campaignId, false);
            var _ := TryCompleteCampaign(key.campaignId);
          }
        case Accepted(messageId) =>
          RecordSendResult(sendId, SendResult(Sent, Some(messageId), Some(dispatchedAt), Some(durationMs)), now);
          if key.CampaignKey? {
            IncrementCampaignSendCounter(key.campaignId, true);
            var _ := TryCompleteCampaign(key.campaignId);
          }
      }
    }

    method ResolveOneSend(id: string, hasEvidence: bool, now: int)
      requires Valid()
      modifies this
      ensures Valid()
      ensures Snapshot() == ResolveTx(old(Snapshot()), id, hasEvidence, now)
    {
      if id !in sends || sends[id].status !in {Reconciling, Unknown, Dispatching} {
        return;
      }
      var live := sends[id];
      var verdict := Reconciler.ClassifyReconcilableSend(
        Reconciler.ReconcileInput(live.status, live.queuedAt, live.reconcilingSince, hasEvidence, now));
      match verdict {
        case ResolveSent =>
          var resolved := ResolveReconcilingSend(id, true);
          if resolved && live.key.CampaignKey? {
            BackfillCampaignSendCounter(live.key.campaignId, true);
            var _ := TryCompleteCampaign(live.key.campaignId);
          }
        case ResolveUnknown =>
          var _ := ResolveReconcilingSend(id, false);
        case SweepToReconciling =>
          var _ := SweepStaleDispatchingSend(id, now);
        case Hold =>
      }
    }
  }
}
