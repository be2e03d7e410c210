/**
 * What each step leaves in the columns of a send, column by column, and the time a send is dated to in the
 * end: that of its provider call, however long it stayed ambiguous and whatever happened meanwhile.
 */
module SendRecords {
  import opened Options
  import opened SendStateMachine
  import opened SendId
  import opened SendLedger
  import opened DispatchProtocol
  import opened Reconciler

  // ---------- a claim ----------

  /** Nothing stands in the way of a send: its intent is new, and its campaign, if it has one, is being sent. */
  predicate Free(d: NameDigest, w: World, key: SendKey) {
    DeriveSendId(d, key) !in w.db.sends && match key
      case CampaignKey(_, c, _) => c in w.db.campaigns && w.db.campaigns[c].status == Sending
      case FlowKey(_, _, _) => true
  }

  /** The permission is given exactly where nothing stands in the way, and then the row is exactly the claimed one. */
  lemma ClaimIsGrantedIff(d: NameDigest, w: World, s: Step)
    requires s.Claim? && Enabled(d, w, s)
    ensures var id, w' := DeriveSendId(d, s.key), Next(d, w, s);
            && (s.worker in w'.held <==> s.decision.Sendable? && Free(d, w, s.key))
            && (s.worker in w'.held ==>
                  && w'.held[s.worker] == Attempt(s.key, s.lockedAt, w.now)
                  && id in w'.db.sends
                  && w'.db.sends[id] == SendRow(s.key, s.contactId, Dispatching, None, None, w.now, None, None, None, None))
            && w'.db.campaigns == w.db.campaigns
  {
  }

  /** What a second delivery finds: an unfinished claim is handed to the reconciler, any other row is left as it is. */
  lemma SecondClaim(d: NameDigest, w: World, s: Step)
    requires s.Claim? && Enabled(d, w, s) && s.decision.Sendable? && DeriveSendId(d, s.key) in w.db.sends
    requires s.key.CampaignKey? ==> s.key.campaignId in w.db.campaigns && w.db.campaigns[s.key.campaignId].status == Sending
    ensures var id := DeriveSendId(d, s.key);
            var row, after := w.db.sends[id], Row(Next(d, w, s), id);
            && after.Some?
            && (row.status != Dispatching ==> after.value == row)
            && (row.status == Dispatching ==>
                  after.value == SendRow(row.key, row.contactId, Reconciling, row.exclusionReason, None, row.queuedAt, row.sentAt,
                                         if row.reconcilingSince.Some? then row.reconcilingSince else Some(w.now),
                                         row.dispatchedAt, row.dispatchDurationMs))
  {
  }

  /** A contact that may not be sent to: an `excluded` row with the reason, unless a row of another status stands. */
  lemma ExclusionIsRecorded(d: NameDigest, w: World, s: Step)
    requires Enabled(d, w, s)
    requires s.KickoffExclude? || (s.Claim? && s.decision.NotSendable? &&
               (s.key.CampaignKey? ==> s.key.campaignId in w.db.campaigns && w.db.campaigns[s.key.campaignId].status == Sending))
    ensures var id, reason := DeriveSendId(d, s.key), if s.KickoffExclude? then s.reason else s.decision.reason;
            var before, after := Row(w, id), Row(Next(d, w, s), id);
            && after.Some?
            && (before.None? ==>
                  after.value == SendRow(s.key, s.contactId, Excluded, Some(reason), None, w.now, None, None, None, None))
            && (before.Some? && before.value.status == Excluded ==>
                  after.value.exclusionReason == Some(reason) && after.value.(exclusionReason := None) == before.value.(exclusionReason := None))
            && (before.Some? && before.value.status != Excluded ==> after == before)
  {
  }

  /** A campaign that is not being sent claims and excludes nothing. */
  lemma StoppedCampaignClaimsNothing(d: NameDigest, w: World, s: Step)
    requires s.Claim? && Enabled(d, w, s) && s.key.CampaignKey?
    requires s.key.campaignId in w.db.campaigns ==> w.db.campaigns[s.key.campaignId].status != Sending
    ensures Next(d, w, s) == w
  {
  }

  // ---------- an answer ----------

  function MessageOf(outcome: Outcome): Option<string> {
    if outcome.Accepted? then Some(outcome.messageId) else None
  }

  /**
   * The row after an answer: the status the answer calls for, the answer's message id, the start and the length
   * of the provider call; `sent_at` now for a sent one, `reconciling_since` now for one newly ambiguous.
   */
  lemma AnswerIsRecorded(d: NameDigest, w: World, s: Step)
    requires s.Finish? && Enabled(d, w, s) && !s.outcome.Released? && HeldId(d, w, s.worker) in w.db.sends
    ensures var id := HeldId(d, w, s.worker);
            var row, after := w.db.sends[id], Row(Next(d, w, s), id);
            && after.Some?
            && after.value.status == (match s.outcome case Accepted(_) => Sent case Rejected => Failed case AmbiguousThrow => Reconciling)
            && after.value.dispatchedAt == Some(s.dispatchedAt) && after.value.dispatchDurationMs == Some(s.durationMs)
            && after.value.providerMessageId == MessageOf(s.outcome)
            && after.value.sentAt == (if s.outcome.Accepted? then Some(w.now) else row.sentAt)
            && after.value.reconcilingSince ==
                 (if s.outcome.AmbiguousThrow? && row.reconcilingSince.None? then Some(w.now) else row.reconcilingSince)
            && after.value.key == row.key && after.value.contactId == row.contactId
            && after.value.queuedAt == row.queuedAt && after.value.exclusionReason == row.exclusionReason
  {
    hide CountIn;
  }

  /** A released attempt leaves no row, and no other row changes. */
  lemma ReleaseLeavesNothing(d: NameDigest, w: World, s: Step)
    requires s.Finish? && Enabled(d, w, s) && s.outcome.Released?
    ensures var id, w' := HeldId(d, w, s.worker), Next(d, w, s);
            && (Row(w, id).Some? && Row(w, id).value.status == Dispatching ==> w'.db.sends == w.db.sends - {id})
            && (Row(w, id).None? || Row(w, id).value.status != Dispatching ==> w'.db.sends == w.db.sends)
            && w'.db.campaigns == w.db.campaigns && w'.held == w.held - {s.worker}
  {
  }

  // ---------- the reconciler ----------

  /** The reconciler writes the status and two times; what the worker recorded it leaves alone. */
  lemma ReconcilerKeepsTheAnswer(d: NameDigest, w: World, s: Step)
    requires s.Reconcile? && s.sendId in w.db.sends
    ensures var row, after := w.db.sends[s.sendId], Row(Next(d, w, s), s.sendId);
            && after.Some?
            && after.value == row.(status := after.value.status, sentAt := after.value.sentAt, reconcilingSince := after.value.reconcilingSince)
            && (after.value.status == Unknown ==> after.value.sentAt == row.sentAt && after.value.reconcilingSince == row.reconcilingSince)
            && (after.value.status == Reconciling && row.status == Dispatching ==>
                  && after.value.sentAt == row.sentAt
                  && after.value.reconcilingSince == if row.reconcilingSince.Some? then row.reconcilingSince else Some(w.now))
  {
    hide CountIn;
  }

  /**
   * What becomes of a row under the reconciler, in hours: past two hours a `dispatching` row is taken for ambiguous;
   * with evidence a `reconciling` row is sent, and so is an `unknown` one queued at most 72 hours ago; without it a
   * `reconciling` row is given up once it has been ambiguous for more than 24 hours; everything else stands.
   */
  lemma WhatTheReconcilerDecides(d: NameDigest, w: World, s: Step)
    requires s.Reconcile? && s.sendId in w.db.sends
    ensures var row, after := w.db.sends[s.sendId], Row(Next(d, w, s), s.sendId);
            var since := if row.reconcilingSince.Some? then row.reconcilingSince.value else row.queuedAt;
            && after.Some?
            && after.value.status ==
                (if row.status == Dispatching && w.now - row.queuedAt > 7_200_000 then Reconciling
                 else if row.status == Reconciling && s.hasEvidence then Sent
                 else if row.status == Reconciling && w.now - since > 86_400_000 then Unknown
                 else if row.status == Unknown && s.hasEvidence && w.now - row.queuedAt <= 259_200_000 then Sent
                 else row.status)
            && (after.value.status == row.status ==> after.value == row && Next(d, w, s).db.sends == w.db.sends)
  {
    hide CountIn;
  }

  // ---------- the time a send is dated to ----------

  /** Ambiguous, and to be dated to `t`; or resolved to sent, and so dated. */
  predicate DatedTo(row: Option<SendRow>, t: int) {
    row.Some? &&
    match row.value.status
    case Sent => row.value.sentAt == Some(t)
    case Reconciling => ToBeDated(row.value, t)
    case Unknown => ToBeDated(row.value, t)
    case Dispatching => false
    case Failed => false
    case Excluded => false
  }

  predicate ToBeDated(row: SendRow, t: int) {
    if row.dispatchedAt.Some? then row.dispatchedAt == Some(t) else row.reconcilingSince == Some(t)
  }

  /** A step that records nothing on the row leaves its date as it is. */
  lemma DateStands(d: NameDigest, w: World, s: Step, id: string, t: int)
    requires DatedTo(Row(w, id), t)
    requires s.Finish? && Enabled(d, w, s) ==> HeldId(d, w, s.worker) != id || s.outcome.Released?
    ensures DatedTo(Row(Next(d, w, s), id), t)
  {
    hide CountIn;
  }

  /** Nobody holds a permission for the row. */
  ghost predicate Unheld(d: NameDigest, w: World, id: string) {
    forall v :: v in w.held ==> HeldId(d, w, v) != id
  }

  lemma StaysUnheld(d: NameDigest, w: World, s: Step, id: string)
    requires Unheld(d, w, id) && id in w.db.sends
    ensures Unheld(d, Next(d, w, s), id)
  {
    hide Next;
    forall v | v in Next(d, w, s).held ensures HeldId(d, Next(d, w, s), v) != id {
      HeldAfter(d, w, s, v);
    }
  }

  lemma {:induction false} DateStandsForever(d: NameDigest, w: World, steps: seq<Step>, id: string, t: int)
    requires DatedTo(Row(w, id), t) && Unheld(d, w, id)
    ensures DatedTo(Row(Exec(d, w, steps), id), t) && Unheld(d, Exec(d, w, steps), id)
    decreases |steps|
  {
    hide Next, Enabled;
    if steps != [] {
      var n := |steps| - 1;
      var at := Exec(d, w, steps[..n]);
      DateStandsForever(d, w, steps[..n], id, t);
      FinisherInHand(d, at, steps[n]);
      DateStands(d, at, steps[n], id, t);
      StaysUnheld(d, at, steps[n], id);
    }
  }

  /**
   * A send left ambiguous by a provider call begun at `s.dispatchedAt` is, if it is ever resolved to sent, dated
   * to that call: whatever steps lie between, at whatever time, by whomever.
   */
  lemma AmbiguousSendIsDatedToItsCall(d: NameDigest, w: World, s: Step, steps: seq<Step>)
    requires HeldRows(d, w) && s.Finish? && Enabled(d, w, s) && s.outcome.AmbiguousThrow?
    ensures var after := Row(Exec(d, Next(d, w, s), steps), HeldId(d, w, s.worker));
            && after.Some? && after.value.status in {Reconciling, Unknown, Sent}
            && (after.value.status == Sent ==> after.value.sentAt == Some(s.dispatchedAt))
  {
    hide Exec, Next;
    var id, w1 := HeldId(d, w, s.worker), Next(d, w, s);
    AnswerIsRecorded(d, w, s);
    forall v | v in w1.held ensures HeldId(d, w1, v) != id {
      HeldAfter(d, w, s, v);
    }
    DateStandsForever(d, w1, steps, id, s.dispatchedAt);
  }

  /** One that a second delivery found unfinished, with no call recorded, is dated to that moment, if its holder is gone. */
  lemma InterruptedSendIsDatedToItsHandOver(d: NameDigest, w: World, s: Step, steps: seq<Step>)
    requires Stamped(w) && s.Claim? && Enabled(d, w, s) && ClaimAnswer(w.db, DeriveSendId(d, s.key), s.key, s.decision).ClaimReconciling?
    requires Unheld(d, w, DeriveSendId(d, s.key))
    ensures var after := Row(Exec(d, Next(d, w, s), steps), DeriveSendId(d, s.key));
            && after.Some? && after.value.status in {Reconciling, Unknown, Sent}
            && (after.value.status == Sent ==> after.value.sentAt == Some(w.now))
  {
    hide Exec, Next;
    var id := DeriveSendId(d, s.key);
    assert StampedRow(w.db.sends[id], w.now);
    SecondClaim(d, w, s);
    StaysUnheld(d, w, s, id);
    DateStandsForever(d, Next(d, w, s), steps, id, w.now);
  }
}
