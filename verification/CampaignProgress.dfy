/** Campaign counters against the ledger they summarise, over whole runs. */
module CampaignProgress {
  import opened Options
  import opened SendStateMachine
  import opened SendId
  import opened SendLedger
  import opened DispatchProtocol
  import Reconciler

  const NotExcluded: set<SendStatus> := {Dispatching, Sent, Failed, Reconciling, Unknown}
  const Done: set<SendStatus> := {Sent, Failed, Reconciling, Unknown}

  // ---------- counting rows ----------

  function Bit(t: Sends, id: string, c: string, statuses: set<SendStatus>): nat {
    if id in t && OfCampaign(t[id], c) && t[id].status in statuses then 1 else 0
  }

  lemma SetsThatDifferAtOne(a: set<string>, b: set<string>, id: string)
    requires forall x :: x != id ==> (x in a <==> x in b)
    ensures |b| + (if id in a then 1 else 0) == |a| + (if id in b then 1 else 0)
  {
    assert a - {id} == b - {id};
    if id in a {
      assert |a - {id}| == |a| - 1;
    } else {
      assert a - {id} == a;
    }
    if id in b {
      assert |b - {id}| == |b| - 1;
    } else {
      assert b - {id} == b;
    }
  }

  lemma CountChangesAtOne(t: Sends, t': Sends, id: string, c: string, statuses: set<SendStatus>)
    requires SameExcept(t, t', id)
    ensures CountIn(t', c, statuses) + Bit(t, id, c, statuses) == CountIn(t, c, statuses) + Bit(t', id, c, statuses)
  {
    SetsThatDifferAtOne(RowsIn(t, c, statuses), RowsIn(t', c, statuses), id);
  }

  lemma CountSplits(t: Sends, c: string, a: set<SendStatus>, b: set<SendStatus>)
    requires a !! b
    ensures CountIn(t, c, a + b) == CountIn(t, c, a) + CountIn(t, c, b)
  {
    assert RowsIn(t, c, a + b) == RowsIn(t, c, a) + RowsIn(t, c, b);
    assert RowsIn(t, c, a) !! RowsIn(t, c, b);
  }

  lemma CountByStatus(t: Sends, c: string)
    ensures CountIn(t, c, Done) == CountIn(t, c, {Sent}) + CountIn(t, c, {Failed}) + CountIn(t, c, {Reconciling, Unknown})
    ensures CountIn(t, c, NotExcluded) == CountIn(t, c, {Dispatching}) + CountIn(t, c, Done)
  {
    CountSplits(t, c, {Sent}, {Failed});
    CountSplits(t, c, {Sent} + {Failed}, {Reconciling, Unknown});
    assert {Sent} + {Failed} + {Reconciling, Unknown} == Done;
    CountSplits(t, c, {Dispatching}, Done);
    assert {Dispatching} + Done == NotExcluded;
  }

  // ---------- one step touches one row ----------

  /** Rows and attempts carry well-formed intents, and every row sits under the id of its intent. */
  ghost predicate Keyed(d: NameDigest, w: World) {
    && (forall id :: id in w.db.sends ==> d.Serves(w.db.sends[id].key) && DeriveSendId(d, w.db.sends[id].key) == id)
    && (forall v :: v in w.held ==> d.Serves(w.held[v].key))
  }

  lemma KeyedStep(d: NameDigest, w: World, s: Step)
    requires Keyed(d, w)
    ensures Keyed(d, Next(d, w, s))
  {
    hide Next;
    OneRowChanges(d, w, s);
    FreshRowsAreKeyed(d, w, s);
    HeldKeysAreWellFormed(d, w, s);
  }

  lemma FreshRowsAreKeyed(d: NameDigest, w: World, s: Step)
    ensures var id := Touched(d, w, s);
            id !in w.db.sends && id in Next(d, w, s).db.sends ==>
              d.Serves(Next(d, w, s).db.sends[id].key) && DeriveSendId(d, Next(d, w, s).db.sends[id].key) == id
  {
  }

  lemma HeldKeysAreWellFormed(d: NameDigest, w: World, s: Step)
    requires Keyed(d, w)
    ensures forall v :: v in Next(d, w, s).held ==> d.Serves(Next(d, w, s).held[v].key)
  {
    hide ClaimTx, FinishTx, ResolveTx;
  }

  // ---------- the invariant ----------

  /** The audience fixed by the kickoff covers every row that was not excluded. */
  predicate AudienceBounded(w: World, c: string) {
    c in w.db.campaigns && w.db.campaigns[c].sendableTotal.Some? ==>
      CountIn(w.db.sends, c, NotExcluded) <= w.db.campaigns[c].sendableTotal.value
  }

  predicate CountersMatch(db: Db, c: string) {
    c in db.campaigns && db.campaigns[c].status != Canceled ==>
      && db.campaigns[c].sentCount == CountIn(db.sends, c, {Sent})
      && db.campaigns[c].failedCount == CountIn(db.sends, c, {Failed})
  }

  predicate NothingInFlight(db: Db, c: string) {
    c in db.campaigns && db.campaigns[c].status in {Draft, Scheduled, CampaignSent} ==> CountIn(db.sends, c, {Dispatching}) == 0
  }

  predicate ProgressInv(w: World, c: string) {
    CountersMatch(w.db, c) && NothingInFlight(w.db, c)
  }

  /** Completion with matching counters and a bounded audience leaves nothing in flight. */
  lemma CompletionIsSound(db: Db, campaignId: string, c: string)
    requires CountersMatch(db, c) && (campaignId != c ==> NothingInFlight(db, c))
    requires campaignId == c && c in db.campaigns && db.campaigns[c].status in {Draft, Scheduled, CampaignSent} ==> CountIn(db.sends, c, {Dispatching}) == 0
    requires c in db.campaigns && db.campaigns[c].sendableTotal.Some? ==>
               CountIn(db.sends, c, NotExcluded) <= db.campaigns[c].sendableTotal.value
    ensures var db' := TryComplete(db, campaignId); CountersMatch(db', c) && NothingInFlight(db', c) && db'.sends == db.sends
  {
    CountByStatus(db.sends, c);
  }

  /** A row in flight carries its intent's key, so its campaign is the one the worker reports to. */
  lemma HeldRowHasTheKey(d: NameDigest, w: World, v: string)
    requires CollisionFree(d) && Keyed(d, w) && v in w.held && DeriveSendId(d, w.held[v].key) in w.db.sends
    ensures w.db.sends[DeriveSendId(d, w.held[v].key)].key == w.held[v].key
  {
    SendIdsIdentifyIntents(d, w.db.sends[DeriveSendId(d, w.held[v].key)].key, w.held[v].key);
  }

  /** The counts that matter, before and after a change at one row. */
  lemma CountsAt(t: Sends, t': Sends, id: string, c: string)
    requires SameExcept(t, t', id)
    ensures CountIn(t', c, {Sent}) + Bit(t, id, c, {Sent}) == CountIn(t, c, {Sent}) + Bit(t', id, c, {Sent})
    ensures CountIn(t', c, {Failed}) + Bit(t, id, c, {Failed}) == CountIn(t, c, {Failed}) + Bit(t', id, c, {Failed})
    ensures CountIn(t', c, {Dispatching}) + Bit(t, id, c, {Dispatching}) == CountIn(t, c, {Dispatching}) + Bit(t', id, c, {Dispatching})
    ensures CountIn(t', c, NotExcluded) + Bit(t, id, c, NotExcluded) == CountIn(t, c, NotExcluded) + Bit(t', id, c, NotExcluded)
  {
    CountChangesAtOne(t, t', id, c, {Sent});
    CountChangesAtOne(t, t', id, c, {Failed});
    CountChangesAtOne(t, t', id, c, {Dispatching});
    CountChangesAtOne(t, t', id, c, NotExcluded);
  }

  /** The counts after a dispatching row of `campaign` gets a definite answer. */
  lemma AnswerCounts(t: Sends, t': Sends, id: string, campaign: string, c: string, sent: bool)
    requires SameExcept(t, t', id) && id in t && id in t' && t'[id].key == t[id].key
    requires OfCampaign(t[id], campaign) && t[id].status == Dispatching && t'[id].status == (if sent then Sent else Failed)
    ensures var one := if campaign == c then 1 else 0;
            && CountIn(t', c, {Sent}) == CountIn(t, c, {Sent}) + (if sent then one else 0)
            && CountIn(t', c, {Failed}) == CountIn(t, c, {Failed}) + (if sent then 0 else one)
            && CountIn(t', c, {Dispatching}) + one == CountIn(t, c, {Dispatching})
  {
    hide CountIn;
    CountsAt(t, t', id, c);
  }

  /** A definite answer, counted and possibly completing the campaign, keeps the invariant. */
  lemma AnswerKeepsProgress(db: Db, t': Sends, id: string, campaign: string, c: string, sent: bool)
    requires SameExcept(db.sends, t', id) && id in db.sends && id in t' && t'[id].key == db.sends[id].key
    requires OfCampaign(db.sends[id], campaign)
    requires db.sends[id].status == Dispatching && t'[id].status == (if sent then Sent else Failed)
    requires CountersMatch(db, c) && NothingInFlight(db, c)
    requires c in db.campaigns && db.campaigns[c].sendableTotal.Some? ==>
               CountIn(t', c, NotExcluded) <= db.campaigns[c].sendableTotal.value
    ensures var db' := TryComplete(Db(t', IncrementCounter(db.campaigns, campaign, sent)), campaign);
            CountersMatch(db', c) && NothingInFlight(db', c)
  {
    hide CountIn, TryComplete;
    AnswerCounts(db.sends, t', id, campaign, c, sent);
    CompletionIsSound(Db(t', IncrementCounter(db.campaigns, campaign, sent)), campaign, c);
  }

  lemma TryCompleteKeepsTotals(db: Db, campaign: string, c: string)
    ensures var db' := TryComplete(db, campaign);
            db'.sends == db.sends && (c in db'.campaigns <==> c in db.campaigns) &&
            (c in db.campaigns ==> db'.campaigns[c].sendableTotal == db.campaigns[c].sendableTotal)
  {
    hide CountIn;
  }

  /** A flight that ends without a definite answer, or is no campaign's, moves no counter. */
  lemma UncountedFinishKeepsProgress(w: World, w': World, id: string, c: string)
    requires ProgressInv(w, c) && w'.db.campaigns == w.db.campaigns && SameExcept(w.db.sends, w'.db.sends, id)
    requires var before, after := Row(w, id), Row(w', id);
             && (before.None? ==> after.None?)
             && (before.Some? && after.Some? ==> after.value.key == before.value.key)
             && (before != after ==>
                   before.value.key.FlowKey? || (before.value.status == Dispatching && (after.Some? ==> after.value.status == Reconciling)))
    ensures ProgressInv(w', c)
  {
    hide CountIn;
    CountsAt(w.db.sends, w'.db.sends, id, c);
  }

  lemma FinishKeepsProgress(d: NameDigest, w: World, s: Step, c: string)
    requires s.Finish? && Enabled(d, w, s) && LiveClaim(d, w, s) && CollisionFree(d) && Keyed(d, w)
    requires ProgressInv(w, c) && AudienceBounded(Next(d, w, s), c)
    ensures ProgressInv(Next(d, w, s), c)
  {
    var a := w.held[s.worker];
    var id := DeriveSendId(d, a.key);
    if id in w.db.sends {
      HeldRowHasTheKey(d, w, s.worker);
    }
    if (s.outcome.Accepted? || s.outcome.Rejected?) && a.key.CampaignKey? {
      CountedFinishKeepsProgress(d, w, s, c);
    } else {
      hide CountIn, ProgressInv;
      StepMovesTouchedRow(d, w, s);
      UncountedFinishKeepsProgress(w, Next(d, w, s), id, c);
    }
  }

  lemma CountedFinishKeepsProgress(d: NameDigest, w: World, s: Step, c: string)
    requires s.Finish? && Enabled(d, w, s) && LiveClaim(d, w, s) && CollisionFree(d) && Keyed(d, w)
    requires (s.outcome.Accepted? || s.outcome.Rejected?) && w.held[s.worker].key.CampaignKey?
    requires ProgressInv(w, c) && AudienceBounded(Next(d, w, s), c)
    ensures ProgressInv(Next(d, w, s), c)
  {
    hide CountIn, TryComplete, CountersMatch, NothingInFlight;
    HeldRowHasTheKey(d, w, s.worker);
    var id, campaign := DeriveSendId(d, w.held[s.worker].key), w.held[s.worker].key.campaignId;
    var recorded := RecordSend(w.db.sends, id, OutcomeResult(s.outcome, s.dispatchedAt, s.durationMs), w.now);
    var counted := Db(recorded, IncrementCounter(w.db.campaigns, campaign, s.outcome.Accepted?));
    assert Next(d, w, s).db == TryComplete(counted, campaign);
    TryCompleteKeepsTotals(counted, campaign, c);
    AnswerKeepsProgress(w.db, recorded, id, campaign, c, s.outcome.Accepted?);
  }

  lemma ReconcileKeepsProgress(d: NameDigest, w: World, s: Step, c: string)
    requires s.Reconcile? && ProgressInv(w, c) && AudienceBounded(Next(d, w, s), c)
    ensures ProgressInv(Next(d, w, s), c)
  {
    hide CountIn;
    var id := s.sendId;
    if id in w.db.sends {
      var t' := Next(d, w, s).db.sends;
      StepMovesTouchedRow(d, w, s);
      CountsAt(w.db.sends, t', id, c);
      var key := w.db.sends[id].key;
      if VerdictFor(w.db.sends, id, s.hasEvidence, w.now).ResolveSent? && key.CampaignKey? {
        var resolved := Db(t', BackfillCounter(w.db.campaigns, key.campaignId, true));
        assert Next(d, w, s).db == TryComplete(resolved, key.campaignId);
        CompletionIsSound(resolved, key.campaignId, c);
      }
    }
  }

  /** A change at one row that neither starts nor ends a flight of campaign `c`, nor settles one. */
  predicate Harmless(before: Option<SendRow>, after: Option<SendRow>, mayStart: bool) {
    && (before.Some? ==> after.Some? && after.value.key == before.value.key)
    && (before.Some? && before.value.status in {Sent, Failed} ==> after.value.status == before.value.status)
    && (before.None? && after.Some? ==> after.value.status == Excluded || (after.value.status == Dispatching && mayStart))
    && (before.Some? && before.value.status !in {Sent, Failed} ==>
          after.value.status !in {Sent, Failed} && (after.value.status == Dispatching ==> before.value.status == Dispatching))
  }

  lemma HarmlessKeepsProgress(w: World, w': World, id: string, c: string, mayStart: bool)
    requires ProgressInv(w, c) && w'.db.campaigns == w.db.campaigns && SameExcept(w.db.sends, w'.db.sends, id)
    requires Harmless(Row(w, id), Row(w', id), mayStart)
    requires mayStart && id !in w.db.sends && id in w'.db.sends && OfCampaign(w'.db.sends[id], c) && c in w.db.campaigns ==>
               w.db.campaigns[c].status == Sending
    ensures ProgressInv(w', c)
  {
    hide CountIn;
    CountsAt(w.db.sends, w'.db.sends, id, c);
  }

  lemma ClaimKeepsProgress(d: NameDigest, w: World, s: Step, c: string)
    requires (s.Claim? || s.KickoffExclude?) && Enabled(d, w, s) && ProgressInv(w, c)
    ensures ProgressInv(Next(d, w, s), c)
  {
    hide CountIn;
    StepMovesTouchedRow(d, w, s);
    HarmlessKeepsProgress(w, Next(d, w, s), DeriveSendId(d, s.key), c, s.Claim?);
  }

  lemma FanOutKeepsProgress(d: NameDigest, w: World, s: Step, c: string)
    requires s.FanOut? && ProgressInv(w, c) && AudienceBounded(Next(d, w, s), c)
    ensures ProgressInv(Next(d, w, s), c)
  {
    CountByStatus(w.db.sends, c);
    hide CountIn;
    if s.sendable != 0 && s.campaignId in w.db.campaigns && !w.db.campaigns[s.campaignId].fanOutComplete {
      var k := w.db.campaigns[s.campaignId];
      var totals := w.db.(campaigns := w.db.campaigns[s.campaignId :=
        k.(sendableTotal := Some(s.sendable), excludedTotal := Some(s.excluded), fanOutComplete := true)]);
      assert Next(d, w, s).db == TryComplete(totals, s.campaignId);
      CompletionIsSound(totals, s.campaignId, c);
    }
  }

  lemma OtherKeepsProgress(d: NameDigest, w: World, s: Step, c: string)
    requires s.Launch? || s.Cancel? || s.Tick? || s.Crash?
    requires ProgressInv(w, c)
    ensures ProgressInv(Next(d, w, s), c)
  {
    hide CountIn;
  }

  lemma ProgressStep(d: NameDigest, w: World, s: Step, c: string)
    requires CollisionFree(d) && Keyed(d, w) && LiveClaim(d, w, s)
    requires ProgressInv(w, c) && AudienceBounded(Next(d, w, s), c)
    ensures ProgressInv(Next(d, w, s), c)
  {
    if Enabled(d, w, s) {
      match s {
        case Finish(_, _, _, _) => FinishKeepsProgress(d, w, s, c);
        case Reconcile(_, _) => ReconcileKeepsProgress(d, w, s, c);
        case Claim(_, _, _, _, _) => ClaimKeepsProgress(d, w, s, c);
        case KickoffExclude(_, _, _) => ClaimKeepsProgress(d, w, s, c);
        case FanOut(_, _, _) => FanOutKeepsProgress(d, w, s, c);
        case _ => OtherKeepsProgress(d, w, s, c);
      }
    }
  }

  // ---------- whole runs ----------

  ghost predicate AlwaysBounded(d: NameDigest, w: World, steps: seq<Step>, c: string) {
    forall i :: 0 <= i <= |steps| ==> AudienceBounded(Exec(d, w, steps[..i]), c)
  }

  /**
   * At every reachable state of a campaign that was not cancelled the two counters are the numbers of
   * its rows in `sent` and `failed`, resolutions after completion included, and a completed campaign
   * has no row still `dispatching`.
   */
  lemma {:induction false} CountersMatchTheLedger(d: NameDigest, w: World, steps: seq<Step>, c: string)
    requires CollisionFree(d) && Initial(w) && AllClaimsLive(d, w, steps) && AlwaysBounded(d, w, steps, c)
    ensures Keyed(d, Exec(d, w, steps)) && ProgressInv(Exec(d, w, steps), c)
    decreases |steps|
  {
    hide Exec, Next, LiveClaim, AllClaimsLive, ProgressInv, AudienceBounded;
    if steps == [] {
      NoSteps(d, w);
      EmptyLedgerMatches(w, c);
    } else {
      var n := |steps| - 1;
      LastStep(d, w, steps);
      forall i | 0 <= i <= n ensures AudienceBounded(Exec(d, w, steps[..n][..i]), c) {
        assert steps[..n][..i] == steps[..i];
      }
      CountersMatchTheLedger(d, w, steps[..n], c);
      assert steps[..|steps|] == steps;
      KeyedStep(d, Exec(d, w, steps[..n]), steps[n]);
      ProgressStep(d, Exec(d, w, steps[..n]), steps[n], c);
    }
  }

  lemma EmptyLedgerMatches(w: World, c: string)
    requires Initial(w)
    ensures ProgressInv(w, c) && CountersMatch(w.db, c)
  {
    forall s: set<SendStatus> ensures CountIn(w.db.sends, c, s) == 0 {
      assert RowsIn(w.db.sends, c, s) == {};
    }
  }

  // ---------- exactly when a record keeps the counters ----------

  /**
   * A definite answer counts once, so it must be the first definite status of a row that is there; an
   * uncounted one must not change how many rows are `sent` or `failed`.
   */
  predicate RecordIsCounted(d: NameDigest, w: World, s: Step, c: string) {
    s.Finish? && Enabled(d, w, s) && !s.outcome.Released? && IsCampaign(w.held[s.worker].key, c) &&
    c in w.db.campaigns && w.db.campaigns[c].status != Canceled ==>
      var row := Row(w, HeldId(d, w, s.worker));
      if s.outcome.AmbiguousThrow? then row.None? || row.value.status !in {Sent, Failed}
      else if w.db.campaigns[c].status == Sending then row.Some? && row.value.status !in {Sent, Failed}
      else row.None? || row.value.status == Recorded(s.outcome)
  }

  predicate IsCampaign(key: SendKey, c: string) {
    key.CampaignKey? && key.campaignId == c
  }

  lemma CountersAfterRecord(d: NameDigest, w: World, s: Step, c: string)
    requires s.Finish? && Enabled(d, w, s) && !s.outcome.Released? && IsCampaign(w.held[s.worker].key, c)
    requires c in w.db.campaigns
    ensures c in Next(d, w, s).db.campaigns
    ensures var k, k' := w.db.campaigns[c], Next(d, w, s).db.campaigns[c];
            var counted := if s.outcome.AmbiguousThrow? || k.status != Sending then 0 else 1;
            && k'.sentCount == k.sentCount + (if s.outcome.Accepted? then counted else 0)
            && k'.failedCount == k.failedCount + (if s.outcome.Rejected? then counted else 0)
            && (k'.status == Canceled <==> k.status == Canceled)
  {
    hide CountIn;
  }

  lemma RecordStepCounts(d: NameDigest, w: World, s: Step, c: string)
    requires CollisionFree(d) && Keyed(d, w) && CountersMatch(w.db, c)
    requires s.Finish? && Enabled(d, w, s) && !s.outcome.Released? && IsCampaign(w.held[s.worker].key, c)
    ensures CountersMatch(Next(d, w, s).db, c) <==> RecordIsCounted(d, w, s, c)
  {
    hide Next, CountIn, Keyed;
    var id := HeldId(d, w, s.worker);
    RecordAt(d, w, s);
    CountsAt(w.db.sends, Next(d, w, s).db.sends, id, c);
    if c in w.db.campaigns {
      CountersAfterRecord(d, w, s, c);
      if id in w.db.sends {
        HeldRowHasTheKey(d, w, s.worker);
      }
    } else {
      NoNewCampaigns(d, w, s, c);
    }
  }

  lemma NoNewCampaigns(d: NameDigest, w: World, s: Step, c: string)
    ensures c in Next(d, w, s).db.campaigns ==> c in w.db.campaigns
  {
    hide CountIn;
  }

  lemma OtherFinishCounts(d: NameDigest, w: World, s: Step, c: string)
    requires CollisionFree(d) && Keyed(d, w) && CountersMatch(w.db, c)
    requires s.Finish? && Enabled(d, w, s) && (s.outcome.Released? || !IsCampaign(w.held[s.worker].key, c))
    ensures CountersMatch(Next(d, w, s).db, c)
  {
    hide CountIn, Keyed;
    var id := HeldId(d, w, s.worker);
    OneRowChanges(d, w, s);
    CountsAt(w.db.sends, Next(d, w, s).db.sends, id, c);
    if id in w.db.sends {
      HeldRowHasTheKey(d, w, s.worker);
    }
  }

  lemma ReconcileCounts(d: NameDigest, w: World, s: Step, c: string)
    requires s.Reconcile? && CountersMatch(w.db, c)
    ensures CountersMatch(Next(d, w, s).db, c)
  {
    hide CountIn;
    OneRowChanges(d, w, s);
    CountsAt(w.db.sends, Next(d, w, s).db.sends, s.sendId, c);
  }

  lemma ClaimCounts(d: NameDigest, w: World, s: Step, c: string)
    requires (s.Claim? || s.KickoffExclude?) && CountersMatch(w.db, c)
    ensures CountersMatch(Next(d, w, s).db, c)
  {
    hide CountIn;
    OneRowChanges(d, w, s);
    CountsAt(w.db.sends, Next(d, w, s).db.sends, DeriveSendId(d, s.key), c);
  }

  lemma CampaignStepCounts(d: NameDigest, w: World, s: Step, c: string)
    requires s.FanOut? || s.Launch? || s.Cancel? || s.Tick? || s.Crash?
    requires CountersMatch(w.db, c)
    ensures CountersMatch(Next(d, w, s).db, c)
  {
    hide CountIn;
  }

  lemma CountersStepIff(d: NameDigest, w: World, s: Step, c: string)
    requires CollisionFree(d) && Keyed(d, w) && CountersMatch(w.db, c)
    ensures CountersMatch(Next(d, w, s).db, c) <==> RecordIsCounted(d, w, s, c)
  {
    hide CountIn;
    if s.Finish? && Enabled(d, w, s) && !s.outcome.Released? && IsCampaign(w.held[s.worker].key, c) {
      RecordStepCounts(d, w, s, c);
    } else {
      match s {
        case Finish(_, _, _, _) =>
          if Enabled(d, w, s) {
            OtherFinishCounts(d, w, s, c);
          }
        case Reconcile(_, _) => ReconcileCounts(d, w, s, c);
        case Claim(_, _, _, _, _) => ClaimCounts(d, w, s, c);
        case KickoffExclude(_, _, _) => ClaimCounts(d, w, s, c);
        case _ => CampaignStepCounts(d, w, s, c);
      }
    }
  }

  /**
   * In any run, with no assumption on clocks or on the audience: the counters of a campaign equal the
   * counts of its rows all along if and only if every record of one of its sends is counted in order.
   */
  lemma {:induction false} CountersMatchIff(d: NameDigest, w: World, steps: seq<Step>, c: string)
    requires CollisionFree(d) && Initial(w)
    ensures Keyed(d, Exec(d, w, steps))
    ensures (forall i :: 0 <= i <= |steps| ==> CountersMatch(Exec(d, w, steps[..i]).db, c))
       <==> (forall i :: 0 <= i < |steps| ==> RecordIsCounted(d, Exec(d, w, steps[..i]), steps[i], c))
    decreases |steps|
  {
    hide Exec, Next, CountersMatch, RecordIsCounted, Keyed;
    if steps == [] {
      NoSteps(d, w);
      EmptyLedgerMatches(w, c);
      EmptyLedgerIsKeyed(d, w);
      assert steps[..0] == [];
    } else {
      var n := |steps| - 1;
      var front, at := steps[..n], Exec(d, w, steps[..n]);
      ExecLast(d, w, steps);
      CountersMatchIff(d, w, front, c);
      KeyedStep(d, at, steps[n]);
      assert steps[..n + 1] == steps && front[..n] == front;
      assert forall i :: 0 <= i <= n ==> front[..i] == steps[..i];
      assert forall i :: 0 <= i < n ==> front[i] == steps[i];
      if CountersMatch(at.db, c) {
        CountersStepIff(d, at, steps[n], c);
      }
    }
  }

  /** The provider's answer is recorded after the reconciler has already settled the send from its evidence. */
  function LateAnswer(id: string): seq<Step> {
    [Claim("first", CampaignKey("w", "c", "p"), "p", Sendable, 0), Tick(Reconciler.STALE_DISPATCHING_AGE_MS + 1),
     Reconcile(id, false), Reconcile(id, true), Finish("first", Accepted("m"), 0, 0)]
  }

  /** A campaign "c" being sent, with `sent` sends counted and, once fanned out, one contact to reach. */
  function OneCampaign(fannedOut: bool, sent: nat): Campaign {
    if fannedOut then Campaign(Sending, true, Some(1), Some(0), sent, 0) else Campaign(Sending, false, None, None, sent, 0)
  }

  /** The world while it has one send. */
  function OneSend(id: string, row: SendRow, k: Campaign, held: map<string, Attempt>, now: int): World {
    World(Db(map[id := row], map["c" := k]), held, now)
  }

  function NoSend(k: Campaign): World {
    World(Db(map[], map["c" := k]), map[], 0)
  }

  lemma OneSendClaimed(d: NameDigest, key: SendKey, k: Campaign)
    requires d.Serves(key) && key == CampaignKey("w", "c", "p") && k.status == Sending
    ensures Next(d, NoSend(k), Claim("first", key, "p", Sendable, 0))
         == OneSend(DeriveSendId(d, key), FreshRow(key, "p", Dispatching, None, 0), k, map["first" := Attempt(key, 0, 0)], 0)
  {
  }

  lemma OneSendWaits(d: NameDigest, id: string, row: SendRow, k: Campaign, held: map<string, Attempt>, ms: nat)
    ensures Next(d, OneSend(id, row, k, held, 0), Tick(ms)) == OneSend(id, row, k, held, ms)
  {
  }

  lemma OneSendSwept(d: NameDigest, id: string, row: SendRow, k: Campaign, held: map<string, Attempt>, now: int)
    requires row.status == Dispatching && now - row.queuedAt > Reconciler.STALE_DISPATCHING_AGE_MS
    ensures Next(d, OneSend(id, row, k, held, now), Reconcile(id, false)) == OneSend(id, SweptRow(row, now), k, held, now)
  {
    hide CountIn;
  }

  lemma OneSendResolved(d: NameDigest, id: string, row: SendRow, held: map<string, Attempt>, now: int)
    requires row.status == Reconciling && row.key == CampaignKey("w", "c", "p")
    ensures Next(d, OneSend(id, row, OneCampaign(false, 0), held, now), Reconcile(id, true))
         == OneSend(id, ResolvedSentRow(row), OneCampaign(false, 1), held, now)
  {
    hide CountIn;
  }

  lemma OneSendAnswered(d: NameDigest, id: string, row: SendRow, a: Attempt, now: int)
    requires row.key == CampaignKey("w", "c", "p") == a.key && id == DeriveSendId(d, a.key) && a.claimedAt <= 0 <= now
    ensures var end := Next(d, OneSend(id, row, OneCampaign(false, 1), map["first" := a], now), Finish("first", Accepted("m"), 0, 0)).db;
            && "c" in end.campaigns && end.campaigns["c"].sentCount == 2
            && id in end.sends && end.sends == map[id := end.sends[id]] && end.sends[id].status == Sent && end.sends[id].key == row.key
  {
    hide CountIn;
  }

  lemma FiveSteps(d: NameDigest, w: World, steps: seq<Step>)
    requires |steps| == 5
    ensures Exec(d, w, steps)
         == Next(d, Next(d, Next(d, Next(d, Next(d, w, steps[0]), steps[1]), steps[2]), steps[3]), steps[4])
  {
    hide Next;
    assert steps[..1][..0] == [] && steps[..2][..1] == steps[..1] && steps[..3][..2] == steps[..2];
    assert steps[..4][..3] == steps[..3] && steps[..5][..4] == steps[..4] && steps[..5] == steps;
    assert Exec(d, w, steps[..1]) == Next(d, w, steps[0]);
    assert Exec(d, w, steps[..2]) == Next(d, Exec(d, w, steps[..1]), steps[1]);
    assert Exec(d, w, steps[..3]) == Next(d, Exec(d, w, steps[..2]), steps[2]);
  }

  lemma AnswerAfterResolutionCountsTwice(d: NameDigest)
    requires d.Serves(CampaignKey("w", "c", "p"))
    ensures var w := NoSend(OneCampaign(false, 0));
            var end := Exec(d, w, LateAnswer(DeriveSendId(d, CampaignKey("w", "c", "p")))).db;
            && Initial(w) && "c" in end.campaigns
            && end.campaigns["c"].sentCount == 2 && CountIn(end.sends, "c", {Sent}) == 1
  {
    hide Next, Exec;
    var key := CampaignKey("w", "c", "p");
    var id, w := DeriveSendId(d, key), NoSend(OneCampaign(false, 0));
    var held, later := map["first" := Attempt(key, 0, 0)], Reconciler.STALE_DISPATCHING_AGE_MS + 1;
    var row := FreshRow(key, "p", Dispatching, None, 0);
    FiveSteps(d, w, LateAnswer(id));
    OneSendClaimed(d, key, OneCampaign(false, 0));
    OneSendWaits(d, id, row, OneCampaign(false, 0), held, later);
    OneSendSwept(d, id, row, OneCampaign(false, 0), held, later);
    OneSendResolved(d, id, SweptRow(row, later), held, later);
    OneSendAnswered(d, id, ResolvedSentRow(SweptRow(row, later)), Attempt(key, 0, 0), later);
    var end := Exec(d, w, LateAnswer(id)).db;
    assert RowsIn(end.sends, "c", {Sent}) == {id};
  }

  lemma EmptyLedgerIsKeyed(d: NameDigest, w: World)
    requires Initial(w)
    ensures Keyed(d, w)
  {
  }

  lemma DoneStays(d: NameDigest, w: World, s: Step, id: string)
    requires Row(w, id).Some? && Row(w, id).value.status in Done
    ensures Row(Next(d, w, s), id).Some? && Row(Next(d, w, s), id).value.status in Done
  {
    hide Next;
    PresenceChanges(d, w, s, id);
    if s.Finish? && Enabled(d, w, s) && !s.outcome.Released? {
      RecordAt(d, w, s);
    } else {
      StepMovesRow(d, w, s, id);
    }
  }

  lemma DoneStep(d: NameDigest, w: World, s: Step, c: string)
    ensures CountIn(Next(d, w, s).db.sends, c, Done) >= CountIn(w.db.sends, c, Done)
  {
    hide CountIn, Next;
    var id := Touched(d, w, s);
    OneRowChanges(d, w, s);
    CountChangesAtOne(w.db.sends, Next(d, w, s).db.sends, id, c, Done);
    if Row(w, id).Some? && Row(w, id).value.status in Done {
      DoneStays(d, w, s, id);
    }
  }

  /** Sent, failed and ambiguous rows together never get fewer, whoever acts and whenever. */
  lemma {:induction false} ProgressNeverShrinks(d: NameDigest, w: World, steps: seq<Step>, c: string)
    ensures CountIn(Exec(d, w, steps).db.sends, c, Done) >= CountIn(w.db.sends, c, Done)
    decreases |steps|
  {
    hide CountIn, Next;
    if steps != [] {
      var n := |steps| - 1;
      ProgressNeverShrinks(d, w, steps[..n], c);
      DoneStep(d, Exec(d, w, steps[..n]), steps[n], c);
    }
  }

  /** The same, as the progress figure that the completion test adds up. */
  lemma CounterProgressNeverShrinks(d: NameDigest, w: World, steps: seq<Step>, i: nat, c: string)
    requires CollisionFree(d) && Initial(w) && AllClaimsLive(d, w, steps) && AlwaysBounded(d, w, steps, c) && i <= |steps|
    requires var mid, end := Exec(d, w, steps[..i]).db, Exec(d, w, steps).db;
             c in mid.campaigns && c in end.campaigns && mid.campaigns[c].status != Canceled && end.campaigns[c].status != Canceled
    ensures var mid, end := Exec(d, w, steps[..i]).db, Exec(d, w, steps).db;
            mid.campaigns[c].sentCount + mid.campaigns[c].failedCount + CountIn(mid.sends, c, {Reconciling, Unknown})
            <= end.campaigns[c].sentCount + end.campaigns[c].failedCount + CountIn(end.sends, c, {Reconciling, Unknown})
  {
    var mid, end := Exec(d, w, steps[..i]), Exec(d, w, steps);
    PrefixOfRun(d, w, steps, i, c);
    hide CountIn, Exec, AllClaimsLive, AlwaysBounded, Keyed, Initial;
    CountersMatchTheLedger(d, w, steps[..i], c);
    CountersMatchTheLedger(d, w, steps, c);
    ProgressNeverShrinks(d, mid, steps[i..], c);
    CountByStatus(mid.db.sends, c);
    CountByStatus(end.db.sends, c);
  }

  lemma PrefixOfRun(d: NameDigest, w: World, steps: seq<Step>, i: nat, c: string)
    requires AllClaimsLive(d, w, steps) && AlwaysBounded(d, w, steps, c) && i <= |steps|
    ensures AllClaimsLive(d, w, steps[..i]) && AlwaysBounded(d, w, steps[..i], c)
    ensures Exec(d, w, steps) == Exec(d, Exec(d, w, steps[..i]), steps[i..])
  {
    hide Exec, LiveClaim, AudienceBounded;
    assert steps[..i] + steps[i..] == steps;
    forall k | 0 <= k < i ensures LiveClaim(d, Exec(d, w, steps[..i][..k]), steps[..i][k]) {
      assert steps[..i][..k] == steps[..k];
    }
    ExecAppend(d, w, steps[..i], steps[i..]);
    forall k | 0 <= k <= i ensures AudienceBounded(Exec(d, w, steps[..i][..k]), c) {
      assert steps[..i][..k] == steps[..k];
    }
  }

  predicate Completed(w: World, c: string) {
    c in w.db.campaigns && w.db.campaigns[c].status == CampaignSent
  }

  function CompletionCount(d: NameDigest, w: World, steps: seq<Step>, c: string): nat {
    if steps == [] then 0
    else
      var n := |steps| - 1;
      var at := Exec(d, w, steps[..n]);
      CompletionCount(d, w, steps[..n], c) + if !Completed(at, c) && Completed(Next(d, at, steps[n]), c) then 1 else 0
  }

  lemma CompletedStays(d: NameDigest, w: World, s: Step, c: string)
    requires Completed(w, c)
    ensures Completed(Next(d, w, s), c)
  {
    hide CountIn;
  }

  /** Completion fires at most once in any run, and a completed campaign stays completed. */
  lemma {:induction false} CompletesAtMostOnce(d: NameDigest, w: World, steps: seq<Step>, c: string)
    ensures CompletionCount(d, w, steps, c) + (if Completed(w, c) then 1 else 0)
         == (if Completed(Exec(d, w, steps), c) then 1 else 0)
    decreases |steps|
  {
    hide Next, Completed;
    if steps != [] {
      var n := |steps| - 1;
      CompletesAtMostOnce(d, w, steps[..n], c);
      if Completed(Exec(d, w, steps[..n]), c) {
        CompletedStays(d, Exec(d, w, steps[..n]), steps[n], c);
      }
    }
  }
}
