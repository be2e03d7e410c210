/**
 * When a finished campaign is completed. The completion test runs only at the end of some transactions;
 * a campaign whose figures reach its total in another one waits for the next of those.
 */
module CampaignCompletion {
  import opened Options
  import opened SendStateMachine
  import opened SendId
  import opened SendLedger
  import opened DispatchProtocol
  import opened CampaignProgress
  import Reconciler

  const AmbiguousOnes: set<SendStatus> := {Reconciling, Unknown}

  /** This step ends with the completion test for campaign `c`. */
  predicate Calls(d: NameDigest, w: World, s: Step, c: string) {
    match s
    case FanOut(campaignId, _, _) => campaignId == c && c in w.db.campaigns && !w.db.campaigns[c].fanOutComplete
    case Finish(worker, outcome, _, _) =>
      Enabled(d, w, s) && (outcome.Accepted? || outcome.Rejected?) && IsCampaign(w.held[worker].key, c)
    case Reconcile(id, hasEvidence) =>
      id in w.db.sends && IsCampaign(w.db.sends[id].key, c) && VerdictFor(w.db.sends, id, hasEvidence, w.now).ResolveSent?
    case _ => false
  }

  /** The steps that can bring a campaign to its total without testing for it. */
  predicate Silent(d: NameDigest, w: World, s: Step, c: string) {
    match s
    case Finish(worker, outcome, _, _) => Enabled(d, w, s) && outcome.AmbiguousThrow? && IsCampaign(w.held[worker].key, c)
    case Claim(_, key, _, decision, _) =>
      Enabled(d, w, s) && IsCampaign(key, c) && ClaimAnswer(w.db, DeriveSendId(d, key), key, decision).ClaimReconciling?
    case Reconcile(id, hasEvidence) =>
      id in w.db.sends && IsCampaign(w.db.sends[id].key, c) && VerdictFor(w.db.sends, id, hasEvidence, w.now).SweepToReconciling?
    case Launch(campaignId) => campaignId == c
    case _ => false
  }

  lemma NothingWaitsAfterATest(db: Db, c: string)
    ensures !Completes(TryComplete(db, c), c)
  {
  }

  lemma CallLeavesNothingWaiting(d: NameDigest, w: World, s: Step, c: string)
    requires Calls(d, w, s, c)
    ensures !Completes(Next(d, w, s).db, c)
  {
    hide CountIn;
    match s {
      case FanOut(_, sendable, excluded) =>
        var k := w.db.campaigns[c];
        var totals := k.(sendableTotal := Some(sendable), excludedTotal := Some(excluded), fanOutComplete := true);
        NothingWaitsAfterATest(w.db.(campaigns := w.db.campaigns[c := totals]), c);
      case Finish(worker, outcome, at, ms) =>
        var id := DeriveSendId(d, w.held[worker].key);
        var recorded := RecordSend(w.db.sends, id, OutcomeResult(outcome, at, ms), w.now);
        NothingWaitsAfterATest(Db(recorded, IncrementCounter(w.db.campaigns, c, outcome.Accepted?)), c);
      case Reconcile(id, _) =>
        NothingWaitsAfterATest(Db(ResolveSend(w.db.sends, id, true), BackfillCounter(w.db.campaigns, c, true)), c);
    }
  }

  /** How a campaign stands, apart from its status: only a step of its own changes that. */
  lemma CampaignAfter(d: NameDigest, w: World, s: Step, c: string)
    requires !Calls(d, w, s, c)
    ensures c in Next(d, w, s).db.campaigns <==> c in w.db.campaigns
    ensures c in w.db.campaigns ==>
              var k, k' := w.db.campaigns[c], Next(d, w, s).db.campaigns[c];
              && k' == k.(status := k'.status)
              && (k'.status == k.status || (s == Launch(c) && k'.status == Sending) || (s == Cancel(c) && k'.status == Canceled))
  {
    hide CountIn;
  }

  // ---------- the kickoff's figures ----------

  /** The kickoff's last write: its two figures, once; an empty audience completes a campaign being sent, or writes nothing. */
  lemma KickoffWritesItsFigures(d: NameDigest, w: World, c: string, sendable: nat, excluded: nat)
    requires c in w.db.campaigns
    ensures var k, w' := w.db.campaigns[c], Next(d, w, FanOut(c, sendable, excluded));
            && w'.db.sends == w.db.sends && w'.db.campaigns.Keys == w.db.campaigns.Keys
            && (forall other :: other in w.db.campaigns && other != c ==> w'.db.campaigns[other] == w.db.campaigns[other])
            && var k' := w'.db.campaigns[c];
               if k.fanOutComplete || (sendable == 0 && k.status != Sending) then k' == k
               else
                 && k'.sendableTotal == Some(sendable) && k'.excludedTotal == Some(excluded) && k'.fanOutComplete
                 && k'.sentCount == k.sentCount && k'.failedCount == k.failedCount
                 && (sendable == 0 ==> k'.status == CampaignSent)
  {
    hide CountIn;
  }

  predicate Fanned(w: World, c: string, sendable: nat, excluded: nat) {
    c in w.db.campaigns && w.db.campaigns[c].fanOutComplete
    && w.db.campaigns[c].sendableTotal == Some(sendable) && w.db.campaigns[c].excludedTotal == Some(excluded)
  }

  lemma FiguresStand(d: NameDigest, w: World, s: Step, c: string, sendable: nat, excluded: nat)
    requires Fanned(w, c, sendable, excluded)
    ensures Fanned(Next(d, w, s), c, sendable, excluded)
  {
    hide CountIn;
  }

  lemma {:induction false} FiguresAreFrozen(d: NameDigest, w: World, steps: seq<Step>, c: string, sendable: nat, excluded: nat)
    requires Fanned(w, c, sendable, excluded)
    ensures Fanned(Exec(d, w, steps), c, sendable, excluded)
    decreases |steps|
  {
    hide Next, Fanned;
    if steps != [] {
      FiguresAreFrozen(d, w, steps[..|steps| - 1], c, sendable, excluded);
      FiguresStand(d, Exec(d, w, steps[..|steps| - 1]), steps[|steps| - 1], c, sendable, excluded);
    }
  }

  /**
   * From the kickoff on, whatever was excluded: a campaign still being sent stands at its total exactly when as
   * many of its sends as the kickoff found sendable are sent, failed or ambiguous.
   */
  lemma TotalIsTheSendableAudience(d: NameDigest, w: World, steps: seq<Step>, i: nat, c: string, sendable: nat, excluded: nat)
    requires CollisionFree(d) && Initial(w) && AllClaimsLive(d, w, steps) && AlwaysBounded(d, w, steps, c)
    requires i < |steps| && steps[i] == FanOut(c, sendable, excluded)
    requires var before := Exec(d, w, steps[..i]).db.campaigns;
             c in before && !before[c].fanOutComplete && (sendable == 0 ==> before[c].status == Sending)
    ensures var end := Exec(d, w, steps);
            && Fanned(end, c, sendable, excluded)
            && (end.db.campaigns[c].status == Sending ==>
                  (Completes(end.db, c) <==> CountIn(end.db.sends, c, {Sent, Failed, Reconciling, Unknown}) >= sendable))
  {
    hide *;
    FiguresSinceKickoff(d, w, steps, i, c, sendable, excluded);
    CountersMatchTheLedger(d, w, steps, c);
    CompletesByTheFigures(Exec(d, w, steps), c, sendable, excluded);
  }

  lemma FiguresSinceKickoff(d: NameDigest, w: World, steps: seq<Step>, i: nat, c: string, sendable: nat, excluded: nat)
    requires i < |steps| && steps[i] == FanOut(c, sendable, excluded)
    requires var before := Exec(d, w, steps[..i]).db.campaigns;
             c in before && !before[c].fanOutComplete && (sendable == 0 ==> before[c].status == Sending)
    ensures Fanned(Exec(d, w, steps), c, sendable, excluded)
  {
    var at := Exec(d, w, steps[..i]);
    KickoffWritesItsFigures(d, at, c, sendable, excluded);
    hide Exec, Next;
    assert steps[..i + 1] + steps[i + 1..] == steps && steps[..i + 1][..i] == steps[..i];
    ExecLast(d, w, steps[..i + 1]);
    ExecAppend(d, w, steps[..i + 1], steps[i + 1..]);
    FiguresAreFrozen(d, Exec(d, w, steps[..i + 1]), steps[i + 1..], c, sendable, excluded);
  }

  lemma CompletesByTheFigures(w: World, c: string, sendable: nat, excluded: nat)
    requires ProgressInv(w, c) && Fanned(w, c, sendable, excluded)
    ensures w.db.campaigns[c].status == Sending ==>
              (Completes(w.db, c) <==> CountIn(w.db.sends, c, {Sent, Failed, Reconciling, Unknown}) >= sendable)
  {
    hide CountIn;
    CountByStatus(w.db.sends, c);
  }

  // ---------- the ambiguous rows ----------

  predicate MayGrow(d: NameDigest, w: World, s: Step, c: string) {
    var before, after := CountIn(w.db.sends, c, AmbiguousOnes), CountIn(Next(d, w, s).db.sends, c, AmbiguousOnes);
    before <= after && (before < after ==> Silent(d, w, s, c))
  }

  lemma FinishGrows(d: NameDigest, w: World, s: Step, c: string)
    requires CollisionFree(d) && Keyed(d, w) && s.Finish? && Enabled(d, w, s) && !Calls(d, w, s, c)
    ensures MayGrow(d, w, s, c)
  {
    hide CountIn, Keyed;
    var id := HeldId(d, w, s.worker);
    OneRowChanges(d, w, s);
    CountChangesAtOne(w.db.sends, Next(d, w, s).db.sends, id, c, AmbiguousOnes);
    if id in w.db.sends {
      HeldRowHasTheKey(d, w, s.worker);
    }
  }

  /** A claim makes a row ambiguous exactly when it answers that it found it interrupted. */
  lemma ClaimAmbiguity(d: NameDigest, w: World, s: Step)
    requires s.Claim? && Enabled(d, w, s)
    ensures var id := DeriveSendId(d, s.key);
            var before, after := Row(w, id), Row(Next(d, w, s), id);
            && (before.Some? && Ambiguous(before.value.status) ==> after.Some? && Ambiguous(after.value.status))
            && (after.Some? && Ambiguous(after.value.status) ==>
                  before.Some? && (Ambiguous(before.value.status) || ClaimAnswer(w.db, id, s.key, s.decision).ClaimReconciling?))
  {
    hide MayClaim;
  }

  lemma ClaimGrows(d: NameDigest, w: World, s: Step, c: string)
    requires CollisionFree(d) && Keyed(d, w) && s.Claim? && Enabled(d, w, s)
    ensures MayGrow(d, w, s, c)
  {
    hide CountIn, Next, CollisionFree;
    var id := DeriveSendId(d, s.key);
    OneRowChanges(d, w, s);
    ClaimAmbiguity(d, w, s);
    CountChangesAtOne(w.db.sends, Next(d, w, s).db.sends, id, c, AmbiguousOnes);
    if id in w.db.sends {
      SendIdsIdentifyIntents(d, w.db.sends[id].key, s.key);
    }
  }

  lemma ExcludeGrows(d: NameDigest, w: World, s: Step, c: string)
    requires s.KickoffExclude? && Enabled(d, w, s)
    ensures MayGrow(d, w, s, c)
  {
    hide CountIn;
    var id := DeriveSendId(d, s.key);
    OneRowChanges(d, w, s);
    CountChangesAtOne(w.db.sends, Next(d, w, s).db.sends, id, c, AmbiguousOnes);
  }

  lemma ReconcileGrows(d: NameDigest, w: World, s: Step, c: string)
    requires s.Reconcile? && !Calls(d, w, s, c)
    ensures MayGrow(d, w, s, c)
  {
    hide CountIn;
    OneRowChanges(d, w, s);
    CountChangesAtOne(w.db.sends, Next(d, w, s).db.sends, s.sendId, c, AmbiguousOnes);
  }

  lemma OthersGrow(d: NameDigest, w: World, s: Step, c: string)
    requires s.FanOut? || s.Launch? || s.Cancel? || s.Tick? || s.Crash? || !Enabled(d, w, s)
    ensures MayGrow(d, w, s, c)
  {
    hide CountIn;
  }

  /** Outside the completion test the ambiguous rows never get fewer, and more only by a silent step. */
  lemma AmbiguousAfter(d: NameDigest, w: World, s: Step, c: string)
    requires CollisionFree(d) && Keyed(d, w) && !Calls(d, w, s, c)
    ensures MayGrow(d, w, s, c)
  {
    hide MayGrow, Keyed, Calls, Enabled;
    if !Enabled(d, w, s) {
      OthersGrow(d, w, s, c);
    } else {
      match s {
        case Finish(_, _, _, _) => FinishGrows(d, w, s, c);
        case Claim(_, _, _, _, _) => ClaimGrows(d, w, s, c);
        case KickoffExclude(_, _, _) => ExcludeGrows(d, w, s, c);
        case Reconcile(_, _) => ReconcileGrows(d, w, s, c);
        case _ => OthersGrow(d, w, s, c);
      }
    }
  }

  // ---------- one step ----------

  /** A campaign comes to wait for its completion only by a silent step. */
  lemma WaitingStartsSilently(d: NameDigest, w: World, s: Step, c: string)
    requires CollisionFree(d) && Keyed(d, w) && !Completes(w.db, c) && Completes(Next(d, w, s).db, c)
    ensures Silent(d, w, s, c) && !Calls(d, w, s, c)
  {
    hide Next, Calls, CountIn, Keyed;
    if Calls(d, w, s, c) {
      CallLeavesNothingWaiting(d, w, s, c);
    } else {
      CampaignAfter(d, w, s, c);
      AmbiguousAfter(d, w, s, c);
    }
  }

  /** Without a test and without being cancelled it goes on waiting. */
  lemma WaitingGoesOn(d: NameDigest, w: World, s: Step, c: string)
    requires CollisionFree(d) && Keyed(d, w) && Completes(w.db, c) && !Calls(d, w, s, c) && s != Cancel(c)
    ensures Completes(Next(d, w, s).db, c)
  {
    hide Next, Calls, CountIn, Keyed, Silent;
    CampaignAfter(d, w, s, c);
    AmbiguousAfter(d, w, s, c);
  }

  /** The next test completes it, whatever the row that it comes with. */
  lemma CallWhileWaiting(d: NameDigest, w: World, s: Step, c: string)
    requires Completes(w.db, c) && Calls(d, w, s, c)
    ensures Completed(Next(d, w, s), c)
  {
    hide CountIn;
    OneRowChanges(d, w, s);
    CountChangesAtOne(w.db.sends, Next(d, w, s).db.sends, Touched(d, w, s), c, AmbiguousOnes);
    match s {
      case Finish(worker, outcome, at, ms) =>
        var recorded := RecordSend(w.db.sends, DeriveSendId(d, w.held[worker].key), OutcomeResult(outcome, at, ms), w.now);
        assert Completes(Db(recorded, IncrementCounter(w.db.campaigns, c, outcome.Accepted?)), c);
      case Reconcile(id, _) =>
        assert Completes(Db(ResolveSend(w.db.sends, id, true), BackfillCounter(w.db.campaigns, c, true)), c);
      case FanOut(_, _, _) =>
    }
  }

  // ---------- whole runs ----------

  ghost predicate SomeCall(d: NameDigest, w: World, steps: seq<Step>, c: string) {
    exists i :: 0 <= i < |steps| && Calls(d, Exec(d, w, steps[..i]), steps[i], c)
  }

  lemma SomeCallSnoc(d: NameDigest, w: World, steps: seq<Step>, c: string)
    requires steps != []
    ensures var n := |steps| - 1;
            SomeCall(d, w, steps, c) <==> SomeCall(d, w, steps[..n], c) || Calls(d, Exec(d, w, steps[..n]), steps[n], c)
  {
    hide Exec, Calls;
    var n := |steps| - 1;
    assert forall i :: 0 <= i < n ==> steps[..n][..i] == steps[..i] && steps[..n][i] == steps[i];
    if Calls(d, Exec(d, w, steps[..n]), steps[n], c) {
      assert SomeCall(d, w, steps, c);
    }
    if SomeCall(d, w, steps[..n], c) {
      var i :| 0 <= i < n && Calls(d, Exec(d, w, steps[..n][..i]), steps[..n][i], c);
      assert Calls(d, Exec(d, w, steps[..i]), steps[i], c);
    }
    if SomeCall(d, w, steps, c) && !Calls(d, Exec(d, w, steps[..n]), steps[n], c) {
      var i :| 0 <= i < |steps| && Calls(d, Exec(d, w, steps[..i]), steps[i], c);
      assert i < n && Calls(d, Exec(d, w, steps[..n][..i]), steps[..n][i], c);
    }
  }

  /**
   * Of a campaign whose figures have reached its total and which nobody cancels: it is completed if and
   * only if some later transaction runs the test; until then it stays `sending`, for ever if need be.
   */
  lemma {:induction false} FinishedIsCompletedIff(d: NameDigest, w: World, steps: seq<Step>, c: string)
    requires CollisionFree(d) && Keyed(d, w) && Completes(w.db, c)
    requires Cancel(c) !in steps
    ensures Completed(Exec(d, w, steps), c) <==> SomeCall(d, w, steps, c)
    ensures !SomeCall(d, w, steps, c) ==> Completes(Exec(d, w, steps).db, c)
    ensures Keyed(d, Exec(d, w, steps))
    decreases |steps|
  {
    hide Exec, Next, SomeCall, Calls, Keyed, CountIn;
    if steps == [] {
      NoSteps(d, w);
      NoCall(d, w, c);
    } else {
      var n := |steps| - 1;
      var at := Exec(d, w, steps[..n]);
      ExecLast(d, w, steps);
      SomeCallSnoc(d, w, steps, c);
      FinishedIsCompletedIff(d, w, steps[..n], c);
      KeyedStep(d, at, steps[n]);
      if Completed(at, c) {
        CompletedStays(d, at, steps[n], c);
      } else if Calls(d, at, steps[n], c) {
        CallWhileWaiting(d, at, steps[n], c);
      } else {
        WaitingGoesOn(d, at, steps[n], c);
      }
    }
  }

  lemma NoCall(d: NameDigest, w: World, c: string)
    ensures !SomeCall(d, w, [], c)
  {
  }

  /** Giving up on a row is no test: without evidence the reconciler never completes a waiting campaign. */
  lemma GivingUpCompletesNothing(d: NameDigest, w: World, steps: seq<Step>, c: string)
    requires CollisionFree(d) && Keyed(d, w) && Completes(w.db, c)
    requires forall s :: s in steps ==> s.Tick? || (s.Reconcile? && !s.hasEvidence)
    ensures Completes(Exec(d, w, steps).db, c)
  {
    hide Exec, Completes, Keyed;
    forall i | 0 <= i < |steps| ensures !Calls(d, Exec(d, w, steps[..i]), steps[i], c) {
      assert steps[i] in steps;
    }
    FinishedIsCompletedIff(d, w, steps, c);
  }

  /** The one send of a campaign is answered ambiguously and given up a day later. */
  function LastSendGivenUp(id: string): seq<Step> {
    [Claim("first", CampaignKey("w", "c", "p"), "p", Sendable, 0), FanOut("c", 1, 0), Finish("first", AmbiguousThrow, 0, 0),
     Tick(Reconciler.RECONCILE_RESOLUTION_WINDOW_MS + 1), Reconcile(id, false)]
  }

  lemma OneSendFansOut(d: NameDigest, id: string, row: SendRow, held: map<string, Attempt>)
    requires row.status == Dispatching
    ensures Next(d, OneSend(id, row, OneCampaign(false, 0), held, 0), FanOut("c", 1, 0))
         == OneSend(id, row, OneCampaign(true, 0), held, 0)
  {
    var db := Db(map[id := row], map["c" := OneCampaign(true, 0)]);
    assert RowsIn(db.sends, "c", {Reconciling, Unknown}) == {};
    assert TryComplete(db, "c") == db;
    assert map["c" := OneCampaign(false, 0)]["c" := OneCampaign(true, 0)] == db.campaigns;
  }

  lemma OneSendLeftOpen(d: NameDigest, id: string, row: SendRow, k: Campaign, a: Attempt)
    requires id == DeriveSendId(d, a.key) && a.claimedAt <= 0
    ensures Next(d, OneSend(id, row, k, map["first" := a], 0), Finish("first", AmbiguousThrow, 0, 0))
         == OneSend(id, RecordRow(row, SendResult(Reconciling, None, Some(0), Some(0)), 0), k, map[], 0)
  {
    hide CountIn;
  }

  lemma OneSendGivenUp(d: NameDigest, id: string, row: SendRow, k: Campaign, now: int)
    requires row.status == Reconciling && row.reconcilingSince == Some(0) && now > Reconciler.RECONCILE_RESOLUTION_WINDOW_MS
    ensures Next(d, OneSend(id, row, k, map[], now), Reconcile(id, false)) == OneSend(id, row.(status := Unknown), k, map[], now)
  {
    hide CountIn;
  }

  /** So a campaign can stand at its total with nothing outstanding and not be completed. */
  lemma LastSendGivenUpIsNeverCompleted(d: NameDigest)
    requires d.Serves(CampaignKey("w", "c", "p"))
    ensures var w := NoSend(OneCampaign(false, 0));
            var end := Exec(d, w, LastSendGivenUp(DeriveSendId(d, CampaignKey("w", "c", "p"))));
            && Initial(w) && Completes(end.db, "c") && end.held == map[]
            && forall id :: id in end.db.sends ==> end.db.sends[id].status == Unknown
  {
    hide Next, Exec;
    var key := CampaignKey("w", "c", "p");
    var id, w, a := DeriveSendId(d, key), NoSend(OneCampaign(false, 0)), Attempt(key, 0, 0);
    var row, later := FreshRow(key, "p", Dispatching, None, 0), Reconciler.RECONCILE_RESOLUTION_WINDOW_MS + 1;
    var open := RecordRow(row, SendResult(Reconciling, None, Some(0), Some(0)), 0);
    FiveSteps(d, w, LastSendGivenUp(id));
    OneSendClaimed(d, key, OneCampaign(false, 0));
    OneSendFansOut(d, id, row, map["first" := a]);
    OneSendLeftOpen(d, id, row, OneCampaign(true, 0), a);
    OneSendWaits(d, id, open, OneCampaign(true, 0), map[], later);
    OneSendGivenUp(d, id, open, OneCampaign(true, 0), later);
    assert RowsIn(Exec(d, w, LastSendGivenUp(id)).db.sends, "c", {Reconciling, Unknown}) == {id};
  }
}
