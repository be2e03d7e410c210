/**
 * The clock behind the live claims: locks keep two deliveries of one job apart, the provider timeout and
 * the transaction margins end an attempt inside its lock, and the sweep waits far longer than that.
 */
module TimedDispatch {
  import opened Options
  import opened SendStateMachine
  import opened SendId
  import opened SendLedger
  import opened DispatchProtocol
  import opened QueueTiming
  import Reconciler

  /** The last moment at which an attempt can still write. */
  function Deadline(a: Attempt): int {
    a.claimedAt + SENDGRID_TIMEOUT_MS + RECORD_TX_MARGIN_MS
  }

  /** One lock has run out before the other delivery took its own. */
  predicate Apart(a: Attempt, b: Attempt) {
    a.lockedAt + SEND_LOCK_DURATION_MS <= b.lockedAt || b.lockedAt + SEND_LOCK_DURATION_MS <= a.lockedAt
  }

  /** A claim commits within its margin, under a lock no unfinished delivery of the same job still has. */
  predicate OnTime(w: World, s: Step) {
    match s
    case Claim(_, key, _, _, lockedAt) =>
      && w.now <= lockedAt + CLAIM_TX_MARGIN_MS
      && forall v :: v in w.held && w.held[v].key == key ==> w.held[v].lockedAt + SEND_LOCK_DURATION_MS <= lockedAt
    case Finish(worker, _, _, _) => worker in w.held ==> w.now <= Deadline(w.held[worker])
    case _ => true
  }

  ghost predicate AllOnTime(d: NameDigest, w: World, steps: seq<Step>) {
    forall i :: 0 <= i < |steps| ==> OnTime(Exec(d, w, steps[..i]), steps[i])
  }

  /** While an attempt can still write, its row is there, `dispatching`, and as old as the claim. */
  predicate AttemptSound(d: NameDigest, w: World, a: Attempt) {
    && d.Serves(a.key)
    && a.lockedAt <= a.claimedAt <= w.now
    && a.claimedAt <= a.lockedAt + CLAIM_TX_MARGIN_MS
    && (w.now <= Deadline(a) ==>
          var id := DeriveSendId(d, a.key);
          id in w.db.sends && w.db.sends[id].status == Dispatching && w.db.sends[id].queuedAt == a.claimedAt)
  }

  ghost predicate TimedInv(d: NameDigest, w: World) {
    && (forall v :: v in w.held ==> AttemptSound(d, w, w.held[v]))
    && (forall u, v :: u in w.held && v in w.held && u != v && w.held[u].key == w.held[v].key ==>
          Apart(w.held[u], w.held[v]))
  }

  lemma OnTimeFinishIsLive(d: NameDigest, w: World, s: Step)
    requires TimedInv(d, w) && OnTime(w, s)
    ensures LiveClaim(d, w, s)
  {
    if Enabled(d, w, s) && s.Finish? {
      assert AttemptSound(d, w, w.held[s.worker]);
    }
  }

  /** No step of anybody else disturbs the row of an attempt that can still write. */
  lemma OthersLeaveTheRow(d: NameDigest, w: World, s: Step, v: string)
    requires CollisionFree(d) && TimedInv(d, w) && OnTime(w, s) && Enabled(d, w, s)
    requires v in w.held && w.now <= Deadline(w.held[v])
    requires (s.Finish? || s.Crash?) ==> s.worker != v
    ensures var id := DeriveSendId(d, w.held[v].key); Row(Next(d, w, s), id) == Row(w, id)
  {
    var a := w.held[v];
    var id := DeriveSendId(d, a.key);
    assert AttemptSound(d, w, a);
    match s {
      case Claim(_, key, _, _, lockedAt) =>
        SendIdsIdentifyIntents(d, key, a.key);
        assert key != a.key;
      case Finish(u, _, _, _) =>
        var b := w.held[u];
        assert AttemptSound(d, w, b);
        SendIdsIdentifyIntents(d, b.key, a.key);
        assert b.key != a.key || Apart(b, a);
      case Reconcile(sendId, _) =>
        assert w.now - w.db.sends[id].queuedAt <= Reconciler.STALE_DISPATCHING_AGE_MS;
      case _ =>
    }
  }

  lemma TimedInvStep(d: NameDigest, w: World, s: Step)
    requires CollisionFree(d) && TimedInv(d, w) && OnTime(w, s)
    ensures TimedInv(d, Next(d, w, s))
  {
    if Enabled(d, w, s) {
      var w' := Next(d, w, s);
      forall v | v in w'.held ensures AttemptSound(d, w', w'.held[v]) {
        if v in w.held {
          assert AttemptSound(d, w, w.held[v]);
          if w.now <= Deadline(w.held[v]) {
            OthersLeaveTheRow(d, w, s, v);
          }
        }
      }
    }
  }

  /** The recorder's duty is met by every run that keeps to the clock. */
  lemma {:induction false} LocksKeepClaimsLive(d: NameDigest, w: World, steps: seq<Step>)
    requires CollisionFree(d) && w.held == map[] && AllOnTime(d, w, steps)
    ensures AllClaimsLive(d, w, steps)
    ensures TimedInv(d, Exec(d, w, steps))
    decreases |steps|
  {
    if steps != [] {
      var n := |steps| - 1;
      forall i | 0 <= i < n ensures OnTime(Exec(d, w, steps[..n][..i]), steps[..n][i]) {
        assert steps[..n][..i] == steps[..i];
      }
      LocksKeepClaimsLive(d, w, steps[..n]);
      TimedInvStep(d, Exec(d, w, steps[..n]), steps[n]);
      forall i | 0 <= i <= n ensures LiveClaim(d, Exec(d, w, steps[..i]), steps[i]) {
        if i < n {
          assert steps[..n][..i] == steps[..i] && steps[..n][i] == steps[i];
          assert LiveClaim(d, Exec(d, w, steps[..n][..i]), steps[..n][i]);
        } else {
          OnTimeFinishIsLive(d, Exec(d, w, steps[..n]), steps[n]);
        }
      }
    }
  }

  /** A row the reconciler sweeps has no attempt left that could still write to it. */
  lemma SweptRowsHaveNoWriter(d: NameDigest, w: World, id: string, hasEvidence: bool, v: string)
    requires TimedInv(d, w) && v in w.held && DeriveSendId(d, w.held[v].key) == id
    requires id in w.db.sends && w.db.sends[id].status == Dispatching
    requires ResolveTx(w.db, id, hasEvidence, w.now) != w.db
    ensures w.now > Deadline(w.held[v])
  {
    assert AttemptSound(d, w, w.held[v]);
  }

  /** The matrix and the conservation of send permission, with no assumption left but the clock. */
  lemma TimedRunsAreSafe(d: NameDigest, w: World, steps: seq<Step>, i: nat, id: string)
    requires CollisionFree(d) && Initial(w) && AllOnTime(d, w, steps) && i < |steps|
    ensures var before, after := Row(Exec(d, w, steps[..i]), id), Row(Exec(d, w, steps[..i + 1]), id);
            before.Some? && after.Some? ==> EdgeOrStutter(before.value.status, after.value.status, WriterOf(steps[i]))
    ensures ProceedCount(d, w, steps, id) == ReleaseCount(d, w, steps, id) + Outstanding(Exec(d, w, steps), id)
    ensures Stamped(Exec(d, w, steps))
  {
    LocksKeepClaimsLive(d, w, steps);
    EveryStatusChangeIsAnEdge(d, w, steps, i, id);
    SendPermissionIsConserved(d, w, steps, id);
    StampsAgreeWithStatus(d, w, steps);
  }
}
