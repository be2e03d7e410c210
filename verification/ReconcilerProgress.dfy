/** What reconciler ticks do, over time, to a row for which no evidence ever arrives. */
module ReconcilerProgress {
  import opened Options
  import opened SendStateMachine
  import opened SendLedger
  import opened Reconciler

  /** One tick on a row without evidence. */
  function TickRow(row: SendRow, now: int): SendRow {
    match ClassifyReconcilableSend(ReconcileInput(row.status, row.queuedAt, row.reconcilingSince, false, now))
    case SweepToReconciling => SweptRow(row, now)
    case ResolveUnknown => row.(status := Unknown)
    case _ => row
  }

  /** That is what the reconciler's transaction does to the table. */
  lemma TickIsTheTransaction(db: Db, id: string, now: int)
    requires id in db.sends
    ensures ResolveTx(db, id, false, now) == db.(sends := db.sends[id := TickRow(db.sends[id], now)])
  {
    assert db.sends[id := db.sends[id]] == db.sends;
  }

  function AfterTicks(row: SendRow, ticks: seq<int>): SendRow {
    if ticks == [] then row else TickRow(AfterTicks(row, ticks[..|ticks| - 1]), ticks[|ticks| - 1])
  }

  /** Ticks in order with no pause longer than `period`. */
  predicate Regular(ticks: seq<int>, period: nat) {
    forall i :: 0 <= i < |ticks| - 1 ==> ticks[i] <= ticks[i + 1] <= ticks[i] + period
  }

  lemma {:induction false} FirstTickAfter(ticks: seq<int>, period: nat, bound: int, lo: nat) returns (i: nat)
    requires Regular(ticks, period) && lo < |ticks|
    requires ticks[lo] <= bound + period && bound < ticks[|ticks| - 1]
    ensures lo <= i < |ticks| && bound < ticks[i] <= bound + period
    ensures forall k :: lo <= k < i ==> ticks[k] <= bound
    decreases |ticks| - lo
  {
    if ticks[lo] > bound {
      i := lo;
    } else {
      i := FirstTickAfter(ticks, period, bound, lo + 1);
    }
  }

  /** From `lo` on, ticks that do not move the row it has become leave it there. */
  lemma {:induction false} StaysAs(row: SendRow, ticks: seq<int>, lo: nat, hi: nat, became: SendRow)
    requires lo <= hi <= |ticks| && AfterTicks(row, ticks[..lo]) == became
    requires forall k :: lo <= k < hi ==> TickRow(became, ticks[k]) == became
    ensures forall k :: lo <= k <= hi ==> AfterTicks(row, ticks[..k]) == became
    decreases hi
  {
    if lo < hi {
      StaysAs(row, ticks, lo, hi - 1, became);
      OneMoreTick(row, ticks, hi - 1);
    }
  }

  lemma OneMoreTick(row: SendRow, ticks: seq<int>, i: nat)
    requires i < |ticks|
    ensures AfterTicks(row, ticks[..i + 1]) == TickRow(AfterTicks(row, ticks[..i]), ticks[i])
  {
    assert ticks[..i + 1][..i] == ticks[..i];
  }

  /**
   * A `dispatching` row that nobody finishes is swept at the first tick past the stale age, so within
   * that age plus one period, and given up as `unknown` at the first tick past the resolution window
   * counted from the sweep; between those two ticks and after them its status does not move.
   */
  lemma OrphanIsSweptThenGivenUp(row: SendRow, ticks: seq<int>, period: nat) returns (swept: nat, givenUp: nat)
    requires row.status == Dispatching && row.reconcilingSince.None?
    requires ticks != [] && Regular(ticks, period)
    requires ticks[0] <= row.queuedAt + STALE_DISPATCHING_AGE_MS + period
    requires ticks[|ticks| - 1] > row.queuedAt + STALE_DISPATCHING_AGE_MS + RECONCILE_RESOLUTION_WINDOW_MS + period
    ensures swept < givenUp < |ticks|
    ensures STALE_DISPATCHING_AGE_MS < ticks[swept] - row.queuedAt <= STALE_DISPATCHING_AGE_MS + period
    ensures RECONCILE_RESOLUTION_WINDOW_MS < ticks[givenUp] - ticks[swept] <= RECONCILE_RESOLUTION_WINDOW_MS + period
    ensures forall k :: 0 <= k <= swept ==> AfterTicks(row, ticks[..k]) == row
    ensures forall k :: swept < k <= givenUp ==> AfterTicks(row, ticks[..k]) == SweptRow(row, ticks[swept])
    ensures forall k :: givenUp < k <= |ticks| ==> AfterTicks(row, ticks[..k]).status == Unknown
  {
    hide AfterTicks;
    swept := FirstTickAfter(ticks, period, row.queuedAt + STALE_DISPATCHING_AGE_MS, 0);
    givenUp := FirstTickAfter(ticks, period, ticks[swept] + RECONCILE_RESOLUTION_WINDOW_MS, swept);
    var sweptRow := SweptRow(row, ticks[swept]);
    var lostRow := sweptRow.(status := Unknown);
    NoTicks(row, ticks);
    StaysAs(row, ticks, 0, swept, row);
    OneMoreTick(row, ticks, swept);
    StaysAs(row, ticks, swept + 1, givenUp, sweptRow);
    OneMoreTick(row, ticks, givenUp);
    StaysAs(row, ticks, givenUp + 1, |ticks|, lostRow);
  }

  lemma NoTicks(row: SendRow, ticks: seq<int>)
    ensures AfterTicks(row, ticks[..0]) == row
  {
    assert ticks[..0] == [];
  }
}
