/**
 * Runs in which every call reads first and writes later, with other calls in between: when the status history
 * is a faithful log, and why the unsubscribe counters are exact whatever happens.
 */
module ConsentRuns {
  import opened Options
  import opened ContactIdentity
  import opened ContactLaws
  import opened SubscriptionLog

  /**
   * An upsert locks the row it matches, so towards a contact's status it is one step, with whatever views its
   * statements had of the other rows; `listed` is the suppression list as its own lookup of the address read it.
   * The other calls read in one step and write in a later one.
   */
  datatype Step =
    | UpsertStep(ws: string, input: Input, first: Views, second: Views, listed: set<(string, string)>, now: int, newId: string)
    | UnsubscribeRead(call: string, ws: string, contactId: Option<string>, sendId: Option<string>)
    | UnsubscribeWrite(call: string, occurredAt: int, source: Source, now: int)
    | SuppressRead(call: string, ws: string, target: string)
    | SuppressWrite(call: string, now: int)
    | SendStep(send: SendRow)

  /** `born` remembers the status each contact was created with; `pending` what the open calls have read. */
  datatype World = World(state: State, born: map<string, Status>, pending: map<string, Pending>)

  const Initial := World(State([], [], {}, [], map[]), map[], map[])

  /** The upsert's lookup finds its address on the list. */
  predicate Listed(s: Step, addressHash: (string, string) -> string)
    requires s.UpsertStep?
  {
    Given(s.input.email) && (s.ws, addressHash(s.ws, s.input.email.value)) in s.listed
  }

  /** The table that the upsert's last statement meets, whether or not the address is listed. */
  function LastTable(s: Step): seq<Contact>
    requires s.UpsertStep? && Plausible(s.first, s.ws, s.input) && Plausible(s.second, s.ws, s.input)
  {
    if Found(s.first, s.ws, s.input).None? && Attempt(s.first, false, s.ws, s.input, s.now, s.newId).Violated?
    then Base(s.second, s.ws, s.input) else Base(s.first, s.ws, s.input)
  }

  /** New contacts and sends come with ids nobody has used, and a send starts without the fact. */
  predicate Enabled(w: World, step: Step) {
    match step
    case UpsertStep(ws, input, first, second, listed, _, newId) =>
      && Plausible(first, ws, input) && Plausible(second, ws, input) && LastTable(step) == w.state.rows && newId !in w.born
      && listed <= w.state.suppressions
    case UnsubscribeRead(call, _, _, _) => call !in w.pending
    case UnsubscribeWrite(call, _, _, _) => call in w.pending && w.pending[call].ToUnsubscribe?
    case SuppressRead(call, _, _) => call !in w.pending
    case SuppressWrite(call, _) => call in w.pending && w.pending[call].ToSuppress?
    case SendStep(send) => send.unsubscribedAt.None? && NewSendId(w.state.sends, send.id)
  }

  predicate NewSendId(sends: seq<SendRow>, id: string) {
    forall i :: 0 <= i < |sends| ==> sends[i].id != id
  }

  /** An upsert that fails rolls back. */
  function UpsertEffect(w: World, s: Step, addressHash: (string, string) -> string): World
    requires s.UpsertStep? && Enabled(w, s)
  {
    match Upserted(s.first, s.second, Listed(s, addressHash), s.ws, s.input, s.now, s.newId)
    case Created(rows) =>
      World(w.state.(rows := rows), if rows == [] then w.born else w.born[s.newId := rows[|rows| - 1].status], w.pending)
    case Updated(rows, _, _, log) => w.(state := w.state.(rows := rows, history := w.state.history + log))
    case Violated(_) => w
  }

  function Effect(w: World, step: Step, addressHash: (string, string) -> string): World
    requires Enabled(w, step)
  {
    match step
    case UpsertStep(_, _, _, _, _, _, _) => UpsertEffect(w, step, addressHash)
    case UnsubscribeRead(call, ws, contactId, sendId) =>
      w.(pending := w.pending[call := w.state.ReadForUnsubscribe(ws, contactId, sendId)])
    case UnsubscribeWrite(call, occurredAt, source, now) =>
      w.(state := w.state.Counted(w.pending[call], occurredAt, source, now), pending := w.pending - {call})
    case SuppressRead(call, ws, target) => w.(pending := w.pending[call := w.state.ReadForSuppression(ws, target)])
    case SuppressWrite(call, now) =>
      w.(state := w.state.Suppressed(w.pending[call], addressHash, now), pending := w.pending - {call})
    case SendStep(send) => w.(state := w.state.(sends := w.state.sends + [send]))
  }

  function Next(w: World, step: Step, addressHash: (string, string) -> string): World {
    if Enabled(w, step) then Effect(w, step, addressHash) else w
  }

  function Exec(w: World, steps: seq<Step>, addressHash: (string, string) -> string): World {
    if steps == [] then w else Next(Exec(w, steps[..|steps| - 1], addressHash), steps[|steps| - 1], addressHash)
  }

  lemma ExecStep(w: World, steps: seq<Step>, addressHash: (string, string) -> string, i: nat)
    requires i < |steps|
    ensures Exec(w, steps[..i + 1], addressHash) == Next(Exec(w, steps[..i], addressHash), steps[i], addressHash)
  {
    hide Next;
    assert steps[..i + 1][..i] == steps[..i];
  }

  // ---------- what always holds ----------

  predicate HasContact(rows: seq<Contact>, id: string) {
    exists i :: 0 <= i < |rows| && rows[i].id == id
  }

  /** Where a call has read a status there is a contact. */
  predicate ReadsAContact(rows: seq<Contact>, p: Pending) {
    match p
    case ToUnsubscribe(ws, contactId, prior, _, _) => prior.Some? ==> contactId.Some? && StatusOf(rows, ws, contactId.value).Some?
    case ToSuppress(ws, target, prior) => prior.Some? ==> StatusOf(rows, ws, target).Some?
  }

  /** The table keeps its constraints, and everything that is mentioned exists. */
  predicate Known(w: World) {
    && ValidRows(w.state.rows)
    && (forall i :: 0 <= i < |w.state.rows| ==> w.state.rows[i].id in w.born)
    && (forall id :: id in w.born ==> HasContact(w.state.rows, id))
    && (forall i :: 0 <= i < |w.state.history| ==> w.state.history[i].contactId in w.born)
    && (forall call :: call in w.pending ==> ReadsAContact(w.state.rows, w.pending[call]))
  }

  /** Contacts stay where they are. */
  predicate SameIdentities(a: seq<Contact>, b: seq<Contact>) {
    |a| <= |b| && forall i :: 0 <= i < |a| ==> b[i].id == a[i].id && b[i].workspaceId == a[i].workspaceId
  }

  lemma ContactIsFound(rows: seq<Contact>, ws: string, id: string, i: nat)
    requires UniqueIds(rows) && i < |rows| && rows[i].id == id && rows[i].workspaceId == ws
    ensures FindContact(rows, ws, id) == Some(i)
  {
    var found := FindContact(rows, ws, id);
    assert found.Some?;
  }

  lemma StatusStaysKnown(a: seq<Contact>, b: seq<Contact>, ws: string, id: string)
    requires SameIdentities(a, b) && UniqueIds(b) && StatusOf(a, ws, id).Some?
    ensures StatusOf(b, ws, id).Some?
  {
    ContactIsFound(b, ws, id, FindContact(a, ws, id).value);
  }

  /** A step that keeps the identities, grows the log by rows about known contacts and reads nothing new. */
  lemma KnownGrows(w: World, after: World)
    requires Known(w) && ValidRows(after.state.rows) && SameIdentities(w.state.rows, after.state.rows)
    requires forall i :: 0 <= i < |after.state.rows| ==> after.state.rows[i].id in after.born
    requires forall id :: id in after.born ==> id in w.born || HasContact(after.state.rows, id)
    requires forall id :: id in w.born ==> id in after.born
    requires forall i :: 0 <= i < |after.state.history| ==> after.state.history[i].contactId in after.born
    requires forall call :: call in after.pending ==>
               (call in w.pending && after.pending[call] == w.pending[call]) || ReadsAContact(after.state.rows, after.pending[call])
    ensures Known(after)
  {
    assert UniqueIds(after.state.rows);
    hide ValidRows;
    forall id | id in after.born ensures HasContact(after.state.rows, id) {
      if id in w.born {
        var i :| 0 <= i < |w.state.rows| && w.state.rows[i].id == id;
        assert after.state.rows[i].id == id;
      }
    }
    forall call | call in after.pending ensures ReadsAContact(after.state.rows, after.pending[call]) {
      if call in w.pending && after.pending[call] == w.pending[call] {
        ReadStaysKnown(w.state.rows, after.state.rows, w.pending[call]);
      }
    }
  }

  lemma ReadStaysKnown(a: seq<Contact>, b: seq<Contact>, p: Pending)
    requires SameIdentities(a, b) && UniqueIds(b) && ReadsAContact(a, p)
    ensures ReadsAContact(b, p)
  {
    hide StatusOf, UniqueIds, SameIdentities;
    match p
    case ToUnsubscribe(ws, contactId, prior, _, _) => if prior.Some? { StatusStaysKnown(a, b, ws, contactId.value); }
    case ToSuppress(ws, target, prior) => if prior.Some? { StatusStaysKnown(a, b, ws, target); }
  }

  // ---------- one status write ----------

  /** Follows a contact's history from a status; None when a row does not continue it or changes nothing. */
  function Replay(history: seq<HistoryRow>, id: string, start: Status): Option<Status> {
    if history == [] then Some(start)
    else
      var row := history[|history| - 1];
      var before := Replay(history[..|history| - 1], id, start);
      if row.contactId != id then before
      else if before == Some(row.oldStatus) && row.oldStatus != row.newStatus then Some(row.newStatus)
      else None
  }

  lemma ReplayGrows(history: seq<HistoryRow>, row: HistoryRow, id: string, start: Status)
    ensures Replay(history + [row], id, start) ==
              if row.contactId != id then Replay(history, id, start)
              else if Replay(history, id, start) == Some(row.oldStatus) && row.oldStatus != row.newStatus then Some(row.newStatus)
              else None
  {
    var grown := history + [row];
    assert grown[..|grown| - 1] == history;
  }

  lemma {:induction false} ReplayOfOthers(history: seq<HistoryRow>, id: string, start: Status)
    requires forall i :: 0 <= i < |history| ==> history[i].contactId != id
    ensures Replay(history, id, start) == Some(start)
  {
    if history != [] {
      ReplayOfOthers(history[..|history| - 1], id, start);
    }
  }

  predicate Logged(w: World, i: nat)
    requires i < |w.state.rows|
  {
    && w.state.rows[i].id in w.born
    && Replay(w.state.history, w.state.rows[i].id, w.born[w.state.rows[i].id]) == Some(w.state.rows[i].status)
  }

  /** Every contact's history changes something at each row, chains, and leads from its creation status to its current one. */
  predicate Faithful(w: World) {
    forall i :: 0 <= i < |w.state.rows| ==> Logged(w, i)
  }

  /** The log rows that one status change calls for. */
  predicate Records(log: seq<HistoryRow>, id: string, before: Status, after: Status) {
    if log == [] then before == after
    else |log| == 1 && log[0].contactId == id && log[0].oldStatus == before && log[0].newStatus == after && before != after
  }

  /** After one row's change the log is still faithful exactly when the rows it gained record that change. */
  lemma OneWrite(w: World, after: World, at: nat, c: Contact, log: seq<HistoryRow>)
    requires Known(w) && Faithful(w) && at < |w.state.rows| && c.id == w.state.rows[at].id
    requires after.state.rows == w.state.rows[at := c] && after.state.history == w.state.history + log && after.born == w.born
    requires |log| <= 1 && (log != [] ==> log[0].contactId == c.id && log[0].newStatus == c.status)
    ensures Faithful(after) <==> Records(log, c.id, w.state.rows[at].status, c.status)
  {
    hide Replay, ValidRows;
    var rows := w.state.rows;
    assert UniqueIds(rows) by { ValidMeansUniqueIds(rows); }
    hide Known;
    assert Logged(w, at);
    assert log == [] ==> after.state.history == w.state.history;
    assert log != [] ==> log == [log[0]];
    forall i | 0 <= i < |rows| ensures Logged(after, i) <==> (i == at ==> Records(log, c.id, rows[at].status, c.status)) {
      assert Logged(w, i);
      assert i != at ==> rows[if i < at then i else at].id != rows[if i < at then at else i].id;
      if log != [] {
        ReplayGrows(w.state.history, log[0], rows[i].id, w.born[rows[i].id]);
      }
    }
    assert Logged(after, at) <==> Records(log, c.id, rows[at].status, c.status);
    assert Faithful(after) ==> Logged(after, at);
  }

  lemma SameRecord(w: World, after: World)
    requires after.state.rows == w.state.rows && after.state.history == w.state.history && after.born == w.born
    ensures Faithful(after) <==> Faithful(w)
  {
    hide Replay;
    assert forall i :: 0 <= i < |w.state.rows| ==> (Logged(after, i) <==> Logged(w, i));
  }

  // ---------- stale writes ----------

  /**
   * The write goes by a status that is no longer the contact's: it logs a change from it, or, having found
   * nothing to log, changes the status all the same.
   */
  predicate Stale(w: World, step: Step) {
    match step
    case UnsubscribeWrite(call, _, _, _) =>
      Enabled(w, step) &&
      var p := w.pending[call];
      WritesUnsubscribed(p) && StatusOf(w.state.rows, p.ws, p.contactId.value) != p.prior
    case SuppressWrite(call, _) =>
      Enabled(w, step) &&
      var p := w.pending[call];
      var current := StatusOf(w.state.rows, p.ws, p.target);
      if LogsSuppressed(p) then current != p.prior else current.Some? && current.value != Suppressed
    case UpsertStep(_, _, _, _, _, _, _) => false
    case UnsubscribeRead(_, _, _, _) => false
    case SuppressRead(_, _, _) => false
    case SendStep(_) => false
  }

  // ---------- one step of each kind ----------

  lemma UnsubscribeStepped(w: World, step: Step, addressHash: (string, string) -> string)
    requires Known(w) && step.UnsubscribeWrite? && Enabled(w, step)
    ensures Known(Next(w, step, addressHash))
    ensures Faithful(w) ==> (Faithful(Next(w, step, addressHash)) <==> !Stale(w, step))
  {
    var p := w.pending[step.call];
    var s := w.state;
    var after := Next(w, step, addressHash);
    assert ReadsAContact(s.rows, p);
    if !WritesUnsubscribed(p) {
      assert s.history + [] == s.history;
      KnownGrows(w, after);
      SameRecord(w, after);
    } else {
      hide Replay, ValidRows, Logged, Faithful, MarkUnsubscribed, FindContact;
      var at := FindContact(s.rows, p.ws, p.contactId.value).value;
      var log := [HistoryRow(p.ws, p.contactId.value, p.prior.value, Unsubscribed, step.source)];
      StatusKeepsConstraints(s.rows, at, Unsubscribed, step.now);
      assert after.state.rows == s.rows[at := s.rows[at].(status := Unsubscribed, updatedAt := step.now)];
      assert s.rows[at].id in w.born;
      KnownGrows(w, after);
      if Faithful(w) {
        OneWrite(w, after, at, after.state.rows[at], log);
      }
    }
  }

  lemma SuppressStepped(w: World, step: Step, addressHash: (string, string) -> string)
    requires Known(w) && step.SuppressWrite? && Enabled(w, step)
    ensures Known(Next(w, step, addressHash))
    ensures Faithful(w) ==> (Faithful(Next(w, step, addressHash)) <==> !Stale(w, step))
  {
    hide Replay, ValidRows, Logged, Faithful, FindContact;
    var p := w.pending[step.call];
    var s := w.state;
    var after := Next(w, step, addressHash);
    assert ReadsAContact(s.rows, p);
    var found := FindContact(s.rows, p.ws, p.target);
    if found.None? {
      assert s.history + [] == s.history;
      KnownGrows(w, after);
      SameRecord(w, after);
    } else {
      var at := found.value;
      var log := if LogsSuppressed(p) then [HistoryRow(p.ws, p.target, p.prior.value, Suppressed, WebhookSuppression)] else [];
      StatusKeepsConstraints(s.rows, at, Suppressed, step.now);
      assert after.state.rows == s.rows[at := s.rows[at].(status := Suppressed, updatedAt := step.now)];
      assert s.rows[at].id in w.born;
      KnownGrows(w, after);
      if Faithful(w) {
        OneWrite(w, after, at, after.state.rows[at], log);
      }
    }
  }

  /** A status write leaves the identifiers and so the constraints alone. */
  lemma StatusKeepsConstraints(rows: seq<Contact>, at: nat, status: Status, now: int)
    requires ValidRows(rows) && at < |rows|
    ensures ValidRows(rows[at := rows[at].(status := status, updatedAt := now)])
  {
    var after := rows[at := rows[at].(status := status, updatedAt := now)];
    forall i, j | 0 <= i < j < |after| ensures !SameKey(after[i], after[j]) {
      assert !SameKey(rows[i], rows[j]);
    }
  }

  lemma ReadStepped(w: World, step: Step, addressHash: (string, string) -> string)
    requires Known(w) && (step.UnsubscribeRead? || step.SuppressRead? || step.SendStep?) && Enabled(w, step)
    ensures Known(Next(w, step, addressHash)) && (Faithful(Next(w, step, addressHash)) <==> Faithful(w))
  {
    hide ValidRows, StatusOf, EffectiveContact, ResolveSend, Faithful;
    KnownGrows(w, Next(w, step, addressHash));
    SameRecord(w, Next(w, step, addressHash));
  }

  /** An attempt replaces the locked row under its id and logs the change, appends one row, or leaves its last table alone. */
  lemma AttemptShape(v: Views, suppressed: bool, ws: string, input: Input, now: int, newId: string)
    requires Plausible(v, ws, input)
    ensures var outcome := Attempt(v, suppressed, ws, input, now, newId); var base := Base(v, ws, input);
            && (outcome.Updated? ==>
                  && outcome.at < |base| && |outcome.rows| == |base|
                  && outcome.rows == base[outcome.at := outcome.rows[outcome.at]]
                  && outcome.rows[outcome.at].id == base[outcome.at].id
                  && outcome.rows[outcome.at].workspaceId == base[outcome.at].workspaceId
                  && outcome.log == StatusLog(ws, base[outcome.at], outcome.rows[outcome.at].status))
            && (outcome.Created? ==>
                  |outcome.rows| == |base| + 1 && outcome.rows[..|base|] == base && outcome.rows[|base|].id == newId)
            && (outcome.Violated? ==> outcome.rows == base)
  {
    FoundIsLive(v, ws, input);
    hide Found, Collides, TakenByAnother, NextEmail, NextExternalId, NextStatus, Evolves;
  }

  lemma UpsertShape(s: Step, addressHash: (string, string) -> string)
    requires s.UpsertStep? && Plausible(s.first, s.ws, s.input) && Plausible(s.second, s.ws, s.input)
    ensures var outcome := Upserted(s.first, s.second, Listed(s, addressHash), s.ws, s.input, s.now, s.newId); var base := LastTable(s);
            && (outcome.Updated? ==>
                  && outcome.at < |base| && |outcome.rows| == |base|
                  && outcome.rows == base[outcome.at := outcome.rows[outcome.at]]
                  && outcome.rows[outcome.at].id == base[outcome.at].id
                  && outcome.rows[outcome.at].workspaceId == base[outcome.at].workspaceId
                  && outcome.log == StatusLog(s.ws, base[outcome.at], outcome.rows[outcome.at].status))
            && (outcome.Created? ==>
                  |outcome.rows| == |base| + 1 && outcome.rows[..|base|] == base && outcome.rows[|base|].id == s.newId)
    ensures ValidRows(LastTable(s)) && FreshId(LastTable(s), s.newId) ==>
              ValidRows(Upserted(s.first, s.second, Listed(s, addressHash), s.ws, s.input, s.now, s.newId).rows)
  {
    var flag := Listed(s, addressHash);
    AttemptShape(s.first, flag, s.ws, s.input, s.now, s.newId);
    AttemptShape(s.second, flag, s.ws, s.input, s.now, s.newId);
    ListMovesNoKey(s.first, false, flag, s.ws, s.input, s.now, s.newId);
    hide Plausible, Attempt, ValidRows, FreshId, Base;
    if ValidRows(LastTable(s)) && FreshId(LastTable(s), s.newId) {
      if LastTable(s) == Base(s.first, s.ws, s.input) {
        AttemptKeepsConstraints(s.first, flag, s.ws, s.input, s.now, s.newId);
      }
      if LastTable(s) == Base(s.second, s.ws, s.input) {
        AttemptKeepsConstraints(s.second, flag, s.ws, s.input, s.now, s.newId);
      }
    }
  }

  lemma UpsertStepped(w: World, s: Step, addressHash: (string, string) -> string)
    requires Known(w) && s.UpsertStep? && Enabled(w, s)
    ensures Known(Next(w, s, addressHash)) && (Faithful(w) ==> Faithful(Next(w, s, addressHash)))
  {
    UpsertShape(s, addressHash);
    assert LastTable(s) == w.state.rows && FreshId(w.state.rows, s.newId);
    assert ValidRows(w.state.rows);
    hide ValidRows, Upserted, Plausible, Attempt, LastTable, Faithful, FreshId, Known;
    var outcome := Upserted(s.first, s.second, Listed(s, addressHash), s.ws, s.input, s.now, s.newId);
    var after := Next(w, s, addressHash);
    if outcome.Updated? {
      UpdateIsLogged(w, after, outcome.at, outcome.rows[outcome.at], s.ws);
    } else if outcome.Created? {
      assert outcome.rows == w.state.rows + [outcome.rows[|w.state.rows|]];
      CreationIsLogged(w, after, outcome.rows[|w.state.rows|]);
    }
  }

  lemma UpdateIsLogged(w: World, after: World, at: nat, c: Contact, ws: string)
    requires Known(w) && at < |w.state.rows| && c.id == w.state.rows[at].id && c.workspaceId == w.state.rows[at].workspaceId
    requires after.state.rows == w.state.rows[at := c] && ValidRows(after.state.rows) && after.born == w.born && after.pending == w.pending
    requires after.state.history == w.state.history + StatusLog(ws, w.state.rows[at], c.status)
    ensures Known(after) && (Faithful(w) ==> Faithful(after))
  {
    hide ValidRows, Replay, Faithful;
    assert w.state.rows[at].id in w.born;
    KnownGrows(w, after);
    if Faithful(w) {
      OneWrite(w, after, at, c, StatusLog(ws, w.state.rows[at], c.status));
    }
  }

  lemma CreationIsLogged(w: World, after: World, c: Contact)
    requires Known(w) && c.id !in w.born && ValidRows(after.state.rows) && after.pending == w.pending
    requires after.state.rows == w.state.rows + [c] && after.state.history == w.state.history && after.born == w.born[c.id := c.status]
    ensures Known(after) && (Faithful(w) ==> Faithful(after))
  {
    hide ValidRows;
    assert after.state.rows[|w.state.rows|].id == c.id;
    KnownGrows(w, after);
    if Faithful(w) {
      forall i | 0 <= i < |after.state.rows| ensures Logged(after, i) {
        if i < |w.state.rows| {
          assert Logged(w, i);
        } else {
          ReplayOfOthers(after.state.history, c.id, c.status);
        }
      }
    }
  }

  /** A step leaves a faithful log faithful exactly when it is not a stale write. */
  lemma StepIsFaithfulIff(w: World, step: Step, addressHash: (string, string) -> string)
    requires Known(w)
    ensures Known(Next(w, step, addressHash))
    ensures Faithful(w) ==> (Faithful(Next(w, step, addressHash)) <==> !Stale(w, step))
  {
    if !Enabled(w, step) {
      assert Next(w, step, addressHash) == w && !Stale(w, step);
    } else {
      hide Known, Faithful, Next, Enabled;
      match step {
        case UpsertStep(_, _, _, _, _, _, _) => UpsertStepped(w, step, addressHash);
        case UnsubscribeWrite(_, _, _, _) => UnsubscribeStepped(w, step, addressHash);
        case SuppressWrite(_, _) => SuppressStepped(w, step, addressHash);
        case UnsubscribeRead(_, _, _, _) => ReadStepped(w, step, addressHash);
        case SuppressRead(_, _, _) => ReadStepped(w, step, addressHash);
        case SendStep(_) => ReadStepped(w, step, addressHash);
      }
    }
  }

  // ---------- whole runs ----------

  lemma {:induction false} AlwaysKnown(steps: seq<Step>, addressHash: (string, string) -> string)
    ensures Known(Exec(Initial, steps, addressHash))
  {
    if steps != [] {
      hide Known, Next, Faithful;
      AlwaysKnown(steps[..|steps| - 1], addressHash);
      StepIsFaithfulIff(Exec(Initial, steps[..|steps| - 1], addressHash), steps[|steps| - 1], addressHash);
    }
  }

  ghost predicate NoStaleWrite(steps: seq<Step>, addressHash: (string, string) -> string) {
    forall i :: 0 <= i < |steps| ==> !Stale(Exec(Initial, steps[..i], addressHash), steps[i])
  }

  ghost predicate AlwaysFaithful(steps: seq<Step>, addressHash: (string, string) -> string) {
    forall i :: 0 <= i <= |steps| ==> Faithful(Exec(Initial, steps[..i], addressHash))
  }

  lemma {:induction false} FreshWritesKeepTheLog(steps: seq<Step>, addressHash: (string, string) -> string, i: nat)
    requires NoStaleWrite(steps, addressHash) && i <= |steps|
    ensures Faithful(Exec(Initial, steps[..i], addressHash))
  {
    hide Next, Stale, Known, Faithful;
    if i > 0 {
      FreshWritesKeepTheLog(steps, addressHash, i - 1);
      AlwaysKnown(steps[..i - 1], addressHash);
      ExecStep(Initial, steps, addressHash, i - 1);
      StepIsFaithfulIff(Exec(Initial, steps[..i - 1], addressHash), steps[i - 1], addressHash);
    } else {
      EmptyIsFaithful();
      assert steps[..0] == [];
    }
  }

  lemma EmptyIsFaithful()
    ensures Faithful(Initial)
  {
  }

  /**
   * Over any run, with any calls open at once, the history replays for every contact at every moment exactly
   * when no call ever writes by a status that is no longer the contact's.
   */
  lemma HistoryIsFaithfulIffNoStaleWrite(steps: seq<Step>, addressHash: (string, string) -> string)
    ensures AlwaysFaithful(steps, addressHash) <==> NoStaleWrite(steps, addressHash)
  {
    hide Exec, Next, Stale, Known, Faithful;
    if NoStaleWrite(steps, addressHash) {
      forall i | 0 <= i <= |steps| ensures Faithful(Exec(Initial, steps[..i], addressHash)) {
        FreshWritesKeepTheLog(steps, addressHash, i);
      }
    }
    if AlwaysFaithful(steps, addressHash) {
      forall i | 0 <= i < |steps| ensures !Stale(Exec(Initial, steps[..i], addressHash), steps[i]) {
        AlwaysKnown(steps[..i], addressHash);
        ExecStep(Initial, steps, addressHash, i);
        StepIsFaithfulIff(Exec(Initial, steps[..i], addressHash), steps[i], addressHash);
        assert Faithful(Exec(Initial, steps[..i + 1], addressHash));
      }
    }
  }

  // ---------- when a write is fresh ----------

  function CallOf(step: Step): Option<string> {
    match step
    case UnsubscribeRead(call, _, _, _) => Some(call)
    case UnsubscribeWrite(call, _, _, _) => Some(call)
    case SuppressRead(call, _, _) => Some(call)
    case SuppressWrite(call, _) => Some(call)
    case UpsertStep(_, _, _, _, _, _, _) => None
    case SendStep(_) => None
  }

  /** The status of the contact that a call is about. */
  function StatusFor(w: World, p: Pending): Option<Status> {
    match p
    case ToUnsubscribe(ws, contactId, _, _, _) => if contactId.Some? then StatusOf(w.state.rows, ws, contactId.value) else None
    case ToSuppress(ws, target, _) => StatusOf(w.state.rows, ws, target)
  }

  /** The call is still open with what it read, and the status it read still stands. */
  predicate Current(w: World, call: string) {
    call in w.pending && StatusFor(w, w.pending[call]) == w.pending[call].prior
  }

  lemma CurrentIsNotStale(w: World, step: Step)
    requires (step.UnsubscribeWrite? || step.SuppressWrite?) && Current(w, step.call)
    ensures !Stale(w, step)
  {
  }

  /**
   * A write is not stale when, since its call's read, the call itself took no step and no other step changed
   * the status of its contact.
   */
  lemma {:induction false} QuietContactMeansFreshWrite(w: World, read: Step, between: seq<Step>, write: Step, addressHash: (string, string) -> string)
    requires (read.UnsubscribeRead? && write.UnsubscribeWrite?) || (read.SuppressRead? && write.SuppressWrite?)
    requires read.call == write.call && Enabled(w, read)
    requires forall i :: 0 <= i < |between| ==> CallOf(between[i]) != Some(read.call)
    requires var start := Next(w, read, addressHash);
             forall i :: 0 <= i < |between| ==>
               StatusFor(Exec(start, between[..i + 1], addressHash), start.pending[read.call])
               == StatusFor(Exec(start, between[..i], addressHash), start.pending[read.call])
    ensures !Stale(Exec(Next(w, read, addressHash), between, addressHash), write)
  {
    var start := Next(w, read, addressHash);
    var p := start.pending[read.call];
    hide Next, Enabled, Exec, StatusFor;
    ReadIsCurrent(w, read, addressHash);
    for i := 0 to |between|
      invariant var at := Exec(start, between[..i], addressHash);
                read.call in at.pending && at.pending[read.call] == p && StatusFor(at, p) == p.prior
    {
      ExecStep(start, between, addressHash, i);
      OthersLeaveTheCall(Exec(start, between[..i], addressHash), between[i], read.call, addressHash);
      assert StatusFor(Exec(start, between[..i + 1], addressHash), p) == StatusFor(Exec(start, between[..i], addressHash), p);
    }
    assert between[..|between|] == between;
    CurrentIsNotStale(Exec(start, between, addressHash), write);
  }

  lemma ReadIsCurrent(w: World, read: Step, addressHash: (string, string) -> string)
    requires (read.UnsubscribeRead? || read.SuppressRead?) && Enabled(w, read)
    ensures var start := Next(w, read, addressHash);
            && read.call in start.pending && Exec(start, [], addressHash) == start
            && StatusFor(start, start.pending[read.call]) == start.pending[read.call].prior
  {
  }

  lemma OthersLeaveTheCall(w: World, step: Step, call: string, addressHash: (string, string) -> string)
    requires call in w.pending && CallOf(step) != Some(call)
    ensures var after := Next(w, step, addressHash); call in after.pending && after.pending[call] == w.pending[call]
  {
  }

  // ---------- two readers ----------

  const Uuid := "00000000-0000-0000-0000-000000000000"

  const Subscriber := Contact(Uuid, "w", None, None, Profile(None, None, None, None, None, None), [], map[], Subscribed, None, 0)

  const OneSubscriber := World(State([Subscriber], [], {}, [], map[]), map[Uuid := Subscribed], map[])

  /** The unsubscribe route and the provider's webhook for the same contact, both reading before either writes. */
  const TwoReaders: seq<Step> := [
    UnsubscribeRead("route", "w", Some(Uuid), None),
    UnsubscribeRead("webhook", "w", Some(Uuid), None),
    UnsubscribeWrite("route", 1, UnsubscribeRoute, 1),
    UnsubscribeWrite("webhook", 1, WebhookUnsubscribe, 1)
  ]

  const BothRead := ToUnsubscribe("w", Some(Uuid), Some(Subscribed), None, None)

  const Gone := Subscriber.(status := Unsubscribed, updatedAt := 1)

  function LogRow(source: Source): HistoryRow {
    HistoryRow("w", Uuid, Subscribed, Unsubscribed, source)
  }

  const AfterTheRoute := World(State([Gone], [LogRow(UnsubscribeRoute)], {}, [], map[]), map[Uuid := Subscribed], map["webhook" := BothRead])

  lemma ReaderReads(w: World, call: string)
    requires w.state == OneSubscriber.state && call !in w.pending
    ensures forall h :: Next(w, UnsubscribeRead(call, "w", Some(Uuid), None), h) == w.(pending := w.pending[call := BothRead])
  {
    assert IsUuid(Uuid);
    SubscriberIsFound(Subscriber);
    hide StatusOf, IsUuid;
    assert w.state.ReadForUnsubscribe("w", Some(Uuid), None) == BothRead;
  }

  lemma RouteWrites(w: World, addressHash: (string, string) -> string)
    requires w == OneSubscriber.(pending := map["route" := BothRead, "webhook" := BothRead])
    ensures Next(w, TwoReaders[2], addressHash) == AfterTheRoute
  {
    SubscriberIsFound(Subscriber);
    hide StatusOf, FindContact;
    assert w.pending - {"route"} == map["webhook" := BothRead];
    assert SetStatus([Subscriber], "w", Uuid, Unsubscribed, 1) == [Gone];
  }

  lemma WebhookWrites(addressHash: (string, string) -> string)
    ensures Stale(AfterTheRoute, TwoReaders[3])
    ensures Next(AfterTheRoute, TwoReaders[3], addressHash).state.history == [LogRow(UnsubscribeRoute), LogRow(WebhookUnsubscribe)]
  {
    SubscriberIsFound(Gone);
    hide StatusOf, FindContact, SetStatus;
  }

  /** Both log subscribed to unsubscribed, and the chain breaks, though every call kept to its code. */
  lemma TwoReadersBreakTheChain(addressHash: (string, string) -> string)
    ensures Known(OneSubscriber) && Faithful(OneSubscriber)
    ensures var last := Exec(OneSubscriber, TwoReaders, addressHash);
            && Stale(Exec(OneSubscriber, TwoReaders[..3], addressHash), TwoReaders[3])
            && !Faithful(last)
            && last.state.history == [LogRow(UnsubscribeRoute), LogRow(WebhookUnsubscribe)]
  {
    StartIsFine();
    hide Next, Stale, Known, Faithful;
    var w1 := OneSubscriber.(pending := OneSubscriber.pending["route" := BothRead]);
    var w2 := w1.(pending := w1.pending["webhook" := BothRead]);
    assert TwoReaders[..0] == [] && TwoReaders[..4] == TwoReaders;
    ExecStep(OneSubscriber, TwoReaders, addressHash, 0);
    ExecStep(OneSubscriber, TwoReaders, addressHash, 1);
    ExecStep(OneSubscriber, TwoReaders, addressHash, 2);
    ExecStep(OneSubscriber, TwoReaders, addressHash, 3);
    ReaderReads(OneSubscriber, "route");
    ReaderReads(w1, "webhook");
    RouteWrites(w2, addressHash);
    WebhookWrites(addressHash);
    FirstWriteIsFine();
    StepIsFaithfulIff(AfterTheRoute, TwoReaders[3], addressHash);
  }

  lemma StartIsFine()
    ensures Known(OneSubscriber) && Faithful(OneSubscriber)
  {
    assert OneSubscriber.state.rows[0].id == Uuid && Replay([], Uuid, Subscribed) == Some(Subscribed);
  }

  lemma SubscriberIsFound(c: Contact)
    requires c.id == Uuid && c.workspaceId == "w"
    ensures FindContact([c], "w", Uuid) == Some(0) && StatusOf([c], "w", Uuid) == Some(c.status)
  {
    ContactIsFound([c], "w", Uuid, 0);
  }

  lemma FirstWriteIsFine()
    ensures Known(AfterTheRoute) && Faithful(AfterTheRoute)
  {
    SubscriberIsFound(Gone);
    hide FindContact;
    assert AfterTheRoute.state.rows[0].id == Uuid;
    ReplayGrows([], LogRow(UnsubscribeRoute), Uuid, Subscribed);
    assert [] + [LogRow(UnsubscribeRoute)] == [LogRow(UnsubscribeRoute)] && Replay([], Uuid, Subscribed) == Some(Subscribed);
  }

  // ---------- the gated counters ----------

  function Marked(sends: seq<SendRow>, campaignId: string): nat {
    if sends == [] then 0
    else
      var last := sends[|sends| - 1];
      Marked(sends[..|sends| - 1], campaignId) + if last.campaignId == Some(campaignId) && last.unsubscribedAt.Some? then 1 else 0
  }

  function CountOf(counts: map<string, nat>, campaignId: string): nat {
    if campaignId in counts then counts[campaignId] else 0
  }

  predicate CountIsExact(s: State, campaignId: string) {
    CountOf(s.counts, campaignId) == Marked(s.sends, campaignId)
  }

  predicate UniqueSends(sends: seq<SendRow>) {
    forall i, j :: 0 <= i < j < |sends| ==> sends[i].id != sends[j].id
  }

  /** An open call still knows its send's campaign. */
  predicate KnowsItsSend(sends: seq<SendRow>, p: Pending) {
    p.ToUnsubscribe? && p.sendId.Some? ==>
      var at := SendById(sends, p.sendId.value); at.Some? && sends[at.value].campaignId == p.campaignId
  }

  predicate SendsKnown(w: World) {
    UniqueSends(w.state.sends) && forall call :: call in w.pending ==> KnowsItsSend(w.state.sends, w.pending[call])
  }

  predicate SameSends(a: seq<SendRow>, b: seq<SendRow>) {
    |a| <= |b| && forall i :: 0 <= i < |a| ==> b[i].id == a[i].id && b[i].campaignId == a[i].campaignId
  }

  lemma SendIsFound(sends: seq<SendRow>, i: nat)
    requires UniqueSends(sends) && i < |sends|
    ensures SendById(sends, sends[i].id) == Some(i)
  {
    var found := SendById(sends, sends[i].id);
    assert found.Some?;
  }

  lemma SendStaysKnown(a: seq<SendRow>, b: seq<SendRow>, p: Pending)
    requires SameSends(a, b) && UniqueSends(b) && KnowsItsSend(a, p)
    ensures KnowsItsSend(b, p)
  {
    hide UniqueSends;
    if p.ToUnsubscribe? && p.sendId.Some? {
      SendIsFound(b, SendById(a, p.sendId.value).value);
    }
  }

  lemma SendsGrow(w: World, after: World)
    requires SendsKnown(w) && UniqueSends(after.state.sends) && SameSends(w.state.sends, after.state.sends)
    requires forall call :: call in after.pending ==>
               (call in w.pending && after.pending[call] == w.pending[call]) || KnowsItsSend(after.state.sends, after.pending[call])
    ensures SendsKnown(after)
  {
    hide UniqueSends, SameSends, KnowsItsSend;
    forall call | call in after.pending ensures KnowsItsSend(after.state.sends, after.pending[call]) {
      if call in w.pending && after.pending[call] == w.pending[call] {
        SendStaysKnown(w.state.sends, after.state.sends, w.pending[call]);
      }
    }
  }

  lemma ReadKnowsItsSend(s: State, ws: string, contactId: Option<string>, sendId: Option<string>)
    requires UniqueSends(s.sends)
    ensures KnowsItsSend(s.sends, s.ReadForUnsubscribe(ws, contactId, sendId))
  {
    hide UniqueSends, EffectiveContact, StatusOf;
    var send := ResolveSend(s.sends, ws, sendId);
    if send.Some? {
      SendIsFound(s.sends, send.value);
    }
  }

  lemma SendsKnownStep(w: World, step: Step, addressHash: (string, string) -> string)
    requires SendsKnown(w)
    ensures SendsKnown(Next(w, step, addressHash))
  {
    if Enabled(w, step) {
      hide StatusOf, EffectiveContact, ResolveSend, SetStatus, Upserted, Plausible, LastTable, SendById, FindContact;
      var after := Next(w, step, addressHash);
      match step {
        case UnsubscribeRead(_, ws, contactId, sendId) => ReadKnowsItsSend(w.state, ws, contactId, sendId);
        case UpsertStep(_, _, _, _, _, _, _) =>
        case UnsubscribeWrite(_, _, _, _) =>
        case SuppressRead(_, _, _) =>
        case SuppressWrite(_, _) =>
        case SendStep(_) =>
      }
      SendsGrow(w, after);
    }
  }

  lemma {:induction false} MarkCountsOnce(sends: seq<SendRow>, at: nat, occurredAt: int, campaignId: string)
    requires at < |sends| && sends[at].unsubscribedAt.None?
    ensures Marked(sends[at := sends[at].(unsubscribedAt := Some(occurredAt))], campaignId) ==
              Marked(sends, campaignId) + if sends[at].campaignId == Some(campaignId) then 1 else 0
  {
    var n := |sends| - 1;
    var after := sends[at := sends[at].(unsubscribedAt := Some(occurredAt))];
    if at < n {
      MarkCountsOnce(sends[..n], at, occurredAt, campaignId);
      assert after[..n] == sends[..n][at := sends[at].(unsubscribedAt := Some(occurredAt))];
    } else {
      assert after[..n] == sends[..n];
    }
  }

  lemma WriteKeepsCount(s: State, p: Pending, occurredAt: int, source: Source, now: int, campaignId: string)
    requires p.ToUnsubscribe? && KnowsItsSend(s.sends, p) && CountIsExact(s, campaignId)
    ensures CountIsExact(s.Counted(p, occurredAt, source, now), campaignId)
  {
    hide Marked, SetStatus, SendById;
    if s.JustSets(p) {
      MarkCountsOnce(s.sends, SendById(s.sends, p.sendId.value).value, occurredAt, campaignId);
    }
  }

  lemma StepKeepsCount(w: World, step: Step, addressHash: (string, string) -> string, campaignId: string)
    requires SendsKnown(w) && CountIsExact(w.state, campaignId)
    ensures CountIsExact(Next(w, step, addressHash).state, campaignId)
  {
    if Enabled(w, step) {
      hide StatusOf, EffectiveContact, ResolveSend, SetStatus, Upserted, Plausible, LastTable, SendById, FindContact, UniqueSends, KnowsItsSend;
      match step {
        case UnsubscribeWrite(call, occurredAt, source, now) =>
          hide CountIsExact;
          WriteKeepsCount(w.state, w.pending[call], occurredAt, source, now, campaignId);
        case SendStep(send) =>
          var grown := w.state.sends + [send];
          assert grown[..|grown| - 1] == w.state.sends;
        case UpsertStep(_, _, _, _, _, _, _) =>
        case UnsubscribeRead(_, _, _, _) =>
        case SuppressRead(_, _, _) =>
        case SuppressWrite(_, _) =>
      }
    }
  }

  /** Over any run, stale writes and all, a campaign's unsubscribe counter is the number of its sends with the fact. */
  lemma {:induction false} CountersMatchTheFacts(steps: seq<Step>, addressHash: (string, string) -> string, campaignId: string)
    ensures SendsKnown(Exec(Initial, steps, addressHash))
    ensures CountIsExact(Exec(Initial, steps, addressHash).state, campaignId)
  {
    if steps != [] {
      hide CountIsExact, Next, SendsKnown;
      var before := Exec(Initial, steps[..|steps| - 1], addressHash);
      CountersMatchTheFacts(steps[..|steps| - 1], addressHash, campaignId);
      SendsKnownStep(before, steps[|steps| - 1], addressHash);
      StepKeepsCount(before, steps[|steps| - 1], addressHash, campaignId);
    }
  }

  // ---------- the fact of one send ----------

  predicate HasFact(sends: seq<SendRow>, id: string) {
    exists i :: 0 <= i < |sends| && sends[i].id == id && sends[i].unsubscribedAt.Some?
  }

  /** The step sets this send's fact: it answers `sendFactJustSet`. */
  predicate SetsFact(w: World, step: Step, id: string) {
    step.UnsubscribeWrite? && Enabled(w, step) && w.pending[step.call].sendId == Some(id) && w.state.JustSets(w.pending[step.call])
  }

  ghost function TimesJustSet(steps: seq<Step>, addressHash: (string, string) -> string, id: string): nat {
    if steps == [] then 0
    else
      var before := steps[..|steps| - 1];
      TimesJustSet(before, addressHash, id) + if SetsFact(Exec(Initial, before, addressHash), steps[|steps| - 1], id) then 1 else 0
  }

  lemma MarkGivesFact(sends: seq<SendRow>, at: nat, occurredAt: int, id: string)
    requires UniqueSends(sends) && at < |sends| && sends[at].unsubscribedAt.None?
    ensures var after := sends[at := sends[at].(unsubscribedAt := Some(occurredAt))];
            && (HasFact(after, id) <==> HasFact(sends, id) || sends[at].id == id)
            && (sends[at].id == id ==> !HasFact(sends, id))
  {
    var after := sends[at := sends[at].(unsubscribedAt := Some(occurredAt))];
    if i :| 0 <= i < |sends| && sends[i].id == id && sends[i].unsubscribedAt.Some? {
      assert after[i] == sends[i];
    }
    if sends[at].id == id {
      assert after[at].id == id && after[at].unsubscribedAt.Some?;
    }
  }

  lemma FactChanges(w: World, step: Step, addressHash: (string, string) -> string, id: string)
    requires SendsKnown(w)
    ensures HasFact(Next(w, step, addressHash).state.sends, id) <==> HasFact(w.state.sends, id) || SetsFact(w, step, id)
    ensures SetsFact(w, step, id) ==> !HasFact(w.state.sends, id)
  {
    if Enabled(w, step) {
      hide StatusOf, EffectiveContact, ResolveSend, SetStatus, Upserted, Plausible, LastTable, FindContact, KnowsItsSend, FindRow;
      var sends := w.state.sends;
      match step {
        case SendStep(send) =>
          if i :| 0 <= i < |sends| && sends[i].id == id && sends[i].unsubscribedAt.Some? {
            assert (sends + [send])[i] == sends[i];
          }
        case UnsubscribeWrite(call, occurredAt, _, _) =>
          var p := w.pending[call];
          if w.state.JustSets(p) {
            MarkGivesFact(sends, SendById(sends, p.sendId.value).value, occurredAt, id);
          }
        case UpsertStep(_, _, _, _, _, _, _) =>
        case UnsubscribeRead(_, _, _, _) =>
        case SuppressRead(_, _, _) =>
        case SuppressWrite(_, _) =>
      }
    }
  }

  /** Over any run, a send's fact is just set at most once: exactly once if it is set at the end, never otherwise. */
  lemma {:induction false} FactIsSetAtMostOnce(steps: seq<Step>, addressHash: (string, string) -> string, id: string)
    ensures TimesJustSet(steps, addressHash, id) == if HasFact(Exec(Initial, steps, addressHash).state.sends, id) then 1 else 0
  {
    if steps != [] {
      hide Next, SetsFact, HasFact, SendsKnown, CountIsExact;
      FactIsSetAtMostOnce(steps[..|steps| - 1], addressHash, id);
      CountersMatchTheFacts(steps[..|steps| - 1], addressHash, "");
      FactChanges(Exec(Initial, steps[..|steps| - 1], addressHash), steps[|steps| - 1], addressHash, id);
    }
  }

  // ---------- suppression ----------

  /** No single upsert takes a suppressed contact to subscribed. */
  lemma OneUpsertNeverResubscribes(v: Views, suppressed: bool, ws: string, input: Input, now: int, newId: string, i: nat)
    requires Plausible(v, ws, input) && i < |Base(v, ws, input)| && Base(v, ws, input)[i].status == Suppressed
    ensures var after := Attempt(v, suppressed, ws, input, now, newId).rows; i < |after| && after[i].status != Subscribed
  {
    FoundIsLive(v, ws, input);
    hide Found, Collides, TakenByAnother, NextEmail, NextExternalId, Evolves;
  }

  /** Two do: asking for unsubscribed and then for subscribed lifts any suppression the lookups reach. */
  lemma TwoUpsertsResubscribe(rows: seq<Contact>, suppressed: bool, ws: string, input: Input, now: int, newId: string)
    requires ValidRows(rows) && FreshId(rows, newId) && Matching(rows, ws, input).Some?
    requires rows[Matching(rows, ws, input).value].status == Suppressed
    ensures var at := Matching(rows, ws, input).value;
            var first := UpsertedAlone(rows, suppressed, ws, input.(status := Some(Unsubscribed)), now, newId);
            var second := UpsertedAlone(first.rows, suppressed, ws, input.(status := Some(Subscribed)), now, newId);
            at < |second.rows| && second.rows[at].id == rows[at].id && second.rows[at].status == Subscribed
  {
    var at := Matching(rows, ws, input).value;
    var leaving, returning := input.(status := Some(Unsubscribed)), input.(status := Some(Subscribed));
    SameLookups(rows, ws, input, leaving);
    var first := UpsertedAlone(rows, suppressed, ws, leaving, now, newId);
    hide Matching, NextEmail, NextExternalId, ValidRows, UpsertedAlone, EmptyKeyHeld, FreshId;
    MatchNames(rows, ws, leaving);
    UpsertAgreesWithLookup(rows, suppressed, ws, leaving, now, newId);
    SecondFindsTheFirst(rows, suppressed, ws, leaving, now, newId);
    SameLookups(first.rows, ws, leaving, returning);
    UpsertAgreesWithLookup(first.rows, suppressed, ws, returning, now, newId);
  }

  lemma MatchNames(rows: seq<Contact>, ws: string, input: Input)
    requires Matching(rows, ws, input).Some?
    ensures Given(input.externalId) || Given(input.email)
  {
  }

  lemma SameLookups(rows: seq<Contact>, ws: string, a: Input, b: Input)
    requires a.externalId == b.externalId && a.email == b.email
    ensures Matching(rows, ws, a) == Matching(rows, ws, b)
  {
  }
}
