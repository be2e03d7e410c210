/**
 * What an unsubscribe and a suppression leave behind, column by column: the contact's status, its history, the
 * fact on the send, and the workspace's suppression list, which decides the status of every later contact.
 */
module ConsentRecords {
  import opened Options
  import opened ContactIdentity
  import opened ContactLaws
  import opened ContactRecords
  import opened SubscriptionLog
  import opened ConsentRuns
  import SendId

  // ---------- whom an unsubscribe concerns ----------

  /** Five groups of hex digits, of eight, four, four, four and twelve. */
  lemma UuidShape(s: string)
    ensures IsUuid(s) <==>
              && |s| == 36 && s[8] == '-' && s[13] == '-' && s[18] == '-' && s[23] == '-'
              && forall i :: 0 <= i < 36 && i != 8 && i != 13 && i != 18 && i != 23 ==> SendId.HexValue(s[i]).Some?
  {
  }

  /** The send that is named, where the workspace has it. */
  predicate IsSend(send: SendRow, ws: string, sendId: Option<string>) {
    sendId == Some(send.id) && send.workspaceId == ws
  }

  /**
   * The contact is the caller's where it names one, and else that of the send it names; nobody if that is no UUID.
   * The campaign is the send's.
   */
  lemma WhatAnUnsubscribeReads(s: State, ws: string, contactId: Option<string>, sendId: Option<string>, i: nat)
    requires UniqueSends(s.sends)
    ensures var p := s.ReadForUnsubscribe(ws, contactId, sendId);
            && p.ws == ws
            && (contactId.Some? ==> p.contactId == if IsUuid(contactId.value) then contactId else None)
            && (i < |s.sends| && IsSend(s.sends[i], ws, sendId) ==>
                  && p.sendId == sendId && p.campaignId == s.sends[i].campaignId
                  && (contactId.None? ==> p.contactId == if IsUuid(s.sends[i].contactId) then Some(s.sends[i].contactId) else None))
            && ((forall j :: 0 <= j < |s.sends| ==> !IsSend(s.sends[j], ws, sendId)) ==>
                  p.sendId == None && p.campaignId == None && (contactId.None? ==> p.contactId == None))
  {
    hide IsUuid;
    if i < |s.sends| && IsSend(s.sends[i], ws, sendId) {
      var found := FindSend(s.sends, ws, sendId.value);
      assert found.Some?;
    }
  }

  predicate IsContact(c: Contact, ws: string, id: string) {
    c.id == id && c.workspaceId == ws
  }

  /** The status a call has read is that of the workspace's contact, or none where it has no such contact. */
  predicate ReadOf(rows: seq<Contact>, ws: string, id: string, prior: Option<Status>, i: nat) {
    && (i < |rows| && IsContact(rows[i], ws, id) ==> prior == Some(rows[i].status))
    && ((forall j :: 0 <= j < |rows| ==> !IsContact(rows[j], ws, id)) ==> prior == None)
  }

  lemma WhatStatusIsRead(s: State, ws: string, contactId: Option<string>, sendId: Option<string>, target: string, i: nat)
    requires UniqueIds(s.rows)
    ensures var p := s.ReadForUnsubscribe(ws, contactId, sendId);
            if p.contactId.Some? then ReadOf(s.rows, ws, p.contactId.value, p.prior, i) else p.prior == None
    ensures var p := s.ReadForSuppression(ws, target);
            p.ToSuppress? && p.ws == ws && p.target == target && ReadOf(s.rows, ws, target, p.prior, i)
  {
    StatusRead(s.rows, ws, target, i);
    var p := s.ReadForUnsubscribe(ws, contactId, sendId);
    if p.contactId.Some? {
      StatusRead(s.rows, ws, p.contactId.value, i);
    }
  }

  lemma StatusRead(rows: seq<Contact>, ws: string, id: string, i: nat)
    requires UniqueIds(rows)
    ensures ReadOf(rows, ws, id, StatusOf(rows, ws, id), i)
  {
    if i < |rows| && IsContact(rows[i], ws, id) {
      ContactIsFound(rows, ws, id, i);
    }
  }

  // ---------- what the writes leave ----------

  /** One contact gets a status, and nothing else happens to anybody. */
  lemma StatusWritten(rows: seq<Contact>, ws: string, id: string, status: Status, now: int, i: nat)
    requires UniqueIds(rows) && i < |rows|
    ensures var after := SetStatus(rows, ws, id, status, now);
            && |after| == |rows|
            && after[i] == if IsContact(rows[i], ws, id) then rows[i].(status := status, updatedAt := now) else rows[i]
  {
    if IsContact(rows[i], ws, id) {
      ContactIsFound(rows, ws, id, i);
    }
  }

  /** The call found a contact and read another status than unsubscribed. */
  predicate FoundStillSubscribed(p: Pending)
    requires p.ToUnsubscribe?
  {
    p.contactId.Some? && (p.prior == Some(Subscribed) || p.prior == Some(Suppressed))
  }

  /**
   * An unsubscribe that read another status leaves its contact unsubscribed and logs the change from what it read;
   * one that read `unsubscribed`, or no contact, changes no status and logs nothing. The list is not touched.
   */
  lemma UnsubscribeTakesEffect(s: State, p: Pending, occurredAt: int, source: Source, now: int, i: nat)
    requires p.ToUnsubscribe? && UniqueIds(s.rows) && i < |s.rows|
    ensures var after := s.Counted(p, occurredAt, source, now);
            && |after.rows| == |s.rows|
            && after.rows[i] == (if FoundStillSubscribed(p) && IsContact(s.rows[i], p.ws, p.contactId.value)
                                 then s.rows[i].(status := Unsubscribed, updatedAt := now) else s.rows[i])
            && after.history == s.history + (if FoundStillSubscribed(p)
                                             then [HistoryRow(p.ws, p.contactId.value, p.prior.value, Unsubscribed, source)] else [])
            && after.suppressions == s.suppressions
  {
    if FoundStillSubscribed(p) {
      hide SetStatus;
      StatusWritten(s.rows, p.ws, p.contactId.value, Unsubscribed, now, i);
    }
  }

  /** The fact is set to the time of the unsubscribe where it is absent, and stands where it is present. */
  lemma FactIsWritten(s: State, p: Pending, occurredAt: int, source: Source, now: int, i: nat)
    requires p.ToUnsubscribe? && UniqueSends(s.sends) && i < |s.sends|
    ensures var after := s.Counted(p, occurredAt, source, now);
            && |after.sends| == |s.sends|
            && after.sends[i] == if p.contactId.Some? && p.sendId == Some(s.sends[i].id) && s.sends[i].unsubscribedAt == None
                                 then s.sends[i].(unsubscribedAt := Some(occurredAt)) else s.sends[i]
  {
    if p.sendId == Some(s.sends[i].id) {
      SendIsFound(s.sends, i);
    }
  }

  /** The entry that a suppression of this contact puts on the list. */
  predicate Enters(c: Contact, ws: string, target: string, addressHash: (string, string) -> string, entry: (string, string)) {
    IsContact(c, ws, target) && c.email.Some? && c.email.value != "" && entry == (ws, addressHash(ws, c.email.value))
  }

  /**
   * A suppression leaves its contact suppressed whatever it read, logs the change from another status it read, and
   * adds to the list the hash of the contact's address, if it has one, and nothing else.
   */
  lemma SuppressionTakesEffect(s: State, p: Pending, addressHash: (string, string) -> string, now: int, i: nat)
    requires p.ToSuppress? && UniqueIds(s.rows) && i < |s.rows|
    ensures var after := s.Suppressed(p, addressHash, now);
            && |after.rows| == |s.rows|
            && after.rows[i] == (if IsContact(s.rows[i], p.ws, p.target)
                                 then s.rows[i].(status := Suppressed, updatedAt := now) else s.rows[i])
            && after.history == s.history + (if p.prior == Some(Subscribed) || p.prior == Some(Unsubscribed)
                                             then [HistoryRow(p.ws, p.target, p.prior.value, Suppressed, WebhookSuppression)] else [])
            && after.sends == s.sends && after.counts == s.counts
  {
    hide SetStatus;
    StatusWritten(s.rows, p.ws, p.target, Suppressed, now, i);
  }

  lemma SuppressionEntersTheList(s: State, p: Pending, addressHash: (string, string) -> string, now: int, entry: (string, string))
    requires p.ToSuppress? && UniqueIds(s.rows)
    ensures entry in s.Suppressed(p, addressHash, now).suppressions <==>
              entry in s.suppressions || exists i :: 0 <= i < |s.rows| && Enters(s.rows[i], p.ws, p.target, addressHash, entry)
  {
    hide SetStatus;
    var found := FindContact(s.rows, p.ws, p.target);
    if i :| 0 <= i < |s.rows| && Enters(s.rows[i], p.ws, p.target, addressHash, entry) {
      ContactIsFound(s.rows, p.ws, p.target, i);
    }
    if found.Some? && Given(s.rows[found.value].email) && entry == (p.ws, addressHash(p.ws, s.rows[found.value].email.value)) {
      assert Enters(s.rows[found.value], p.ws, p.target, addressHash, entry);
    }
  }

  // ---------- the list over a run ----------

  /** This step is a suppression of a contact that has, at this moment, an address with this hash. */
  predicate SuppressesAddress(w: World, step: Step, addressHash: (string, string) -> string, entry: (string, string)) {
    step.SuppressWrite? && step.call in w.pending && w.pending[step.call].ToSuppress? &&
    var p := w.pending[step.call];
    exists i :: 0 <= i < |w.state.rows| && Enters(w.state.rows[i], p.ws, p.target, addressHash, entry)
  }

  lemma ListGrowsBySuppression(w: World, step: Step, addressHash: (string, string) -> string, entry: (string, string))
    requires Known(w)
    ensures entry in Next(w, step, addressHash).state.suppressions <==>
              entry in w.state.suppressions || SuppressesAddress(w, step, addressHash, entry)
  {
    assert UniqueIds(w.state.rows) by { ValidMeansUniqueIds(w.state.rows); }
    hide Known, Plausible, LastTable, Upserted;
    if step.SuppressWrite? && step.call in w.pending && w.pending[step.call].ToSuppress? {
      hide State.Suppressed, Enters;
      SuppressionEntersTheList(w.state, w.pending[step.call], addressHash, step.now, entry);
    } else {
      hide Enters;
    }
  }

  /** Some step of the run has suppressed this address. */
  ghost predicate HasSuppressed(steps: seq<Step>, addressHash: (string, string) -> string, entry: (string, string)) {
    exists i :: SuppressedAt(steps, addressHash, entry, i)
  }

  predicate SuppressedAt(steps: seq<Step>, addressHash: (string, string) -> string, entry: (string, string), i: int) {
    0 <= i < |steps| && SuppressesAddress(Exec(Initial, steps[..i], addressHash), steps[i], addressHash, entry)
  }

  lemma OneMoreStep(steps: seq<Step>, addressHash: (string, string) -> string, entry: (string, string))
    requires steps != []
    ensures var n := |steps| - 1;
            HasSuppressed(steps, addressHash, entry) <==>
              HasSuppressed(steps[..n], addressHash, entry)
              || SuppressesAddress(Exec(Initial, steps[..n], addressHash), steps[n], addressHash, entry)
  {
    hide Exec, SuppressesAddress;
    var n := |steps| - 1;
    var before := steps[..n];
    forall i | 0 <= i < n ensures SuppressedAt(before, addressHash, entry, i) <==> SuppressedAt(steps, addressHash, entry, i) {
      assert before[..i] == steps[..i] && before[i] == steps[i];
    }
    assert SuppressedAt(steps, addressHash, entry, n) <==>
             SuppressesAddress(Exec(Initial, steps[..n], addressHash), steps[n], addressHash, entry);
    hide SuppressedAt;
    if HasSuppressed(before, addressHash, entry) {
      var i :| SuppressedAt(before, addressHash, entry, i);
      IndexInRange(before, addressHash, entry, i);
      assert SuppressedAt(steps, addressHash, entry, i);
    }
    if HasSuppressed(steps, addressHash, entry) {
      var i :| SuppressedAt(steps, addressHash, entry, i);
      IndexInRange(steps, addressHash, entry, i);
      assert i < n ==> SuppressedAt(before, addressHash, entry, i);
    }
  }

  lemma IndexInRange(steps: seq<Step>, addressHash: (string, string) -> string, entry: (string, string), i: int)
    requires SuppressedAt(steps, addressHash, entry, i)
    ensures 0 <= i < |steps|
  {
  }

  lemma NothingSuppressedYet(addressHash: (string, string) -> string, entry: (string, string))
    ensures !HasSuppressed([], addressHash, entry) && Exec(Initial, [], addressHash).state.suppressions == {}
  {
  }

  /** Over any run the list holds exactly the addresses suppressed so far: each of them, for good, and no other. */
  lemma {:induction false} ListIsTheSuppressedAddresses(steps: seq<Step>, addressHash: (string, string) -> string, entry: (string, string))
    ensures entry in Exec(Initial, steps, addressHash).state.suppressions <==> HasSuppressed(steps, addressHash, entry)
    decreases |steps|
  {
    hide *;
    if steps == [] {
      NothingSuppressedYet(addressHash, entry);
    } else {
      var n := |steps| - 1;
      ListIsTheSuppressedAddresses(steps[..n], addressHash, entry);
      AlwaysKnown(steps[..n], addressHash);
      ListGrowsBySuppression(Exec(Initial, steps[..n], addressHash), steps[n], addressHash, entry);
      OneMoreStep(steps, addressHash, entry);
      ExecLast(steps, addressHash);
    }
  }

  lemma ExecLast(steps: seq<Step>, addressHash: (string, string) -> string)
    requires steps != []
    ensures Exec(Initial, steps, addressHash) == Next(Exec(Initial, steps[..|steps| - 1], addressHash), steps[|steps| - 1], addressHash)
  {
    hide Next;
  }

  // ---------- what the list is for ----------

  /** This step adds a contact to the table. */
  predicate Creates(w: World, step: Step, addressHash: (string, string) -> string) {
    step.UpsertStep? && |Next(w, step, addressHash).state.rows| > |w.state.rows|
  }

  /** A contact that an upsert adds is suppressed exactly as its lookup of the list said, or as it was asked for. */
  lemma AddedContactIsSuppressedIff(w: World, step: Step, addressHash: (string, string) -> string)
    requires Creates(w, step, addressHash)
    ensures var rows := Next(w, step, addressHash).state.rows;
            && |rows| == |w.state.rows| + 1 && rows[..|w.state.rows|] == w.state.rows
            && var c := rows[|w.state.rows|];
               && c.id == step.newId && c.workspaceId == step.ws && c.email == step.input.email
               && c.status == (if step.input.email.Some? && step.input.email.value != "" && (step.ws, addressHash(step.ws, step.input.email.value)) in step.listed
                               then Suppressed else Filled(step.input.status, Subscribed))
  {
    UpsertShape(step, addressHash);
    assert LastTable(step) == w.state.rows;
    var flag := Listed(step, addressHash);
    hide Plausible, LastTable, Found;
    UpsertIsAnAttempt(step.first, step.second, flag, step.ws, step.input, step.now, step.newId);
    hide Upserted, Attempt;
    if Attempt(step.first, flag, step.ws, step.input, step.now, step.newId).Created? {
      CreatedContact(step.first, flag, step.ws, step.input, step.now, step.newId);
    }
    if Attempt(step.second, flag, step.ws, step.input, step.now, step.newId).Created? {
      CreatedContact(step.second, flag, step.ws, step.input, step.now, step.newId);
    }
  }

  /**
   * Once an address has been suppressed in a workspace, every upsert that adds a contact at it, and looks it up after
   * that, adds it suppressed: whatever became of the first contact, whatever was asked for, and however much later.
   */
  lemma SuppressedAddressStaysSuppressed(steps: seq<Step>, addressHash: (string, string) -> string, i: nat, k: nat)
    requires i < k < |steps| && steps[k].UpsertStep? && steps[k].input.email.Some? && steps[k].input.email.value != ""
    requires var entry := (steps[k].ws, addressHash(steps[k].ws, steps[k].input.email.value));
             SuppressesAddress(Exec(Initial, steps[..i], addressHash), steps[i], addressHash, entry)
    requires Exec(Initial, steps[..i + 1], addressHash).state.suppressions <= steps[k].listed
    requires Creates(Exec(Initial, steps[..k], addressHash), steps[k], addressHash)
    ensures var rows := Exec(Initial, steps[..k + 1], addressHash).state.rows;
            rows != [] && rows[|rows| - 1].id == steps[k].newId && rows[|rows| - 1].status == Suppressed
  {
    hide *;
    var entry := (steps[k].ws, addressHash(steps[k].ws, steps[k].input.email.value));
    var at := Exec(Initial, steps[..i], addressHash);
    AlwaysKnown(steps[..i], addressHash);
    ListGrowsBySuppression(at, steps[i], addressHash, entry);
    ExecStep(Initial, steps, addressHash, i);
    assert entry in steps[k].listed;
    AddedContactIsSuppressedIff(Exec(Initial, steps[..k], addressHash), steps[k], addressHash);
    ExecStep(Initial, steps, addressHash, k);
  }
}
