/** The prioritised two-key contact upsert: its lookups, its insert race, and what it does to the rows. */
module ContactIdentity {
  import opened Options

  datatype Status = Subscribed | Unsubscribed | Suppressed

  datatype Profile = Profile(
    firstName: Option<string>, lastName: Option<string>, phone: Option<string>,
    city: Option<string>, country: Option<string>, timezone: Option<string>)

  datatype Contact = Contact(
    id: string, workspaceId: string,
    externalId: Option<string>, email: Option<string>,
    profile: Profile, tags: seq<string>, properties: map<string, string>,
    status: Status, anonymizedAt: Option<int>, updatedAt: int)

  datatype Input = Input(
    externalId: Option<string>, email: Option<string>,
    profile: Profile, tags: Option<seq<string>>, properties: Option<map<string, string>>,
    status: Option<Status>)

  datatype Source = WebhookSuppression | WebhookUnsubscribe | UnsubscribeRoute | ManualUi | CsvOrApiUpsert

  datatype HistoryRow = HistoryRow(workspaceId: string, contactId: string, oldStatus: Status, newStatus: Status, source: Source)

  // ---------- the table's constraints ----------

  /** Two rows the unique constraints would not let stand together; absent keys never collide. */
  predicate SameKey(a: Contact, b: Contact) {
    a.workspaceId == b.workspaceId
    && ((a.externalId.Some? && a.externalId == b.externalId) || (a.email.Some? && a.email == b.email))
  }

  predicate UniqueKeys(rows: seq<Contact>) {
    forall i, j :: 0 <= i < j < |rows| ==> !SameKey(rows[i], rows[j])
  }

  predicate UniqueIds(rows: seq<Contact>) {
    forall i, j :: 0 <= i < j < |rows| ==> rows[i].id != rows[j].id
  }

  /** Erasure clears both identifiers. */
  predicate ErasedAreBare(rows: seq<Contact>) {
    forall i :: 0 <= i < |rows| && rows[i].anonymizedAt.Some? ==> rows[i].externalId.None? && rows[i].email.None?
  }

  predicate ValidRows(rows: seq<Contact>) {
    UniqueKeys(rows) && UniqueIds(rows) && ErasedAreBare(rows)
  }

  predicate FreshId(rows: seq<Contact>, id: string) {
    forall i :: 0 <= i < |rows| ==> rows[i].id != id
  }

  // ---------- lookups ----------

  predicate HoldsExternal(c: Contact, ws: string, externalId: string) {
    c.workspaceId == ws && c.externalId == Some(externalId) && c.anonymizedAt.None?
  }

  predicate HoldsEmail(c: Contact, ws: string, email: string) {
    c.workspaceId == ws && c.email == Some(email) && c.anonymizedAt.None?
  }

  function FindExternal(rows: seq<Contact>, ws: string, externalId: string): (r: Option<nat>)
    ensures r.Some? ==> r.value < |rows| && HoldsExternal(rows[r.value], ws, externalId)
    ensures r.None? ==> forall i :: 0 <= i < |rows| ==> !HoldsExternal(rows[i], ws, externalId)
  {
    FindRow(rows, (c: Contact) => HoldsExternal(c, ws, externalId))
  }

  function FindEmail(rows: seq<Contact>, ws: string, email: string): (r: Option<nat>)
    ensures r.Some? ==> r.value < |rows| && HoldsEmail(rows[r.value], ws, email)
    ensures r.None? ==> forall i :: 0 <= i < |rows| ==> !HoldsEmail(rows[i], ws, email)
  {
    FindRow(rows, (c: Contact) => HoldsEmail(c, ws, email))
  }

  /** The prioritised lookup on one table: the external id first, the email when that finds nothing. */
  function Matching(rows: seq<Contact>, ws: string, input: Input): (r: Option<nat>)
    ensures r.Some? ==> r.value < |rows|
  {
    var first := if Given(input.externalId) then FindExternal(rows, ws, input.externalId.value) else None;
    if first.Some? then first
    else if Given(input.email) then FindEmail(rows, ws, input.email.value)
    else None
  }

  predicate EmailTaken(rows: seq<Contact>, ws: string, email: string, exceptId: string) {
    exists i :: 0 <= i < |rows| && HoldsEmail(rows[i], ws, email) && rows[i].id != exceptId
  }

  // ---------- what the two branches write ----------

  const RESERVED: set<string> := {"id", "workspace_id", "external_id", "email", "subscription_status"}

  function SafeProperties(properties: Option<map<string, string>>): map<string, string> {
    if properties.None? then map[] else properties.value - RESERVED
  }

  function InitialStatus(input: Input, suppressed: bool): Status {
    if Given(input.email) && suppressed then Suppressed else input.status.GetOr(Subscribed)
  }

  function NewContact(ws: string, input: Input, suppressed: bool, now: int, newId: string): Contact {
    Contact(newId, ws, input.externalId, input.email, input.profile, input.tags.GetOr([]),
            SafeProperties(input.properties), InitialStatus(input, suppressed), None, now)
  }

  function NextEmail(rows: seq<Contact>, prior: Contact, ws: string, input: Input): Option<string> {
    if Given(input.email) && input.email != prior.email && !EmailTaken(rows, ws, input.email.value, prior.id) then input.email
    else prior.email
  }

  /** An anchor once set is never replaced. */
  function NextExternalId(prior: Contact, input: Input): Option<string> {
    if !Given(prior.externalId) && Given(input.externalId) then input.externalId else prior.externalId
  }

  /** Suppression is neither entered nor, towards subscribed, left here. */
  function NextStatus(prior: Status, wanted: Option<Status>): Status {
    if wanted.None? || wanted.value == Suppressed || (prior == Suppressed && wanted.value == Subscribed) then prior else wanted.value
  }

  function Merge(prior: Profile, input: Profile): Profile {
    Profile(Coalesce(input.firstName, prior.firstName), Coalesce(input.lastName, prior.lastName), Coalesce(input.phone, prior.phone),
            Coalesce(input.city, prior.city), Coalesce(input.country, prior.country), Coalesce(input.timezone, prior.timezone))
  }

  function Merged(rows: seq<Contact>, prior: Contact, ws: string, input: Input, now: int): Contact {
    prior.(externalId := NextExternalId(prior, input),
         email := NextEmail(rows, prior, ws, input),
         profile := Merge(prior.profile, input.profile),
         tags := input.tags.GetOr(prior.tags),
         properties := prior.properties + SafeProperties(input.properties),
         status := NextStatus(prior.status, input.status),
         updatedAt := now)
  }

  function StatusLog(ws: string, prior: Contact, status: Status): seq<HistoryRow> {
    if status != prior.status then [HistoryRow(ws, prior.id, prior.status, status, CsvOrApiUpsert)] else []
  }

  /** `attached` says that an anchor was filled in; `Violated` is a unique violation, of the insert or of the update. */
  datatype Outcome =
    | Created(rows: seq<Contact>)
    | Updated(rows: seq<Contact>, at: nat, attached: bool, log: seq<HistoryRow>)
    | Violated(rows: seq<Contact>)

  predicate Collides(rows: seq<Contact>, c: Contact) {
    exists i :: 0 <= i < |rows| && SameKey(rows[i], c)
  }

  // ---------- one attempt among other transactions ----------

  /**
   * What the table holds as each statement of one attempt runs: the lookup by external id, the lookup by
   * email, the insert or the check that the new email is free, and the update. Others commit in between.
   */
  datatype Views = Views(external: seq<Contact>, email: seq<Contact>, check: seq<Contact>, write: seq<Contact>)

  /** Nobody else commits anything. */
  function Alone(rows: seq<Contact>): Views {
    Views(rows, rows, rows, rows)
  }

  /** Contacts are added and changed, but none goes away or moves to another workspace. */
  predicate Evolves(a: seq<Contact>, b: seq<Contact>) {
    |a| <= |b| && forall i :: 0 <= i < |a| ==> b[i].id == a[i].id && b[i].workspaceId == a[i].workspaceId
  }

  /** The attempt's own lookups: the external id first, the email when that finds nothing. */
  function Found(v: Views, ws: string, input: Input): Option<nat> {
    var first := if Given(input.externalId) then FindExternal(v.external, ws, input.externalId.value) else None;
    if first.Some? then first
    else if Given(input.email) then FindEmail(v.email, ws, input.email.value)
    else None
  }

  /** Nobody changes a row that the lookup has locked. */
  predicate Plausible(v: Views, ws: string, input: Input) {
    && Evolves(v.external, v.email) && Evolves(v.email, v.check) && Evolves(v.check, v.write)
    && var found := Found(v, ws, input);
       found.Some? ==>
         && v.email[found.value] == v.check[found.value] == v.write[found.value]
         && (Given(input.externalId) && FindExternal(v.external, ws, input.externalId.value).Some? ==>
               v.external[found.value] == v.email[found.value])
  }

  /** Some other row holds a key that the updated row asks for. */
  predicate TakenByAnother(rows: seq<Contact>, at: nat, c: Contact) {
    exists i :: 0 <= i < |rows| && i != at && SameKey(rows[i], c)
  }

  function Attempt(v: Views, suppressed: bool, ws: string, input: Input, now: int, newId: string): Outcome
    requires Plausible(v, ws, input)
  {
    var found := Found(v, ws, input);
    if found.Some? then
      var at := found.value;
      var prior := v.check[at];
      var after := Merged(v.check, prior, ws, input, now);
      if TakenByAnother(v.write, at, after) then Violated(v.write)
      else Updated(v.write[at := after], at, after.externalId != prior.externalId, StatusLog(ws, prior, after.status))
    else
      var row := NewContact(ws, input, suppressed, now, newId);
      if Collides(v.check, row) then Violated(v.check) else Created(v.check + [row])
  }

  /** Only a violation of the insert is caught, and retried once. */
  function Upserted(first: Views, second: Views, suppressed: bool, ws: string, input: Input, now: int, newId: string): Outcome
    requires Plausible(first, ws, input) && Plausible(second, ws, input)
  {
    var outcome := Attempt(first, suppressed, ws, input, now, newId);
    if Found(first, ws, input).None? && outcome.Violated? then Attempt(second, suppressed, ws, input, now, newId) else outcome
  }

  function UpsertedAlone(rows: seq<Contact>, suppressed: bool, ws: string, input: Input, now: int, newId: string): Outcome {
    Upserted(Alone(rows), Alone(rows), suppressed, ws, input, now, newId)
  }

  function ContactOf(outcome: Outcome, newId: string): string {
    if outcome.Updated? && outcome.at < |outcome.rows| then outcome.rows[outcome.at].id else newId
  }

  /** The matched contact still lacks the email that was asked for. */
  predicate SkippedEmail(outcome: Outcome, input: Input) {
    outcome.Updated? && outcome.at < |outcome.rows| && Given(input.email) && outcome.rows[outcome.at].email != input.email
  }

  datatype UpsertResult = Done(contactId: string, attached: bool, emailChangeSkipped: bool, created: bool) | UniqueViolation

  class ContactTable {
    var rows: seq<Contact>
    var history: seq<HistoryRow>
    // One entry for each suppressed address hash of a workspace.
    var suppressions: set<(string, string)>
    const addressHash: (string, string) -> string

    constructor (addressHash: (string, string) -> string)
      ensures rows == [] && history == [] && suppressions == {} && this.addressHash == addressHash
    {
      this.addressHash := addressHash;
      rows, history, suppressions := [], [], {};
    }

    predicate IsEmailSuppressed(ws: string, email: string)
      reads this
    {
      (ws, addressHash(ws, email)) in suppressions
    }

    /** The read-only lookup that the import's skip policy relies on. */
    method FindContactIdByIdentity(ws: string, externalId: Option<string>, email: Option<string>) returns (id: Option<string>)
      ensures var found := Matching(rows, ws, Input(externalId, email, Profile(None, None, None, None, None, None), None, None, None));
              id == if found.Some? then Some(rows[found.value].id) else None
    {
      if Given(externalId) {
        var row := FindExternal(rows, ws, externalId.value);
        if row.Some? {
          return Some(rows[row.value].id);
        }
      }
      if Given(email) {
        var row := FindEmail(rows, ws, email.value);
        if row.Some? {
          return Some(rows[row.value].id);
        }
      }
      return None;
    }

    method StripReservedPropertyKeys(properties: Option<map<string, string>>) returns (safe: map<string, string>)
      ensures safe == SafeProperties(properties)
    {
      safe := map[];
      if properties.None? {
        return;
      }
      var keys := properties.value.Keys;
      while keys != {}
        invariant keys <= properties.value.Keys
        invariant safe == properties.value - RESERVED - keys
        decreases |keys|
      {
        var key :| key in keys;
        if key !in RESERVED {
          safe := safe[key := properties.value[key]];
        }
        keys := keys - {key};
      }
    }

    /** Branches A to D: the matched row takes the incoming fields, unless another row took a key of it since the check. */
    method UpdateMatched(ws: string, input: Input, safeProperties: map<string, string>, now: int, at: nat, attachExternalId: bool,
                         write: seq<Contact>) returns (emailChangeSkipped: bool, violated: bool)
      requires at < |rows| && at < |write| && write[at] == rows[at] && safeProperties == SafeProperties(input.properties)
      requires NextExternalId(rows[at], input) == if attachExternalId then input.externalId else rows[at].externalId
      modifies this`rows, this`history
      ensures var after := old(Merged(rows, rows[at], ws, input, now));
              && (violated <==> TakenByAnother(write, at, after))
              && rows == (if violated then write else write[at := after])
              && history == old(history) + (if violated then [] else old(StatusLog(ws, rows[at], NextStatus(rows[at].status, input.status))))
      ensures !violated ==> (emailChangeSkipped <==> Given(input.email) && rows[at].email != input.email)
    {
      hide EmailTaken, SafeProperties, TakenByAnother;
      var existing := rows[at];
      var nextEmail := existing.email;
      emailChangeSkipped, violated := false, false;
      if Given(input.email) && input.email != existing.email {
        if EmailTaken(rows, ws, input.email.value, existing.id) {
          emailChangeSkipped := true;
        } else {
          nextEmail := input.email;
        }
      }
      var nextExternalId := existing.externalId;
      if attachExternalId {
        nextExternalId := input.externalId;
      }
      var nextProperties := if safeProperties != map[] then existing.properties + safeProperties else existing.properties;
      var nextStatus := existing.status;
      if input.status.Some? && input.status.value != existing.status {
        if existing.status == Suppressed && input.status.value == Subscribed {
        } else if input.status.value == Suppressed {
        } else {
          nextStatus := input.status.value;
        }
      }
      assert existing.properties + map[] == existing.properties;
      var after := existing.(externalId := nextExternalId, email := nextEmail, profile := Merge(existing.profile, input.profile),
                             tags := input.tags.GetOr(existing.tags), properties := nextProperties,
                             status := nextStatus, updatedAt := now);
      rows := write;
      if TakenByAnother(rows, at, after) {
        violated := true;
        return;
      }
      rows := rows[at := after];
      if nextStatus != existing.status {
        history := history + [HistoryRow(ws, existing.id, existing.status, nextStatus, CsvOrApiUpsert)];
      }
    }

    /** The two locking lookups. The assignments from the views are what other transactions commit before each statement. */
    method LockMatch(ws: string, input: Input, v: Views) returns (existing: Option<nat>, attachExternalId: bool)
      requires Plausible(v, ws, input)
      modifies this`rows
      ensures rows == v.email && existing == Found(v, ws, input)
      ensures existing.Some? ==>
                && NextExternalId(v.check[existing.value], input) ==
                     (if attachExternalId then input.externalId else v.check[existing.value].externalId)
                && (attachExternalId <==> NextExternalId(v.check[existing.value], input) != v.check[existing.value].externalId)
    {
      hide FindExternal, FindEmail, Evolves;
      rows := v.external;
      existing := None;
      if Given(input.externalId) {
        existing := FindExternal(rows, ws, input.externalId.value);
      }
      rows := v.email;
      attachExternalId := false;
      if existing.None? && Given(input.email) {
        existing := FindEmail(rows, ws, input.email.value);
        if existing.Some? && !Given(rows[existing.value].externalId) && Given(input.externalId) {
          attachExternalId := true;
        }
      }
      if existing.Some? {
        AnchorAgrees(v, ws, input, existing.value, attachExternalId);
      }
    }

    /** `first` and `second` are what the attempt and its retry meet; the second is used only by the retry. */
    method UpsertContactByIdentity(ws: string, input: Input, now: int, newId: string, first: Views, second: Views, isRetry: bool)
      returns (r: UpsertResult)
      requires Plausible(first, ws, input) && Plausible(second, ws, input)
      modifies this`rows, this`history
      ensures var suppressed := Given(input.email) && IsEmailSuppressed(ws, input.email.value);
              var outcome := if isRetry then Attempt(first, suppressed, ws, input, now, newId)
                             else Upserted(first, second, suppressed, ws, input, now, newId);
              && rows == outcome.rows
              && history == old(history) + (if outcome.Updated? then outcome.log else [])
              && (r.UniqueViolation? <==> outcome.Violated?)
              && (r.Done? ==> (r.created <==> outcome.Created?))
              && (r.Done? ==> r.contactId == ContactOf(outcome, newId))
              && (r.Done? ==> (r.attached <==> outcome.Updated? && outcome.attached))
              && (r.Done? ==> (r.emailChangeSkipped <==> SkippedEmail(outcome, input)))
      decreases !isRetry
    {
      hide Found, SafeProperties, Collides, NextEmail, NextExternalId, NextStatus, TakenByAnother, Evolves;
      var safeProperties := StripReservedPropertyKeys(input.properties);
      var existing, attachExternalId := LockMatch(ws, input, first);
      rows := first.check;
      if existing.None? {
        var status := input.status.GetOr(Subscribed);
        if Given(input.email) && IsEmailSuppressed(ws, input.email.value) {
          status := Suppressed;
        }
        var row := Contact(newId, ws, input.externalId, input.email, input.profile, input.tags.GetOr([]), safeProperties, status, None, now);
        if !Collides(rows, row) {
          rows := rows + [row];
          return Done(newId, false, false, true);
        }
        if !isRetry {
          r := UpsertContactByIdentity(ws, input, now, newId, second, second, true);
          return;
        }
        return UniqueViolation;
      }
      FoundInAll(first, ws, input);
      var contactId := rows[existing.value].id;
      var emailChangeSkipped, violated := UpdateMatched(ws, input, safeProperties, now, existing.value, attachExternalId, first.write);
      if violated {
        return UniqueViolation;
      }
      return Done(contactId, attachExternalId, emailChangeSkipped, false);
    }
  }

  lemma FoundInAll(v: Views, ws: string, input: Input)
    requires Plausible(v, ws, input) && Found(v, ws, input).Some?
    ensures var at := Found(v, ws, input).value; at < |v.check| && at < |v.write| && v.check[at] == v.write[at]
  {
  }

  /** Attaching happens just where the merge fills in the anchor. */
  lemma AnchorAgrees(v: Views, ws: string, input: Input, at: nat, attach: bool)
    requires Plausible(v, ws, input) && Found(v, ws, input) == Some(at)
    requires attach <==> (!Given(input.externalId) || FindExternal(v.external, ws, input.externalId.value).None?)
                         && !Given(v.email[at].externalId) && Given(input.externalId)
    ensures NextExternalId(v.check[at], input) == if attach then input.externalId else v.check[at].externalId
    ensures attach <==> NextExternalId(v.check[at], input) != v.check[at].externalId
  {
  }
}
