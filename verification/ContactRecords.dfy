/** What an upsert leaves in the columns of a contact, column by column, and which contact it takes. */
module ContactRecords {
  import opened Options
  import opened ContactIdentity
  import opened ContactLaws

  // ---------- which contact ----------

  /** A live contact of the workspace with this external id, if one is given. */
  predicate HasAnchor(c: Contact, ws: string, externalId: Option<string>) {
    externalId.Some? && externalId.value != "" && c.workspaceId == ws && c.anonymizedAt == None && c.externalId == externalId
  }

  predicate HasEmail(c: Contact, ws: string, email: Option<string>) {
    email.Some? && email.value != "" && c.workspaceId == ws && c.anonymizedAt == None && c.email == email
  }

  /** The holder of the external id is taken before the holder of the email, and nobody where there is neither. */
  lemma AnchorComesFirst(v: Views, ws: string, input: Input)
    ensures var found := Found(v, ws, input);
            var anchored := exists i :: 0 <= i < |v.external| && HasAnchor(v.external[i], ws, input.externalId);
            && (anchored ==> found.Some? && found.value < |v.external| && HasAnchor(v.external[found.value], ws, input.externalId))
            && (!anchored && found.Some? ==> found.value < |v.email| && HasEmail(v.email[found.value], ws, input.email))
            && (found.None? <==> !anchored && forall i :: 0 <= i < |v.email| ==> !HasEmail(v.email[i], ws, input.email))
  {
    if Given(input.externalId) {
      forall i | 0 <= i < |v.external|
        ensures HasAnchor(v.external[i], ws, input.externalId) <==> HoldsExternal(v.external[i], ws, input.externalId.value) {
      }
    }
    if Given(input.email) {
      forall i | 0 <= i < |v.email| ensures HasEmail(v.email[i], ws, input.email) <==> HoldsEmail(v.email[i], ws, input.email.value) {
      }
    }
  }

  /** The read-only lookup has the same preference. */
  lemma LookupPrefersTheAnchor(rows: seq<Contact>, ws: string, input: Input)
    ensures var found := Matching(rows, ws, input);
            var anchored := exists i :: 0 <= i < |rows| && HasAnchor(rows[i], ws, input.externalId);
            && (anchored ==> found.Some? && HasAnchor(rows[found.value], ws, input.externalId))
            && (!anchored && found.Some? ==> HasEmail(rows[found.value], ws, input.email))
            && (found.None? <==> !anchored && forall i :: 0 <= i < |rows| ==> !HasEmail(rows[i], ws, input.email))
  {
    AnchorComesFirst(Alone(rows), ws, input);
    AloneFindsTheMatch(rows, ws, input);
  }

  // ---------- a matched contact ----------

  function Filled<T>(given: Option<T>, prior: T): T {
    match given
    case Some(value) => value
    case None => prior
  }

  predicate Column(key: string) {
    key == "id" || key == "workspace_id" || key == "external_id" || key == "email" || key == "subscription_status"
  }

  predicate Gives(properties: Option<map<string, string>>, key: string) {
    properties.Some? && key in properties.value && !Column(key)
  }

  /** Of a matched contact: its row afterwards, and the history rows that it gains. */
  predicate Took(outcome: Outcome, prior: Contact, c: Contact) {
    outcome.Updated? && outcome.at < |outcome.rows| && c == outcome.rows[outcome.at] && c.id == prior.id
  }

  lemma MatchedIsTaken(v: Views, suppressed: bool, ws: string, input: Input, now: int, newId: string) returns (prior: Contact, c: Contact)
    requires Plausible(v, ws, input) && Found(v, ws, input).Some? && !Attempt(v, suppressed, ws, input, now, newId).Violated?
    ensures var outcome := Attempt(v, suppressed, ws, input, now, newId); var at := Found(v, ws, input).value;
            && at < |v.check| && prior == v.check[at] && Took(outcome, prior, c) && outcome.at == at && |outcome.rows| == |v.write|
            && (forall i :: 0 <= i < |v.write| && i != at ==> outcome.rows[i] == v.write[i])
            && c == Merged(v.check, prior, ws, input, now) && outcome.log == StatusLog(ws, prior, c.status)
  {
    FoundIsLive(v, ws, input);
    hide Found, Merged, StatusLog, TakenByAnother, Evolves;
    var outcome := Attempt(v, suppressed, ws, input, now, newId);
    prior, c := v.check[Found(v, ws, input).value], outcome.rows[outcome.at];
    assert c.id == prior.id by { MergedKeepsId(v.check, prior, ws, input, now); }
  }

  lemma MergedKeepsId(rows: seq<Contact>, prior: Contact, ws: string, input: Input, now: int)
    ensures Merged(rows, prior, ws, input, now).id == prior.id
  {
  }

  /**
   * The status: what was asked for, but that nobody becomes suppressed here and a suppressed contact does not become
   * subscribed. One history row from the old to the new status is written if and only if they differ.
   */
  lemma MatchedStatus(v: Views, suppressed: bool, ws: string, input: Input, now: int, newId: string)
    requires Plausible(v, ws, input) && Found(v, ws, input).Some? && !Attempt(v, suppressed, ws, input, now, newId).Violated?
    ensures var outcome := Attempt(v, suppressed, ws, input, now, newId); var at := Found(v, ws, input).value;
            && outcome.Updated? && outcome.at == at && at < |outcome.rows| && at < |v.check|
            && var was, became := v.check[at].status, outcome.rows[at].status;
               && (input.status == Some(Unsubscribed) ==> became == Unsubscribed)
               && (input.status == Some(Subscribed) ==> became == if was == Suppressed then Suppressed else Subscribed)
               && (input.status == Some(Suppressed) || input.status == None ==> became == was)
               && outcome.log == (if became == was then [] else [HistoryRow(ws, v.check[at].id, was, became, CsvOrApiUpsert)])
  {
    var _, _ := MatchedIsTaken(v, suppressed, ws, input, now, newId);
    hide Found, Attempt, Plausible, SafeProperties, NextEmail, NextExternalId;
  }

  /** The profile, tags and properties: what the input gives is what the row holds, and the rest stays. */
  lemma MatchedFields(v: Views, suppressed: bool, ws: string, input: Input, now: int, newId: string)
    requires Plausible(v, ws, input) && Found(v, ws, input).Some? && !Attempt(v, suppressed, ws, input, now, newId).Violated?
    ensures var outcome := Attempt(v, suppressed, ws, input, now, newId); var at := Found(v, ws, input).value;
            && outcome.Updated? && outcome.at == at && at < |outcome.rows| && at < |v.check|
            && var prior, c, given := v.check[at], outcome.rows[at], input.profile;
               && c.profile.firstName == (if given.firstName.Some? then given.firstName else prior.profile.firstName)
               && c.profile.lastName == (if given.lastName.Some? then given.lastName else prior.profile.lastName)
               && c.profile.phone == (if given.phone.Some? then given.phone else prior.profile.phone)
               && c.profile.city == (if given.city.Some? then given.city else prior.profile.city)
               && c.profile.country == (if given.country.Some? then given.country else prior.profile.country)
               && c.profile.timezone == (if given.timezone.Some? then given.timezone else prior.profile.timezone)
               && c.tags == Filled(input.tags, prior.tags)
               && c.id == prior.id && c.workspaceId == prior.workspaceId && c.anonymizedAt == prior.anonymizedAt && c.updatedAt == now
    ensures var c, prior := Attempt(v, suppressed, ws, input, now, newId).rows[Found(v, ws, input).value], v.check[Found(v, ws, input).value];
            forall key ::
              && (key in c.properties <==> key in prior.properties || Gives(input.properties, key))
              && (key in c.properties ==>
                    c.properties[key] == if Gives(input.properties, key) then input.properties.value[key] else prior.properties[key])
  {
    var _, _ := MatchedIsTaken(v, suppressed, ws, input, now, newId);
    hide Found, Attempt, Plausible, NextEmail, NextExternalId, NextStatus;
    ReservedAreTheColumns();
  }

  lemma ReservedAreTheColumns()
    ensures forall key :: key in RESERVED <==> Column(key)
  {
  }

  /**
   * The identifiers: a new email is taken unless another live contact of the workspace held it at the check; an
   * external id is taken only by a contact that had none.
   */
  lemma MatchedIdentifiers(v: Views, suppressed: bool, ws: string, input: Input, now: int, newId: string)
    requires Plausible(v, ws, input) && Found(v, ws, input).Some? && !Attempt(v, suppressed, ws, input, now, newId).Violated?
    ensures var outcome := Attempt(v, suppressed, ws, input, now, newId); var at := Found(v, ws, input).value;
            && outcome.Updated? && outcome.at == at && at < |outcome.rows| && at < |v.check|
            && var prior, c := v.check[at], outcome.rows[at];
               var held := exists i :: 0 <= i < |v.check| && HasEmail(v.check[i], ws, input.email) && v.check[i].id != prior.id;
               && c.email == (if Given(input.email) && !held then input.email else prior.email)
               && c.externalId == (if Given(input.externalId) && !Given(prior.externalId) then input.externalId else prior.externalId)
               && (outcome.attached <==> c.externalId != prior.externalId)
  {
    var prior, _ := MatchedIsTaken(v, suppressed, ws, input, now, newId);
    hide Found, Plausible, SafeProperties, NextStatus, Evolves, TakenByAnother;
    if Given(input.email) {
      forall i | 0 <= i < |v.check| ensures HasEmail(v.check[i], ws, input.email) <==> HoldsEmail(v.check[i], ws, input.email.value) {
      }
    }
  }

  // ---------- a new contact ----------

  /** A contact is created at the end of the table with what the input gives, suppressed if its address is on the list. */
  lemma CreatedContact(v: Views, suppressed: bool, ws: string, input: Input, now: int, newId: string)
    requires Plausible(v, ws, input) && Attempt(v, suppressed, ws, input, now, newId).Created?
    ensures var rows := Attempt(v, suppressed, ws, input, now, newId).rows;
            && |rows| == |v.check| + 1 && rows[..|v.check|] == v.check
            && var c := rows[|v.check|];
               && c.id == newId && c.workspaceId == ws && c.anonymizedAt == None && c.updatedAt == now
               && c.externalId == input.externalId && c.email == input.email && c.profile == input.profile
               && c.tags == Filled(input.tags, [])
               && c.status == (if Given(input.email) && suppressed then Suppressed else Filled(input.status, Subscribed))
               && forall key ::
                    && (key in c.properties <==> Gives(input.properties, key))
                    && (key in c.properties ==> c.properties[key] == input.properties.value[key])
  {
    hide Found, Plausible, Collides;
    ReservedAreTheColumns();
  }
}
