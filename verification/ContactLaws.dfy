/** What every upsert keeps and promises, alone and among other transactions. */
module ContactLaws {
  import opened Options
  import opened ContactIdentity

  // ---------- rows by key ----------

  /** Under the constraints an identifier has one live holder, and the lookup finds it. */
  lemma HolderIsUnique(rows: seq<Contact>, ws: string, key: string, i: nat, j: nat)
    requires UniqueKeys(rows) && i < |rows| && j < |rows|
    requires (HoldsExternal(rows[i], ws, key) && HoldsExternal(rows[j], ws, key))
          || (HoldsEmail(rows[i], ws, key) && HoldsEmail(rows[j], ws, key))
    ensures i == j
  {
    assert i < j ==> !SameKey(rows[i], rows[j]);
    assert j < i ==> !SameKey(rows[j], rows[i]);
  }

  lemma ValidGrows(rows: seq<Contact>, c: Contact)
    requires ValidRows(rows) && !Collides(rows, c) && FreshId(rows, c.id) && c.anonymizedAt.None?
    ensures ValidRows(rows + [c])
  {
    hide SameKey;
    var grown := rows + [c];
    forall i, j | 0 <= i < j < |grown| ensures !SameKey(grown[i], grown[j]) {
      if j == |rows| {
        assert !SameKey(rows[i], c);
      } else {
        assert !SameKey(rows[i], rows[j]);
      }
    }
  }

  lemma SameKeySymmetric(a: Contact, b: Contact)
    ensures SameKey(a, b) == SameKey(b, a)
  {
  }

  /** Replacing a row by one that collides with none of the others keeps the constraints. */
  lemma ValidUpdate(rows: seq<Contact>, at: nat, c: Contact)
    requires ValidRows(rows) && at < |rows| && c.id == rows[at].id && c.anonymizedAt.None?
    requires forall i :: 0 <= i < |rows| && i != at ==> !SameKey(rows[i], c)
    ensures ValidRows(rows[at := c])
  {
    hide SameKey;
    var after := rows[at := c];
    forall i, j | 0 <= i < j < |after| ensures !SameKey(after[i], after[j]) {
      SameKeySymmetric(after[i], after[j]);
      assert i != at && j != at ==> !SameKey(rows[i], rows[j]);
    }
  }

  // ---------- the update branch ----------

  lemma MatchIsLive(rows: seq<Contact>, ws: string, input: Input)
    ensures var m := Matching(rows, ws, input);
            m.Some? ==> rows[m.value].workspaceId == ws && rows[m.value].anonymizedAt.None?
                        && ((Given(input.externalId) && rows[m.value].externalId == input.externalId)
                            || (Given(input.email) && rows[m.value].email == input.email))
  {
  }

  /** With nobody else at work, neither key the merge writes is held by another row. */
  lemma MergedCollidesWithNone(rows: seq<Contact>, ws: string, input: Input, now: int, i: nat)
    requires ValidRows(rows) && Matching(rows, ws, input).Some?
    requires i < |rows| && i != Matching(rows, ws, input).value
    ensures !SameKey(rows[i], Merged(rows, rows[Matching(rows, ws, input).value], ws, input, now))
  {
    var at := Matching(rows, ws, input).value;
    var prior := rows[at];
    var c := Merged(rows, prior, ws, input, now);
    MatchIsLive(rows, ws, input);
    assert !SameKey(rows[i], prior) by {
      SameKeySymmetric(rows[i], prior);
      assert i < at ==> !SameKey(rows[i], rows[at]);
      assert at < i ==> !SameKey(rows[at], rows[i]);
    }
    assert rows[i].id != prior.id;
    assert c.externalId != prior.externalId ==> !HoldsExternal(rows[i], ws, input.externalId.value);
    assert c.email != prior.email ==> !HoldsEmail(rows[i], ws, input.email.value);
  }

  lemma AloneIsNeverTaken(rows: seq<Contact>, ws: string, input: Input, now: int)
    requires ValidRows(rows) && Matching(rows, ws, input).Some?
    ensures var at := Matching(rows, ws, input).value; !TakenByAnother(rows, at, Merged(rows, rows[at], ws, input, now))
  {
    hide SameKey, NextEmail, NextExternalId, NextStatus, Matching;
    var at := Matching(rows, ws, input).value;
    forall i | 0 <= i < |rows| && i != at ensures !SameKey(rows[i], Merged(rows, rows[at], ws, input, now)) {
      MergedCollidesWithNone(rows, ws, input, now, i);
    }
  }

  lemma UpdateKeepsValid(rows: seq<Contact>, at: nat, c: Contact)
    requires ValidRows(rows) && at < |rows| && c.id == rows[at].id && c.anonymizedAt.None? && !TakenByAnother(rows, at, c)
    ensures ValidRows(rows[at := c])
  {
    hide SameKey;
    ValidUpdate(rows, at, c);
  }

  // ---------- every attempt, whatever others do ----------

  /** The locked row is a live one of the workspace. */
  lemma FoundIsLive(v: Views, ws: string, input: Input)
    requires Plausible(v, ws, input)
    ensures var found := Found(v, ws, input);
            found.Some? ==>
              && found.value < |v.check| && found.value < |v.write| && v.check[found.value] == v.write[found.value]
              && v.check[found.value].workspaceId == ws && v.check[found.value].anonymizedAt.None?
  {
  }

  /** The table that the attempt's last statement meets. */
  function Base(v: Views, ws: string, input: Input): seq<Contact> {
    if Found(v, ws, input).Some? then v.write else v.check
  }

  lemma AttemptKeepsConstraints(v: Views, suppressed: bool, ws: string, input: Input, now: int, newId: string)
    requires Plausible(v, ws, input) && ValidRows(Base(v, ws, input)) && FreshId(Base(v, ws, input), newId)
    ensures ValidRows(Attempt(v, suppressed, ws, input, now, newId).rows)
  {
    FoundIsLive(v, ws, input);
    hide Found, Evolves, ValidRows, Collides, TakenByAnother, FreshId, NextEmail, NextExternalId, NextStatus;
    var found := Found(v, ws, input);
    if found.Some? {
      var after := Merged(v.check, v.check[found.value], ws, input, now);
      if !TakenByAnother(v.write, found.value, after) {
        UpdateKeepsValid(v.write, found.value, after);
      }
    } else if !Collides(v.check, NewContact(ws, input, suppressed, now, newId)) {
      ValidGrows(v.check, NewContact(ws, input, suppressed, now, newId));
    }
  }

  /** External ids and emails stay unique in every workspace, and erased rows stay bare, whatever others commit between the statements. */
  lemma UpsertKeepsConstraints(first: Views, second: Views, suppressed: bool, ws: string, input: Input, now: int, newId: string)
    requires Plausible(first, ws, input) && Plausible(second, ws, input)
    requires ValidRows(Base(first, ws, input)) && ValidRows(Base(second, ws, input))
    requires FreshId(Base(first, ws, input), newId) && FreshId(Base(second, ws, input), newId)
    ensures ValidRows(Upserted(first, second, suppressed, ws, input, now, newId).rows)
  {
    hide *;
    AttemptKeepsConstraints(first, suppressed, ws, input, now, newId);
    AttemptKeepsConstraints(second, suppressed, ws, input, now, newId);
    UpsertIsAnAttempt(first, second, suppressed, ws, input, now, newId);
  }

  lemma UpsertIsAnAttempt(first: Views, second: Views, suppressed: bool, ws: string, input: Input, now: int, newId: string)
    requires Plausible(first, ws, input) && Plausible(second, ws, input)
    ensures var outcome := Upserted(first, second, suppressed, ws, input, now, newId);
            outcome == Attempt(first, suppressed, ws, input, now, newId) || outcome == Attempt(second, suppressed, ws, input, now, newId)
  {
    hide Attempt, Plausible;
  }

  /** The anchor is immutable, no contact disappears, and of what others left in the table only the matched contact changes. */
  lemma AnchorsNeverChange(v: Views, suppressed: bool, ws: string, input: Input, now: int, newId: string, i: nat)
    requires Plausible(v, ws, input) && i < |v.check|
    ensures var outcome := Attempt(v, suppressed, ws, input, now, newId);
            var left := if Found(v, ws, input).Some? then v.write[i] else v.check[i];
            && i < |outcome.rows|
            && outcome.rows[i].id == v.check[i].id && outcome.rows[i].workspaceId == v.check[i].workspaceId
            && (!(outcome.Updated? && outcome.at == i) ==> outcome.rows[i] == left)
            && (Given(left.externalId) ==> outcome.rows[i].externalId == left.externalId)
  {
    FoundIsLive(v, ws, input);
    hide Found, Collides, TakenByAnother, NextEmail, NextStatus;
  }

  // ---------- the race ----------

  /** Some row holds an identifier that the new row would store, the empty string included. */
  predicate KeyHeld(rows: seq<Contact>, ws: string, input: Input) {
    exists i :: 0 <= i < |rows| && rows[i].workspaceId == ws
                && ((input.externalId.Some? && rows[i].externalId == input.externalId) || (input.email.Some? && rows[i].email == input.email))
  }

  lemma CollisionIsAHeldKey(rows: seq<Contact>, suppressed: bool, ws: string, input: Input, now: int, newId: string)
    ensures Collides(rows, NewContact(ws, input, suppressed, now, newId)) <==> KeyHeld(rows, ws, input)
  {
    var row := NewContact(ws, input, suppressed, now, newId);
    if i :| 0 <= i < |rows| && SameKey(rows[i], row) {
      assert rows[i].workspaceId == ws;
    }
    if i :| 0 <= i < |rows| && rows[i].workspaceId == ws
            && ((input.externalId.Some? && rows[i].externalId == input.externalId) || (input.email.Some? && rows[i].email == input.email)) {
      assert SameKey(rows[i], row);
    }
  }

  /** When the update runs, another row holds the email that the check found free, or the external id being attached. */
  predicate TakenMeanwhile(v: Views, ws: string, input: Input)
    requires Plausible(v, ws, input) && Found(v, ws, input).Some?
  {
    var at := Found(v, ws, input).value;
    var prior := v.check[at];
    var email, externalId := NextEmail(v.check, prior, ws, input), NextExternalId(prior, input);
    exists i :: 0 <= i < |v.write| && i != at && v.write[i].workspaceId == ws
                && ((email != prior.email && v.write[i].email == email)
                    || (externalId != prior.externalId && v.write[i].externalId == externalId))
  }

  /** The keys a contact already had are its own, so only a key it newly asks for can collide. */
  lemma UpdateViolatesIffTaken(v: Views, ws: string, input: Input, now: int)
    requires Plausible(v, ws, input) && Found(v, ws, input).Some? && ValidRows(v.write)
    ensures var at := Found(v, ws, input).value;
            TakenByAnother(v.write, at, Merged(v.check, v.check[at], ws, input, now)) <==> TakenMeanwhile(v, ws, input)
  {
    FoundIsLive(v, ws, input);
    hide Found, NextStatus, EmailTaken;
    var at := Found(v, ws, input).value;
    var prior := v.check[at];
    var c := Merged(v.check, prior, ws, input, now);
    assert c.workspaceId == ws && c.email == NextEmail(v.check, prior, ws, input) && c.externalId == NextExternalId(prior, input);
    forall i | 0 <= i < |v.write| && i != at ensures !SameKey(v.write[i], prior) {
      SameKeySymmetric(v.write[i], prior);
      assert i < at ==> !SameKey(v.write[i], v.write[at]);
      assert at < i ==> !SameKey(v.write[at], v.write[i]);
    }
  }

  /**
   * A unique violation escapes exactly when another transaction takes the new email or the attached external
   * id before the update of a matched contact, or an identifier is held both when the first insert runs and
   * when the retry, having found nobody either, inserts again.
   */
  lemma ViolationEscapesIff(first: Views, second: Views, suppressed: bool, ws: string, input: Input, now: int, newId: string)
    requires Plausible(first, ws, input) && Plausible(second, ws, input) && ValidRows(first.write) && ValidRows(second.write)
    ensures var a, b := Found(first, ws, input), Found(second, ws, input);
            Upserted(first, second, suppressed, ws, input, now, newId).Violated? <==>
              if a.Some? then TakenMeanwhile(first, ws, input)
              else KeyHeld(first.check, ws, input)
                   && if b.Some? then TakenMeanwhile(second, ws, input) else KeyHeld(second.check, ws, input)
  {
    hide Plausible, Found, ValidRows, Collides, TakenByAnother, TakenMeanwhile, KeyHeld, Merged, NewContact;
    AttemptViolatesIff(first, suppressed, ws, input, now, newId);
    AttemptViolatesIff(second, suppressed, ws, input, now, newId);
  }

  lemma AttemptViolatesIff(v: Views, suppressed: bool, ws: string, input: Input, now: int, newId: string)
    requires Plausible(v, ws, input) && ValidRows(v.write)
    ensures Attempt(v, suppressed, ws, input, now, newId).Violated? <==>
              if Found(v, ws, input).Some? then TakenMeanwhile(v, ws, input) else KeyHeld(v.check, ws, input)
  {
    hide Found, ValidRows, Collides, TakenByAnother, TakenMeanwhile, KeyHeld, Merged, NewContact;
    if Found(v, ws, input).Some? {
      UpdateViolatesIffTaken(v, ws, input, now);
    } else {
      CollisionIsAHeldKey(v.check, suppressed, ws, input, now, newId);
    }
  }

  /** An identifier given as the empty string is stored, and collides, though no lookup ever tries it. */
  predicate EmptyKeyHeld(rows: seq<Contact>, ws: string, input: Input) {
    exists i :: 0 <= i < |rows| && rows[i].workspaceId == ws
                && ((input.externalId == Some("") && rows[i].externalId == Some(""))
                    || (input.email == Some("") && rows[i].email == Some("")))
  }

  /** On one table, where the lookups find nothing, only an empty identifier can be held. */
  lemma HeldKeyIsEmpty(rows: seq<Contact>, ws: string, input: Input)
    requires ErasedAreBare(rows) && Matching(rows, ws, input).None?
    ensures KeyHeld(rows, ws, input) <==> EmptyKeyHeld(rows, ws, input)
  {
    forall i | 0 <= i < |rows| ensures
        (rows[i].workspaceId == ws
         && ((input.externalId.Some? && rows[i].externalId == input.externalId) || (input.email.Some? && rows[i].email == input.email)))
        <==> (rows[i].workspaceId == ws && ((input.externalId == Some("") && rows[i].externalId == Some(""))
                                            || (input.email == Some("") && rows[i].email == Some("")))) {
      if Given(input.externalId) {
        assert !HoldsExternal(rows[i], ws, input.externalId.value);
      }
      if Given(input.email) {
        assert !HoldsEmail(rows[i], ws, input.email.value);
      }
    }
  }

  lemma AloneFindsTheMatch(rows: seq<Contact>, ws: string, input: Input)
    ensures Found(Alone(rows), ws, input) == Matching(rows, ws, input) && Plausible(Alone(rows), ws, input)
  {
    hide FindExternal, FindEmail;
  }

  predicate IsMerge(rows: seq<Contact>, at: nat, ws: string, input: Input, now: int, outcome: Outcome)
    requires at < |rows| && outcome.Updated?
  {
    var after := Merged(rows, rows[at], ws, input, now);
    outcome.at == at && outcome.rows == rows[at := after] && outcome.log == StatusLog(ws, rows[at], after.status)
  }

  lemma AloneOutcome(rows: seq<Contact>, suppressed: bool, ws: string, input: Input, now: int, newId: string)
    requires ValidRows(rows)
    ensures var outcome := Attempt(Alone(rows), suppressed, ws, input, now, newId); var found := Matching(rows, ws, input);
            && (outcome.Updated? <==> found.Some?)
            && (found.Some? ==> IsMerge(rows, found.value, ws, input, now, outcome))
            && (outcome.Violated? <==> found.None? && EmptyKeyHeld(rows, ws, input))
            && (outcome.Created? ==> outcome.rows == rows + [NewContact(ws, input, suppressed, now, newId)])
  {
    AloneFindsTheMatch(rows, ws, input);
    assert ErasedAreBare(rows);
    hide Found, Matching, ValidRows, Collides, TakenByAnother, KeyHeld, EmptyKeyHeld, Merged, NewContact, ErasedAreBare;
    if Matching(rows, ws, input).Some? {
      AloneIsNeverTaken(rows, ws, input, now);
    } else {
      CollisionIsAHeldKey(rows, suppressed, ws, input, now, newId);
      HeldKeyIsEmpty(rows, ws, input);
    }
  }

  /**
   * One retry is enough against one race: when the retry is left alone, the call updates the contact it first
   * found or else the rival that now holds an identifier, and its insert fails only on an empty identifier.
   */
  lemma RaceResolvesToTheWinner(first: Views, rows: seq<Contact>, suppressed: bool, ws: string, input: Input, now: int, newId: string)
    requires Plausible(first, ws, input) && ValidRows(first.write) && ValidRows(rows)
    ensures Plausible(Alone(rows), ws, input)
    ensures var outcome := Upserted(first, Alone(rows), suppressed, ws, input, now, newId);
            var a, b := Found(first, ws, input), Matching(rows, ws, input);
            if a.Some? then
              && (outcome.Violated? <==> TakenMeanwhile(first, ws, input))
              && (!outcome.Violated? ==> outcome.Updated? && outcome.at == a.value)
            else if !KeyHeld(first.check, ws, input) then outcome.Created?
            else
              && (outcome.Updated? <==> b.Some?)
              && (b.Some? ==> outcome.at == b.value)
              && (outcome.Violated? <==> b.None? && EmptyKeyHeld(rows, ws, input))
  {
    AloneFindsTheMatch(rows, ws, input);
    hide Plausible, Found, Matching, ValidRows, Collides, TakenByAnother, TakenMeanwhile, KeyHeld, EmptyKeyHeld, Merged, NewContact;
    AttemptViolatesIff(first, suppressed, ws, input, now, newId);
    hide Alone;
    AloneOutcome(rows, suppressed, ws, input, now, newId);
  }

  /** Whether an address is on the suppression list makes no difference to the keys. */
  lemma ListMovesNoKey(v: Views, a: bool, b: bool, ws: string, input: Input, now: int, newId: string)
    requires Plausible(v, ws, input)
    ensures Attempt(v, a, ws, input, now, newId).Violated? <==> Attempt(v, b, ws, input, now, newId).Violated?
  {
    hide Found, Plausible, KeyHeld, TakenByAnother, Merged, NewContact, Collides;
    CollisionIsAHeldKey(v.check, a, ws, input, now, newId);
    CollisionIsAHeldKey(v.check, b, ws, input, now, newId);
  }

  // ---------- violations with no empty string about ----------

  const NoProfile := Profile(None, None, None, None, None, None)

  function Plain(id: string, externalId: Option<string>, email: Option<string>): Contact {
    Contact(id, "w", externalId, email, NoProfile, [], map[], Subscribed, None, 0)
  }

  /** The matched contact's new email, found free by the check, is taken before the update runs. */
  lemma EmailTakenBeforeTheUpdate()
    ensures var a := Plain("a", Some("x"), None);
            var v := Views([a], [a], [a], [a, Plain("b", None, Some("e"))]);
            var input := Input(Some("x"), Some("e"), NoProfile, None, None, None);
            Plausible(v, "w", input) && ValidRows(v.write) && Upserted(v, v, false, "w", input, 1, "c").Violated?
  {
    var a, b := Plain("a", Some("x"), None), Plain("b", None, Some("e"));
    var v := Views([a], [a], [a], [a, b]);
    var input := Input(Some("x"), Some("e"), NoProfile, None, None, None);
    assert HoldsExternal([a][0], "w", "x");
    assert Found(v, "w", input) == Some(0);
    assert Evolves([a], [a]) && Evolves([a], [a, b]);
    assert NextEmail([a], a, "w", input) == Some("e");
    assert [a, b][1] == b;
    AttemptViolatesIff(v, false, "w", input, 1, "c");
  }

  /** The external id being attached to a contact found by its email is taken before the update runs. */
  lemma AnchorTakenBeforeTheUpdate()
    ensures var a := Plain("a", None, Some("e"));
            var v := Views([a], [a], [a], [a, Plain("b", Some("x"), None)]);
            var input := Input(Some("x"), Some("e"), NoProfile, None, None, None);
            Plausible(v, "w", input) && ValidRows(v.write) && Upserted(v, v, false, "w", input, 1, "c").Violated?
  {
    var a, b := Plain("a", None, Some("e")), Plain("b", Some("x"), None);
    var v := Views([a], [a], [a], [a, b]);
    var input := Input(Some("x"), Some("e"), NoProfile, None, None, None);
    assert !HoldsExternal([a][0], "w", "x") && HoldsEmail([a][0], "w", "e");
    assert FindExternal([a], "w", "x").None?;
    assert Found(v, "w", input) == Some(0);
    assert Evolves([a], [a]) && Evolves([a], [a, b]);
    assert [a, b][1] == b;
    AttemptViolatesIff(v, false, "w", input, 1, "c");
  }

  // ---------- the read-only lookup ----------

  /** With nobody racing, the upsert creates or fails exactly where the read-only lookup finds nothing, and else updates what it found. */
  lemma UpsertAgreesWithLookup(rows: seq<Contact>, suppressed: bool, ws: string, input: Input, now: int, newId: string)
    requires ValidRows(rows)
    ensures var outcome := UpsertedAlone(rows, suppressed, ws, input, now, newId);
            var found := Matching(rows, ws, Input(input.externalId, input.email, NoProfile, None, None, None));
            && found == Matching(rows, ws, input)
            && (outcome.Updated? <==> found.Some?)
            && (found.Some? ==> IsMerge(rows, found.value, ws, input, now, outcome))
            && (found.None? ==> (outcome.Created? <==> !EmptyKeyHeld(rows, ws, input)))
            && (outcome.Created? ==> outcome.rows == rows + [NewContact(ws, input, suppressed, now, newId)])
  {
    hide FindExternal, FindEmail, EmptyKeyHeld, ValidRows, Merged, NewContact, Attempt, Plausible;
    AloneFindsTheMatch(rows, ws, input);
    AloneOutcome(rows, suppressed, ws, input, now, newId);
  }

  // ---------- calling twice ----------

  predicate SameButTimes(a: seq<Contact>, b: seq<Contact>) {
    |a| == |b| && forall i :: 0 <= i < |a| ==> a[i].(updatedAt := 0) == b[i].(updatedAt := 0)
  }

  /** The second call, some time later, leaves rows and history as the first left them. */
  predicate RepeatChangesNothing(rows: seq<Contact>, suppressed: bool, ws: string, input: Input, now: int, newId: string, then': int, otherId: string) {
    var first := UpsertedAlone(rows, suppressed, ws, input, now, newId);
    var second := UpsertedAlone(first.rows, suppressed, ws, input, then', otherId);
    second.Updated? && second.log == [] && SameButTimes(first.rows, second.rows)
  }

  /** After a first call the second finds the row the first wrote, in a table that still keeps the constraints. */
  lemma SecondFindsTheFirst(rows: seq<Contact>, suppressed: bool, ws: string, input: Input, now: int, newId: string)
    requires ValidRows(rows) && FreshId(rows, newId) && (Given(input.externalId) || Given(input.email))
    requires Matching(rows, ws, input).Some? || !EmptyKeyHeld(rows, ws, input)
    ensures var first := UpsertedAlone(rows, suppressed, ws, input, now, newId);
            && ValidRows(first.rows)
            && Matching(first.rows, ws, input) == Some(if first.Updated? then first.at else |rows|)
  {
    hide Matching, EmptyKeyHeld, Merged, NewContact, ValidRows, Upserted, FreshId;
    AloneFindsTheMatch(rows, ws, input);
    UpsertKeepsConstraints(Alone(rows), Alone(rows), suppressed, ws, input, now, newId);
    UpsertAgreesWithLookup(rows, suppressed, ws, input, now, newId);
    if Matching(rows, ws, input).Some? {
      UpdatedIsFound(rows, ws, input, now);
    } else {
      CreatedIsFound(rows, suppressed, ws, input, now, newId);
    }
  }

  lemma CreatedIsFound(rows: seq<Contact>, suppressed: bool, ws: string, input: Input, now: int, newId: string)
    requires Matching(rows, ws, input).None? && (Given(input.externalId) || Given(input.email))
    ensures Matching(rows + [NewContact(ws, input, suppressed, now, newId)], ws, input) == Some(|rows|)
  {
    var grown := rows + [NewContact(ws, input, suppressed, now, newId)];
    assert grown[..|grown| - 1] == rows;
  }

  /** The updated row holds the external id that was asked for, or else was found by its email and holds that. */
  lemma UpdatedIsFound(rows: seq<Contact>, ws: string, input: Input, now: int)
    requires ValidRows(rows) && Matching(rows, ws, input).Some?
    ensures var at := Matching(rows, ws, input).value;
            Matching(rows[at := Merged(rows, rows[at], ws, input, now)], ws, input) == Some(at)
  {
    var at := Matching(rows, ws, input).value;
    var after := rows[at := Merged(rows, rows[at], ws, input, now)];
    var c := after[at];
    MatchIsLive(rows, ws, input);
    AloneIsNeverTaken(rows, ws, input, now);
    UpdateKeepsValid(rows, at, c);
    if Given(input.externalId) && c.externalId == input.externalId {
      FindsHolder(after, ws, input.externalId.value, at);
    } else {
      if Given(input.externalId) {
        assert FindExternal(rows, ws, input.externalId.value).None?;
        forall i | 0 <= i < |after| ensures !HoldsExternal(after[i], ws, input.externalId.value) {
          assert i != at ==> after[i] == rows[i];
        }
      }
      assert c.email == input.email && Given(input.email);
      FindsHolder(after, ws, input.email.value, at);
    }
  }

  lemma FindsHolder(rows: seq<Contact>, ws: string, key: string, at: nat)
    requires UniqueKeys(rows) && at < |rows|
    ensures HoldsExternal(rows[at], ws, key) ==> FindExternal(rows, ws, key) == Some(at)
    ensures HoldsEmail(rows[at], ws, key) ==> FindEmail(rows, ws, key) == Some(at)
  {
    hide UniqueKeys;
    if HoldsExternal(rows[at], ws, key) {
      HolderIsUnique(rows, ws, key, at, FindExternal(rows, ws, key).value);
    }
    if HoldsEmail(rows[at], ws, key) {
      HolderIsUnique(rows, ws, key, at, FindEmail(rows, ws, key).value);
    }
  }

  /** Merging the same input again moves only the time. */
  lemma MergeIsIdempotent(rows: seq<Contact>, at: nat, ws: string, input: Input, now: int, then': int)
    requires at < |rows| && UniqueIds(rows)
    ensures var c := Merged(rows, rows[at], ws, input, now);
            Merged(rows[at := c], c, ws, input, then') == c.(updatedAt := then')
  {
    var c := Merged(rows, rows[at], ws, input, now);
    var after := rows[at := c];
    if Given(input.email) && EmailTaken(rows, ws, input.email.value, rows[at].id) {
      var i :| 0 <= i < |rows| && HoldsEmail(rows[i], ws, input.email.value) && rows[i].id != rows[at].id;
      assert after[i] == rows[i];
      assert EmailTaken(after, ws, input.email.value, c.id);
    }
    assert c.properties + SafeProperties(input.properties) == c.properties;
  }

  /** Merging into the row just created moves only the time, and undoes a suppression if unsubscribed was asked for. */
  lemma MergeIntoNew(rows: seq<Contact>, ws: string, input: Input, suppressed: bool, now: int, newId: string, then': int)
    ensures var c := NewContact(ws, input, suppressed, now, newId);
            var undone := Given(input.email) && suppressed && input.status == Some(Unsubscribed);
            Merged(rows, c, ws, input, then') == c.(updatedAt := then', status := if undone then Unsubscribed else c.status)
  {
    var safe := SafeProperties(input.properties);
    assert safe + safe == safe;
  }

  /**
   * A repeated upsert that succeeds is idempotent up to times exactly when it names somebody and does not
   * undo a suppression: a first call that created a contact at a suppressed address while asking for
   * "unsubscribed" is followed by a second that turns suppressed into unsubscribed.
   */
  lemma IdempotentUnlessASuppressionIsUndone(rows: seq<Contact>, suppressed: bool, ws: string, input: Input, now: int, newId: string,
                                             then': int, otherId: string)
    requires ValidRows(rows) && FreshId(rows, newId)
    requires Matching(rows, ws, input).Some? || !EmptyKeyHeld(rows, ws, input)
    ensures RepeatChangesNothing(rows, suppressed, ws, input, now, newId, then', otherId) <==>
              && (Given(input.externalId) || Given(input.email))
              && !(Matching(rows, ws, input).None? && Given(input.email) && suppressed && input.status == Some(Unsubscribed))
  {
    if !Given(input.externalId) && !Given(input.email) {
      NamelessNeverUpdates(rows, suppressed, ws, input, now, newId, then', otherId);
    } else {
      hide Matching, EmptyKeyHeld, Merged, NewContact, ValidRows, UpsertedAlone;
      var first := UpsertedAlone(rows, suppressed, ws, input, now, newId);
      UpsertAgreesWithLookup(rows, suppressed, ws, input, now, newId);
      SecondFindsTheFirst(rows, suppressed, ws, input, now, newId);
      UpsertAgreesWithLookup(first.rows, suppressed, ws, input, then', otherId);
      if first.Updated? {
        assert UniqueIds(rows) by { ValidMeansUniqueIds(rows); }
        MergeIsIdempotent(rows, first.at, ws, input, now, then');
      } else {
        assert first.rows[|rows|] == NewContact(ws, input, suppressed, now, newId);
        MergeIntoNew(first.rows, ws, input, suppressed, now, newId, then');
        NewStatus(ws, input, suppressed, now, newId);
      }
    }
  }

  lemma ValidMeansUniqueIds(rows: seq<Contact>)
    requires ValidRows(rows)
    ensures UniqueIds(rows)
  {
  }

  lemma NewStatus(ws: string, input: Input, suppressed: bool, now: int, newId: string)
    ensures NewContact(ws, input, suppressed, now, newId).status == InitialStatus(input, suppressed)
  {
  }

  /** Without an identifier no lookup is made, so nothing is ever updated. */
  lemma NamelessNeverUpdates(rows: seq<Contact>, suppressed: bool, ws: string, input: Input, now: int, newId: string, then': int, otherId: string)
    requires !Given(input.externalId) && !Given(input.email)
    ensures !RepeatChangesNothing(rows, suppressed, ws, input, now, newId, then', otherId)
  {
    hide Collides, NewContact;
    var first := UpsertedAlone(rows, suppressed, ws, input, now, newId);
    assert Found(Alone(first.rows), ws, input).None?;
  }
}
