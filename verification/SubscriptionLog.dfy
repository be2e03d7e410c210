/**
 * The code paths that change a subscription status and write its history, each in two parts: it reads the
 * status without a lock and writes later. The unsubscribe fact on a send gates a campaign counter.
 */
module SubscriptionLog {
  import opened Options
  import opened ContactIdentity
  import opened ContactLaws

  datatype SendRow = SendRow(id: string, workspaceId: string, contactId: string, campaignId: Option<string>, unsubscribedAt: Option<int>)

  datatype UnsubscribeResult = UnsubscribeResult(statusChanged: bool, sendFactJustSet: bool, campaignId: Option<string>)

  // ---------- shapes and lookups ----------

  predicate IsHexDigit(c: char) {
    '0' <= c <= '9' || 'a' <= c <= 'f' || 'A' <= c <= 'F'
  }

  predicate IsUuid(s: string) {
    |s| == 36 && forall i :: 0 <= i < 36 ==> if i == 8 || i == 13 || i == 18 || i == 23 then s[i] == '-' else IsHexDigit(s[i])
  }

  /** Row security shows a transaction its own workspace only. */
  function FindContact(rows: seq<Contact>, ws: string, id: string): (r: Option<nat>)
    ensures r.Some? ==> r.value < |rows| && rows[r.value].id == id && rows[r.value].workspaceId == ws
  {
    FindRow(rows, (c: Contact) => c.id == id && c.workspaceId == ws)
  }

  function FindSend(sends: seq<SendRow>, ws: string, id: string): (r: Option<nat>)
    ensures r.Some? ==> r.value < |sends| && sends[r.value].id == id && sends[r.value].workspaceId == ws
  {
    FindRow(sends, (s: SendRow) => s.id == id && s.workspaceId == ws)
  }

  function ResolveSend(sends: seq<SendRow>, ws: string, sendId: Option<string>): (r: Option<nat>)
    ensures r.Some? ==> r.value < |sends|
  {
    if sendId.Some? then FindSend(sends, ws, sendId.value) else None
  }

  /** The caller's contact when it has one, else the send's; nobody when that is not a UUID. */
  function EffectiveContact(sends: seq<SendRow>, ws: string, contactId: Option<string>, sendId: Option<string>): Option<string> {
    var send := ResolveSend(sends, ws, sendId);
    var id := Coalesce(contactId, if send.Some? then Some(sends[send.value].contactId) else None);
    if id.Some? && IsUuid(id.value) then id else None
  }

  // ---------- the statements ----------

  function StatusOf(rows: seq<Contact>, ws: string, id: string): Option<Status> {
    var i := FindContact(rows, ws, id);
    if i.Some? then Some(rows[i.value].status) else None
  }

  function SetStatus(rows: seq<Contact>, ws: string, id: string, status: Status, now: int): seq<Contact> {
    var i := FindContact(rows, ws, id);
    if i.Some? then rows[i.value := rows[i.value].(status := status, updatedAt := now)] else rows
  }

  /** The fact column is written once. */
  predicate FactIsNew(sends: seq<SendRow>, at: Option<nat>)
    requires at.Some? ==> at.value < |sends|
  {
    at.Some? && sends[at.value].unsubscribedAt.None?
  }

  function MarkUnsubscribed(sends: seq<SendRow>, at: Option<nat>, occurredAt: int): seq<SendRow>
    requires at.Some? ==> at.value < |sends|
  {
    if FactIsNew(sends, at) then sends[at.value := sends[at.value].(unsubscribedAt := Some(occurredAt))] else sends
  }

  function SendById(sends: seq<SendRow>, id: string): (r: Option<nat>)
    ensures r.Some? ==> r.value < |sends| && sends[r.value].id == id
    ensures r.None? ==> forall i :: 0 <= i < |sends| ==> sends[i].id != id
  {
    FindRow(sends, (s: SendRow) => s.id == id)
  }

  function Bump(counts: map<string, nat>, campaignId: Option<string>): map<string, nat> {
    if campaignId.None? then counts
    else counts[campaignId.value := (if campaignId.value in counts then counts[campaignId.value] else 0) + 1]
  }

  // ---------- reading first, writing later ----------

  /**
   * What a call knows between its reads and its writes. The status is read without a lock, so other
   * transactions may commit before the call writes.
   */
  datatype Pending =
    | ToUnsubscribe(ws: string, contactId: Option<string>, prior: Option<Status>, sendId: Option<string>, campaignId: Option<string>)
    | ToSuppress(ws: string, target: string, prior: Option<Status>)

  datatype State = State(
    rows: seq<Contact>, history: seq<HistoryRow>, suppressions: set<(string, string)>,
    sends: seq<SendRow>, counts: map<string, nat>)
  {
    function ReadForUnsubscribe(ws: string, contactId: Option<string>, sendId: Option<string>): (p: Pending)
      ensures p.ToUnsubscribe?
    {
      var contact := EffectiveContact(sends, ws, contactId, sendId);
      var send := ResolveSend(sends, ws, sendId);
      ToUnsubscribe(
        ws, contact, if contact.Some? then StatusOf(rows, ws, contact.value) else None,
        if send.Some? then Some(sends[send.value].id) else None,
        if send.Some? then sends[send.value].campaignId else None)
    }

    function ReadForSuppression(ws: string, target: string): Pending {
      ToSuppress(ws, target, StatusOf(rows, ws, target))
    }

    /** Status and history by the status that was read, the fact by its own guard. */
    function Unsubscribed(p: Pending, occurredAt: int, source: Source, now: int): State
      requires p.ToUnsubscribe?
    {
      if p.contactId.None? then this
      else
        var changes := WritesUnsubscribed(p);
        this.(rows := if changes then SetStatus(rows, p.ws, p.contactId.value, Status.Unsubscribed, now) else rows,
              history := history + if changes
                                   then [HistoryRow(p.ws, p.contactId.value, p.prior.value, Status.Unsubscribed, source)] else [],
              sends := if p.sendId.Some? then MarkUnsubscribed(sends, SendById(sends, p.sendId.value), occurredAt) else sends)
    }

    /** This call is the one that sets the fact. */
    predicate JustSets(p: Pending)
      requires p.ToUnsubscribe?
    {
      p.contactId.Some? && p.sendId.Some? && FactIsNew(sends, SendById(sends, p.sendId.value))
    }

    /** The caller counts in the same transaction, gated on the fact. */
    function Counted(p: Pending, occurredAt: int, source: Source, now: int): State
      requires p.ToUnsubscribe?
    {
      Unsubscribed(p, occurredAt, source, now).(counts := if JustSets(p) then Bump(counts, p.campaignId) else counts)
    }

    /** The update runs even where the status is already there; only the log goes by the status that was read. */
    function Suppressed(p: Pending, addressHash: (string, string) -> string, now: int): State
      requires p.ToSuppress?
    {
      var i := FindContact(rows, p.ws, p.target);
      this.(rows := SetStatus(rows, p.ws, p.target, Status.Suppressed, now),
            suppressions := if i.Some? && Given(rows[i.value].email)
                            then suppressions + {(p.ws, addressHash(p.ws, rows[i.value].email.value))} else suppressions,
            history := history + if LogsSuppressed(p)
                                 then [HistoryRow(p.ws, p.target, p.prior.value, Status.Suppressed, WebhookSuppression)] else [])
    }
  }

  predicate WritesUnsubscribed(p: Pending)
    requires p.ToUnsubscribe?
  {
    p.contactId.Some? && p.prior.Some? && p.prior.value != Status.Unsubscribed
  }

  predicate LogsSuppressed(p: Pending)
    requires p.ToSuppress?
  {
    p.prior.Some? && p.prior.value != Status.Suppressed
  }

  // ---------- the functions in place ----------

  class Unsubscriber {
    const table: ContactTable
    var sends: seq<SendRow>
    var counts: map<string, nat>

    constructor (table: ContactTable)
      ensures this.table == table && sends == [] && counts == map[]
    {
      this.table := table;
      sends, counts := [], map[];
    }

    ghost function Image(): State
      reads this, table
    {
      State(table.rows, table.history, table.suppressions, sends, counts)
    }

    /** What other transactions have committed by now. */
    method Resume(meanwhile: State)
      modifies this, table
      ensures Image() == meanwhile
    {
      table.rows, table.history, table.suppressions := meanwhile.rows, meanwhile.history, meanwhile.suppressions;
      sends, counts := meanwhile.sends, meanwhile.counts;
    }

    method SetFactColumnOnce(at: nat, occurredAt: int) returns (justSet: bool)
      requires at < |sends|
      modifies this`sends
      ensures justSet <==> old(sends)[at].unsubscribedAt.None?
      ensures sends == MarkUnsubscribed(old(sends), Some(at), occurredAt)
    {
      justSet := sends[at].unsubscribedAt.None?;
      if justSet {
        sends := sends[at := sends[at].(unsubscribedAt := Some(occurredAt))];
      }
    }

    /** `meanwhile` is what the tables hold when the reads are done and the writes begin. */
    method ApplyUnsubscribeWithSendFact(ws: string, contactId: Option<string>, sendId: Option<string>, occurredAt: int, source: Source,
                                        now: int, meanwhile: State) returns (r: UnsubscribeResult)
      modifies this, table
      ensures var p := old(Image()).ReadForUnsubscribe(ws, contactId, sendId);
              && Image() == (if p.contactId.None? then old(Image()) else meanwhile.Unsubscribed(p, occurredAt, source, now))
              && r.campaignId == p.campaignId
              && (r.statusChanged <==> WritesUnsubscribed(p))
              && (r.sendFactJustSet <==> meanwhile.JustSets(p))
    {
      hide FindSend, FindContact, IsUuid;
      var resolvedSend := ResolveSend(sends, ws, sendId);
      var campaignId := if resolvedSend.Some? then sends[resolvedSend.value].campaignId else None;
      var resolvedId := if resolvedSend.Some? then Some(sends[resolvedSend.value].id) else None;
      var effective := contactId;
      if effective.None? && resolvedSend.Some? {
        effective := Some(sends[resolvedSend.value].contactId);
      }
      if effective.None? || !IsUuid(effective.value) {
        return UnsubscribeResult(false, false, campaignId);
      }
      var priorStatus := StatusOf(table.rows, ws, effective.value);
      Resume(meanwhile);
      var statusChanged := false;
      if priorStatus.Some? && priorStatus.value != Status.Unsubscribed {
        table.rows := SetStatus(table.rows, ws, effective.value, Status.Unsubscribed, now);
        table.history := table.history + [HistoryRow(ws, effective.value, priorStatus.value, Status.Unsubscribed, source)];
        statusChanged := true;
      }
      var sendFactJustSet := false;
      if resolvedId.Some? {
        var at := SendById(sends, resolvedId.value);
        if at.Some? {
          sendFactJustSet := SetFactColumnOnce(at.value, occurredAt);
        }
      }
      return UnsubscribeResult(statusChanged, sendFactJustSet, campaignId);
    }

    /** The route and the webhook alike: one transaction, the counter gated on the fact. */
    method Unsubscribe(ws: string, contactId: Option<string>, sendId: Option<string>, occurredAt: int, source: Source, now: int, meanwhile: State)
      modifies this, table
      ensures var p := old(Image()).ReadForUnsubscribe(ws, contactId, sendId);
              Image() == if p.contactId.None? then old(Image()) else meanwhile.Counted(p, occurredAt, source, now)
    {
      var result := ApplyUnsubscribeWithSendFact(ws, contactId, sendId, occurredAt, source, now, meanwhile);
      if result.sendFactJustSet {
        if result.campaignId.Some? {
          counts := Bump(counts, result.campaignId);
        }
      }
    }

    /** The provider's bounce, drop or spam report. */
    method ApplySuppression(ws: string, contactId: string, now: int, meanwhile: State)
      modifies this, table
      ensures Image() == meanwhile.Suppressed(old(Image()).ReadForSuppression(ws, contactId), table.addressHash, now)
    {
      hide FindContact;
      var priorStatus := StatusOf(table.rows, ws, contactId);
      Resume(meanwhile);
      var at := FindContact(table.rows, ws, contactId);
      table.rows := SetStatus(table.rows, ws, contactId, Status.Suppressed, now);
      if at.Some? && Given(table.rows[at.value].email) {
        table.suppressions := table.suppressions + {(ws, table.addressHash(ws, table.rows[at.value].email.value))};
      }
      if priorStatus.Some? && priorStatus.value != Status.Suppressed {
        table.history := table.history + [HistoryRow(ws, contactId, priorStatus.value, Status.Suppressed, WebhookSuppression)];
      }
    }
  }
}
