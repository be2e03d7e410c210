/** The send-status matrix: which status may follow which, and who may write the change. */
module SendStateMachine {
  datatype SendStatus = Dispatching | Sent | Failed | Excluded | Reconciling | Unknown

  datatype SendStatusWriter = SendWorker | SendReconciler | PreSendGate

  datatype SendTransition = SendTransition(to: SendStatus, writers: seq<SendStatusWriter>)

  /** The from-keyed table; the human-readable trigger texts are not represented. */
  function SendStatusTransitions(from: SendStatus): seq<SendTransition> {
    match from
    case Dispatching => [
      SendTransition(Sent, [SendWorker]),
      SendTransition(Failed, [SendWorker]),
      SendTransition(Reconciling, [SendWorker, SendReconciler])
    ]
    case Reconciling => [
      SendTransition(Sent, [SendReconciler]),
      SendTransition(Unknown, [SendReconciler])
    ]
    case Unknown => [SendTransition(Sent, [SendReconciler])]
    case Sent => []
    case Failed => []
    case Excluded => []
  }

  /** The first entry of the list that leads to `to`, if there is one. */
  function FindTransition(entries: seq<SendTransition>, to: SendStatus): seq<SendTransition> {
    if entries == [] then []
    else if entries[0].to == to then [entries[0]]
    else FindTransition(entries[1..], to)
  }

  predicate IsAllowedTransition(from: SendStatus, to: SendStatus) {
    exists i :: 0 <= i < |SendStatusTransitions(from)| && SendStatusTransitions(from)[i].to == to
  }

  function WritersFor(from: SendStatus, to: SendStatus): seq<SendStatusWriter> {
    var found := FindTransition(SendStatusTransitions(from), to);
    if found == [] then [] else found[0].writers
  }

  lemma {:induction false} FindAgreesWithSome(entries: seq<SendTransition>, to: SendStatus)
    ensures FindTransition(entries, to) == [] <==> forall i :: 0 <= i < |entries| ==> entries[i].to != to
    ensures forall t :: t in FindTransition(entries, to) ==> t in entries && t.to == to
  {
    if entries != [] && entries[0].to != to {
      FindAgreesWithSome(entries[1..], to);
      assert forall i :: 1 <= i < |entries| ==> entries[i] == entries[1..][i - 1];
    }
  }

  /** Entry by entry, `from -> to` is allowed exactly when somebody may write it. */
  lemma AllowedIffSomeoneWrites(from: SendStatus, to: SendStatus)
    ensures IsAllowedTransition(from, to) <==> WritersFor(from, to) != []
  {
    FindAgreesWithSome(SendStatusTransitions(from), to);
    assert forall t :: t in SendStatusTransitions(from) ==> t.writers != [];
  }

  /** The matrix spelt out: six edges, and of each exactly who may write it. */
  lemma TheMatrix(from: SendStatus, after: SendStatus, writer: SendStatusWriter)
    ensures IsAllowedTransition(from, after) <==>
              (from == Dispatching && after in {Sent, Failed, Reconciling}) || (from == Reconciling && after in {Sent, Unknown})
              || (from == Unknown && after == Sent)
    ensures writer in WritersFor(from, after) <==>
              (from == Dispatching && writer == SendWorker && after in {Sent, Failed, Reconciling})
              || (from == Dispatching && writer == SendReconciler && after == Reconciling)
              || (from == Reconciling && writer == SendReconciler && after in {Sent, Unknown})
              || (from == Unknown && writer == SendReconciler && after == Sent)
  {
    AllowedIffSomeoneWrites(from, after);
    match from
    case Dispatching =>
      FindAfter(SendTransition(Sent, [SendWorker]),
                [SendTransition(Failed, [SendWorker]), SendTransition(Reconciling, [SendWorker, SendReconciler])], after);
      FindAfter(SendTransition(Failed, [SendWorker]), [SendTransition(Reconciling, [SendWorker, SendReconciler])], after);
      FindAfter(SendTransition(Reconciling, [SendWorker, SendReconciler]), [], after);
    case Reconciling =>
      FindAfter(SendTransition(Sent, [SendReconciler]), [SendTransition(Unknown, [SendReconciler])], after);
      FindAfter(SendTransition(Unknown, [SendReconciler]), [], after);
    case Unknown => FindAfter(SendTransition(Sent, [SendReconciler]), [], after);
    case _ =>
  }

  lemma FindAfter(first: SendTransition, rest: seq<SendTransition>, after: SendStatus)
    ensures FindTransition([first] + rest, after) == if first.to == after then [first] else FindTransition(rest, after)
  {
    assert ([first] + rest)[1..] == rest;
  }

  /** An edge of the matrix taken by `writer`, or no change of status at all. */
  predicate EdgeOrStutter(from: SendStatus, to: SendStatus, writer: SendStatusWriter) {
    from == to || (IsAllowedTransition(from, to) && writer in WritersFor(from, to))
  }

  /** How far a status is from an end of the matrix. */
  function Height(s: SendStatus): nat {
    match s
    case Dispatching => 3
    case Reconciling => 2
    case Unknown => 1
    case Sent => 0
    case Failed => 0
    case Excluded => 0
  }

  predicate IsStatusPath(path: seq<SendStatus>) {
    forall i :: 0 <= i < |path| - 1 ==> IsAllowedTransition(path[i], path[i + 1])
  }

  /** Every path through the matrix climbs down: no status repeats, and at most three changes happen. */
  lemma {:induction false} PathsDescend(path: seq<SendStatus>, i: nat, j: nat)
    requires IsStatusPath(path)
    requires i < j < |path|
    ensures path[i] != path[j]
    ensures Height(path[j]) + (j - i) <= Height(path[i]) <= 3
    ensures path[j] == Failed ==> j == i + 1 && path[i] == Dispatching
  {
    assert IsAllowedTransition(path[j - 1], path[j]);
    if i + 1 < j {
      PathsDescend(path, i, j - 1);
    }
  }
}
