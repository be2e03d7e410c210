/** The suppression backfill: hashing plaintext rows page by page while leaving collisions for an operator. */
module SuppressionRehash {
  import opened Options
  import opened DuplicateRepair

  type Id = string

  datatype Suppression = Suppression(email: Option<string>, emailHash: Option<string>)

  /** One workspace's rows by id. */
  type Table = map<Id, Suppression>

  predicate Pending(table: Table, id: Id) {
    id in table && table[id].emailHash.None? && table[id].email.Some?
  }

  function PendingIds(table: Table): set<Id> {
    set id | id in table && Pending(table, id)
  }

  predicate HeldByAnother(table: Table, id: Id, hash: string) {
    exists other :: other in table && other != id && table[other].emailHash == Some(hash)
  }

  predicate UniqueHashes(table: Table) {
    forall a, b :: a in table && b in table && a != b && table[a].emailHash.Some? ==> table[a].emailHash != table[b].emailHash
  }

  /** Every row still pending collides with a row that holds its hash. */
  ghost predicate Settled(table: Table, hashOf: string -> string) {
    forall id :: Pending(table, id) ==> HeldByAnother(table, id, hashOf(table[id].email.value))
  }

  /** Rows come out as they were, save that some pending ones gained the hash of their own email. */
  predicate Progress(before: Table, after: Table, hashOf: string -> string) {
    && after.Keys == before.Keys
    && forall id :: id in before ==>
         after[id] == before[id] ||
         (Pending(before, id) && after[id] == before[id].(emailHash := Some(hashOf(before[id].email.value))))
  }

  /** Hashing a row that nobody collides with keeps the hashes unique and the collisions standing. */
  lemma HashOne(table: Table, id: Id, hash: string)
    requires UniqueHashes(table) && Pending(table, id) && !HeldByAnother(table, id, hash)
    ensures var after := table[id := table[id].(emailHash := Some(hash))];
            && UniqueHashes(after)
            && PendingIds(after) == PendingIds(table) - {id}
            && forall x, h :: HeldByAnother(table, x, h) ==> HeldByAnother(after, x, h)
  {
    var after := table[id := table[id].(emailHash := Some(hash))];
    forall x, h | HeldByAnother(table, x, h) ensures HeldByAnother(after, x, h) {
      var other :| other in table && other != x && table[other].emailHash == Some(h);
      assert after[other] == table[other];
    }
  }

  /** What every row keeps: `skipped` are pending rows that collide, and nothing is hashed that was settled before. */
  ghost predicate Inv(start: Table, table: Table, hashOf: string -> string, skipped: set<Id>, hashed: nat) {
    && UniqueHashes(table) && Progress(start, table, hashOf)
    && skipped <= PendingIds(table)
    && (forall id :: id in skipped ==> HeldByAnother(table, id, hashOf(table[id].email.value)))
    && hashed + |PendingIds(table)| == |PendingIds(start)|
    && (Settled(start, hashOf) ==> table == start)
  }

  lemma InvStarts(table: Table, hashOf: string -> string)
    requires UniqueHashes(table)
    ensures Inv(table, table, hashOf, {}, 0)
  {
  }

  lemma SkipKeepsInv(start: Table, table: Table, hashOf: string -> string, skipped: set<Id>, hashed: nat, id: Id)
    requires Inv(start, table, hashOf, skipped, hashed) && Pending(table, id)
    requires HeldByAnother(table, id, hashOf(table[id].email.value))
    ensures Inv(start, table, hashOf, skipped + {id}, hashed)
  {
    hide UniqueHashes, Progress, Settled, HeldByAnother;
  }

  lemma HashKeepsInv(start: Table, table: Table, hashOf: string -> string, skipped: set<Id>, hashed: nat, id: Id)
    requires Inv(start, table, hashOf, skipped, hashed) && Pending(table, id) && id !in skipped
    requires !HeldByAnother(table, id, hashOf(table[id].email.value))
    ensures var after := table[id := table[id].(emailHash := Some(hashOf(table[id].email.value)))];
            && Inv(start, after, hashOf, skipped, hashed + 1)
            && PendingIds(after) == PendingIds(table) - {id}
  {
    var hash := hashOf(table[id].email.value);
    var after := table[id := table[id].(emailHash := Some(hash))];
    HashOne(table, id, hash);
    assert !Settled(start, hashOf);
    hide UniqueHashes, HeldByAnother, Settled;
    forall x | x in skipped ensures HeldByAnother(after, x, hashOf(after[x].email.value)) {
      assert HeldByAnother(table, x, hashOf(table[x].email.value));
    }
    assert id in PendingIds(table) && |PendingIds(table) - {id}| == |PendingIds(table)| - 1;
  }

  /** With every pending row skipped, the table is settled. */
  lemma InvEnds(start: Table, table: Table, hashOf: string -> string, skipped: set<Id>, hashed: nat)
    requires Inv(start, table, hashOf, skipped, hashed) && skipped == PendingIds(table)
    ensures UniqueHashes(table) && Progress(start, table, hashOf) && Settled(table, hashOf)
    ensures hashed + |skipped| == |PendingIds(start)| && (Settled(start, hashOf) ==> table == start && hashed == 0)
  {
    hide UniqueHashes, Progress, HeldByAnother;
    forall id | Pending(table, id) ensures HeldByAnother(table, id, hashOf(table[id].email.value)) {
      assert id in skipped;
    }
  }

  lemma EligibleCount(all: set<Id>, skipped: set<Id>)
    requires skipped <= all
    ensures |all - skipped| == |all| - |skipped|
  {
    assert all == (all - skipped) + skipped;
  }

  lemma SkippedArePending(start: Table, table: Table, hashOf: string -> string, skipped: set<Id>, hashed: nat)
    requires Inv(start, table, hashOf, skipped, hashed)
    ensures skipped <= PendingIds(table) && hashed + |PendingIds(table)| == |PendingIds(start)|
  {
  }

  lemma PendingHasEmail(table: Table, id: Id)
    requires id in PendingIds(table)
    ensures Pending(table, id) && id in table && table[id].email.Some?
  {
  }

  lemma UnionSize(a: set<Id>, b: set<Id>)
    requires a !! b
    ensures |a + b| == |a| + |b|
  {
  }

  lemma NoneEligible(all: set<Id>, skipped: set<Id>)
    requires skipped <= all && |all| <= |skipped|
    ensures skipped == all
  {
    EligibleCount(all, skipped);
    assert all - skipped == {};
  }

  class Rehasher {
    var table: Table
    // Normalised and keyed with the workspace's own key.
    const hashOf: string -> string

    constructor (table: Table, hashOf: string -> string)
      ensures this.table == table && this.hashOf == hashOf
    {
      this.table := table;
      this.hashOf := hashOf;
    }

    /** Whatever rows each page holds: hashes where nobody collides, and skips, for good, where somebody does. */
    method RehashSuppressionsForWorkspace(pageSize: nat) returns (hashed: nat, skippedCollisions: nat, batches: nat)
      requires pageSize > 0 && UniqueHashes(table)
      modifies this
      ensures UniqueHashes(table) && Progress(old(table), table, hashOf) && Settled(table, hashOf)
      ensures hashed + skippedCollisions == |PendingIds(old(table))| && skippedCollisions == |PendingIds(table)|
      ensures batches == CeilDiv(|PendingIds(old(table))|, pageSize)
      ensures Settled(old(table), hashOf) ==> table == old(table) && hashed == 0
    {
      hashed, skippedCollisions, batches := 0, 0, 0;
      var permanentlySkippedIds: set<Id> := {};
      ghost var start := table;
      ghost var total := |PendingIds(start)|;
      hide Inv, Paged, Settled, UniqueHashes, Progress, PendingIds, CeilDiv;
      InvStarts(table, hashOf);
      NoPages(total, pageSize);
      ghost var done := 0;
      while true
        invariant Inv(start, table, hashOf, permanentlySkippedIds, hashed) && skippedCollisions == |permanentlySkippedIds|
        invariant done == hashed + skippedCollisions && Paged(total, done, batches, pageSize)
        decreases total - done
      {
        var batchHashed, batchNewSkips, skips := RehashBatch(start, permanentlySkippedIds, hashed, pageSize);
        permanentlySkippedIds := permanentlySkippedIds + skips;
        hashed := hashed + batchHashed;
        skippedCollisions := skippedCollisions + batchNewSkips;
        if batchHashed + batchNewSkips == 0 {
          break;
        }
        PageStep(total, done, batches, pageSize, batchHashed + batchNewSkips);
        done := done + batchHashed + batchNewSkips;
        batches := batches + 1;
      }
      SkippedArePending(start, table, hashOf, permanentlySkippedIds, hashed);
      NoneEligible(PendingIds(table), permanentlySkippedIds);
      InvEnds(start, table, hashOf, permanentlySkippedIds, hashed);
      PagesAreCeil(total, batches, pageSize);
    }

    /** One transaction: a page of the rows neither hashed nor skipped. */
    method RehashBatch(ghost start: Table, skipped: set<Id>, ghost hashedBefore: nat, pageSize: nat)
      returns (batchHashed: nat, batchNewSkips: nat, skips: set<Id>)
      requires Inv(start, table, hashOf, skipped, hashedBefore)
      modifies this
      ensures Inv(start, table, hashOf, skipped + skips, hashedBefore + batchHashed)
      ensures |skipped + skips| == |skipped| + batchNewSkips
      ensures hashedBefore + |skipped| <= |PendingIds(start)|
      ensures batchHashed + batchNewSkips == Min(pageSize, |PendingIds(start)| - (hashedBefore + |skipped|))
    {
      hide Inv, PendingIds;
      SkippedArePending(start, table, hashOf, skipped, hashedBefore);
      EligibleCount(PendingIds(table), skipped);
      var page := PickPage(PendingIds(table) - skipped, pageSize);
      batchHashed, batchNewSkips, skips := RehashPage(start, page, skipped, hashedBefore);
      UnionSize(skipped, skips);
    }

    /** The database picks the page. */
    method PickPage(eligible: set<Id>, pageSize: nat) returns (page: set<Id>)
      ensures page <= eligible && |page| == Min(pageSize, |eligible|)
    {
      ghost var some := SomeSubset(eligible, Min(pageSize, |eligible|));
      page :| page <= eligible && |page| == Min(pageSize, |eligible|);
    }

    /** Hashes the row unless another holds its hash. */
    method RehashRow(ghost start: Table, id: Id, ghost skipped: set<Id>, ghost hashed: nat) returns (ok: bool)
      requires Inv(start, table, hashOf, skipped, hashed) && id in PendingIds(table) && id !in skipped
      modifies this
      ensures ok ==> Inv(start, table, hashOf, skipped, hashed + 1) && PendingIds(table) == PendingIds(old(table)) - {id}
      ensures !ok ==> Inv(start, table, hashOf, skipped + {id}, hashed) && table == old(table)
    {
      hide Inv, HeldByAnother;
      PendingHasEmail(table, id);
      var hash := hashOf(table[id].email.value);
      if HeldByAnother(table, id, hash) {
        SkipKeepsInv(start, table, hashOf, skipped, hashed, id);
        return false;
      }
      HashKeepsInv(start, table, hashOf, skipped, hashed, id);
      table := table[id := table[id].(emailHash := Some(hash))];
      return true;
    }

    /** One page, row by row, in any order. */
    method RehashPage(ghost start: Table, page: set<Id>, ghost skipped: set<Id>, ghost hashedBefore: nat)
      returns (batchHashed: nat, batchNewSkips: nat, skips: set<Id>)
      requires Inv(start, table, hashOf, skipped, hashedBefore) && page <= PendingIds(table) - skipped
      modifies this
      ensures Inv(start, table, hashOf, skipped + skips, hashedBefore + batchHashed)
      ensures skips !! skipped && batchNewSkips == |skips| && batchHashed + batchNewSkips == |page|
    {
      hide Inv, PendingIds;
      batchHashed, batchNewSkips, skips := 0, 0, {};
      var todo := page;
      ghost var allSkipped := skipped;
      while todo != {}
        invariant todo <= page && skips <= page - todo && skips !! skipped && batchNewSkips == |skips|
        invariant batchHashed + batchNewSkips + |todo| == |page|
        invariant allSkipped == skipped + skips && Inv(start, table, hashOf, allSkipped, hashedBefore + batchHashed)
        invariant todo <= PendingIds(table) && todo !! skipped
        decreases |todo|
      {
        var id :| id in todo;
        var ok := RehashRow(start, id, allSkipped, hashedBefore + batchHashed);
        todo := todo - {id};
        if ok {
          batchHashed := batchHashed + 1;
        } else {
          allSkipped := allSkipped + {id};
          skips := skips + {id};
          batchNewSkips := batchNewSkips + 1;
        }
      }
    }
  }

  /**
   * The same of the rows themselves: a row with an address and no hash ends with the hash of its own address, unless
   * another row has that hash; every other row, and every address, is as it was.
   */
  lemma WhatARunLeaves(before: Table, after: Table, hashOf: string -> string, id: Id)
    requires UniqueHashes(after) && Progress(before, after, hashOf) && Settled(after, hashOf) && id in before
    ensures id in after && after[id].email == before[id].email
    ensures before[id].emailHash.Some? || before[id].email == None ==> after[id] == before[id]
    ensures before[id].emailHash == None && before[id].email.Some? ==>
              var hash := hashOf(before[id].email.value);
              var taken := exists other :: other in after && other != id && after[other].emailHash == Some(hash);
              after[id].emailHash == if taken then None else Some(hash)
  {
    if Pending(before, id) {
      UnhashedIffHeldByAnother(before, after, hashOf, id);
      HashOrNothing(before, after, hashOf, id);
    }
  }

  lemma HashOrNothing(before: Table, after: Table, hashOf: string -> string, id: Id)
    requires UniqueHashes(after) && Progress(before, after, hashOf) && Pending(before, id)
    ensures after[id].emailHash == None || after[id].emailHash == Some(hashOf(before[id].email.value))
    ensures after[id].emailHash.Some? ==> !HeldByAnother(after, id, hashOf(before[id].email.value))
  {
  }

  /** After a run, a row is left unhashed exactly when another row holds its hash. */
  lemma UnhashedIffHeldByAnother(before: Table, after: Table, hashOf: string -> string, id: Id)
    requires UniqueHashes(after) && Progress(before, after, hashOf) && Settled(after, hashOf) && Pending(before, id)
    ensures after[id].emailHash.None? <==> HeldByAnother(after, id, hashOf(before[id].email.value))
  {
    if after[id].emailHash.None? {
      assert Pending(after, id);
    }
  }
}
