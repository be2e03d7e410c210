/**
 * Batched removal of duplicate rows: each batch deletes up to a page of rows that are not the first of their
 * group, whichever the LIMIT happens to pick.
 */
module DuplicateRepair {
  import opened Options

  /**
   * `key` is the group a row falls in; a send event without a send has none and is exempt. The member table
   * has no workspace of its own: there all rows carry the same one. Ids stand for their rank in the id order.
   */
  datatype Row = Row(id: int, workspace: string, key: Option<string>, time: int)

  predicate SameGroup(a: Row, b: Row) {
    a.workspace == b.workspace && a.key.Some? && a.key == b.key
  }

  /** The order within a group: the time, then the id. */
  predicate Before(a: Row, b: Row) {
    a.time < b.time || (a.time == b.time && a.id < b.id)
  }

  predicate UniqueIds(rows: set<Row>) {
    forall a, b :: a in rows && b in rows && a.id == b.id ==> a == b
  }

  /** Row number above one within its group. */
  predicate Extra(rows: set<Row>, r: Row) {
    r in rows && exists q :: q in rows && SameGroup(q, r) && Before(q, r)
  }

  function Extras(rows: set<Row>, workspace: string): set<Row> {
    set r | r in rows && r.workspace == workspace && Extra(rows, r)
  }

  /** The row of a group that every other row of it comes after. */
  predicate First(rows: set<Row>, r: Row) {
    r in rows && forall q :: q in rows && SameGroup(q, r) ==> q == r || Before(r, q)
  }

  lemma SubsetSize(a: set<Row>, b: set<Row>)
    requires a <= b
    ensures |a| <= |b| && (a != b ==> |a| < |b|)
  {
    assert b == a + (b - a);
    if a != b {
      var x :| x in b - a;
      assert |b - a| > 0;
    }
  }

  /** Every row has a first row of its group at or before it. */
  lemma {:induction false} GroupHasFirst(rows: set<Row>, r: Row) returns (q: Row)
    requires UniqueIds(rows) && r in rows && r.key.Some?
    ensures q in rows && SameGroup(q, r) && !Extra(rows, q) && (q == r || Before(q, r))
    decreases |set x | x in rows && Before(x, r)|
  {
    if Extra(rows, r) {
      var p :| p in rows && SameGroup(p, r) && Before(p, r);
      var earlier, earliest := set x | x in rows && Before(x, r), set x | x in rows && Before(x, p);
      assert earliest <= earlier && p in earlier - earliest;
      SubsetSize(earliest, earlier);
      q := GroupHasFirst(rows, p);
    } else {
      q := r;
    }
  }

  lemma NotExtraIsFirst(rows: set<Row>, r: Row)
    requires UniqueIds(rows) && r in rows && r.key.Some?
    ensures !Extra(rows, r) <==> First(rows, r)
  {
    forall q | q in rows && SameGroup(q, r) ensures q == r || Before(q, r) || Before(r, q) {
    }
  }

  /** Deleting extras, in whatever selection, leaves every other row in its place: the first of a group is never one. */
  lemma ExtraSurvives(rows: set<Row>, victims: set<Row>, r: Row)
    requires UniqueIds(rows) && (forall v :: v in victims ==> Extra(rows, v)) && r in rows - victims
    ensures Extra(rows - victims, r) <==> Extra(rows, r)
  {
    if Extra(rows, r) && r.key.Some? {
      var q := GroupHasFirst(rows, r);
      assert q !in victims;
    }
  }

  lemma DeletingExtrasKeepsTheRest(rows: set<Row>, workspace: string, victims: set<Row>)
    requires UniqueIds(rows) && victims <= Extras(rows, workspace)
    ensures Extras(rows - victims, workspace) == Extras(rows, workspace) - victims
  {
    forall r | r in rows - victims ensures Extra(rows - victims, r) <==> Extra(rows, r) {
      ExtraSurvives(rows, victims, r);
    }
  }

  /** The rows once these workspaces have been resolved. */
  function Resolved(rows: set<Row>, workspaces: seq<string>): set<Row> {
    set r | r in rows && !(r.workspace in workspaces && Extra(rows, r))
  }

  lemma ResolvedStep(rows: set<Row>, workspaces: seq<string>, next: string)
    requires UniqueIds(rows)
    ensures var before := Resolved(rows, workspaces); before - Extras(before, next) == Resolved(rows, workspaces + [next])
  {
    var before := Resolved(rows, workspaces);
    assert before == rows - (rows - before);
    forall r | r in before ensures Extra(before, r) <==> Extra(rows, r) {
      ExtraSurvives(rows, rows - before, r);
    }
  }

  /** What is left to delete in a workspace once some have been resolved: all that was there, or nothing. */
  lemma ExtrasLeft(rows: set<Row>, workspaces: seq<string>, next: string)
    requires UniqueIds(rows)
    ensures Extras(Resolved(rows, workspaces), next) == if next in workspaces then {} else Extras(rows, next)
  {
    var before := Resolved(rows, workspaces);
    assert before == rows - (rows - before);
    forall r | r in before ensures Extra(before, r) <==> Extra(rows, r) {
      ExtraSurvives(rows, rows - before, r);
    }
  }

  // ---------- counting ----------

  function Group(rows: set<Row>, workspace: string, key: string): set<Row> {
    set r | r in rows && r.workspace == workspace && r.key == Some(key)
  }

  function KeysOf(rows: set<Row>, workspace: string): set<string> {
    set r | r in rows && r.workspace == workspace && r.key.Some? :: r.key.value
  }

  function ExtrasIn(rows: set<Row>, workspace: string, keys: set<string>): set<Row> {
    set r | r in Extras(rows, workspace) && r.key.Some? && r.key.value in keys
  }

  /** All of a group but one are extras. */
  lemma OneSurvives(rows: set<Row>, workspace: string, key: string)
    requires UniqueIds(rows) && Group(rows, workspace, key) != {}
    ensures |ExtrasIn(rows, workspace, {key})| == |Group(rows, workspace, key)| - 1
  {
    var group := Group(rows, workspace, key);
    var r :| r in group;
    var q := GroupHasFirst(rows, r);
    NotExtraIsFirst(rows, q);
    forall x | x in group - {q} ensures Extra(rows, x) {
      assert SameGroup(x, q);
    }
    assert ExtrasIn(rows, workspace, {key}) == group - {q};
  }

  function BigGroups(rows: set<Row>, workspace: string, keys: set<string>): set<string> {
    set k | k in keys && |Group(rows, workspace, k)| > 1
  }

  lemma CountOneMore(rows: set<Row>, workspace: string, counted: set<string>, key: string)
    requires UniqueIds(rows) && key in KeysOf(rows, workspace) && key !in counted
    ensures var size := |Group(rows, workspace, key)|;
            && size >= 1
            && |BigGroups(rows, workspace, counted + {key})| == |BigGroups(rows, workspace, counted)| + (if size > 1 then 1 else 0)
            && |ExtrasIn(rows, workspace, counted + {key})| == |ExtrasIn(rows, workspace, counted)| + (size - 1)
  {
    var size := |Group(rows, workspace, key)|;
    hide Group, Extras, KeysOf, UniqueIds;
    KeyHasRows(rows, workspace, key);
    OneSurvives(rows, workspace, key);
    var was := BigGroups(rows, workspace, counted);
    assert BigGroups(rows, workspace, counted + {key}) == if size > 1 then was + {key} else was;
    var before, more := ExtrasIn(rows, workspace, counted), ExtrasIn(rows, workspace, {key});
    assert ExtrasIn(rows, workspace, counted + {key}) == before + more && before !! more;
  }

  lemma AllKeysCounted(rows: set<Row>, workspace: string)
    ensures ExtrasIn(rows, workspace, KeysOf(rows, workspace)) == Extras(rows, workspace)
  {
  }

  /** The read-only report: how many groups have more than one row, and how many rows are to go. */
  method CountTotals(rows: set<Row>, workspace: string) returns (groups: nat, rowsToResolve: nat)
    requires UniqueIds(rows)
    ensures groups == |BigGroups(rows, workspace, KeysOf(rows, workspace))|
    ensures rowsToResolve == |Extras(rows, workspace)|
  {
    hide BigGroups, ExtrasIn, Extras, Group, KeysOf, UniqueIds;
    groups, rowsToResolve := 0, 0;
    var todo := KeysOf(rows, workspace);
    ghost var counted := {};
    NothingCounted(rows, workspace);
    while todo != {}
      invariant todo + counted == KeysOf(rows, workspace) && todo !! counted
      invariant groups == |BigGroups(rows, workspace, counted)|
      invariant rowsToResolve == |ExtrasIn(rows, workspace, counted)|
      decreases |todo|
    {
      var key :| key in todo;
      CountOneMore(rows, workspace, counted, key);
      var size := |Group(rows, workspace, key)|;
      if size > 1 {
        groups := groups + 1;
        rowsToResolve := rowsToResolve + (size - 1);
      }
      todo, counted := todo - {key}, counted + {key};
    }
    assert counted == KeysOf(rows, workspace);
    AllKeysCounted(rows, workspace);
  }

  lemma NothingCounted(rows: set<Row>, workspace: string)
    ensures BigGroups(rows, workspace, {}) == {} && ExtrasIn(rows, workspace, {}) == {}
  {
  }

  lemma KeyHasRows(rows: set<Row>, workspace: string, key: string)
    requires key in KeysOf(rows, workspace)
    ensures Group(rows, workspace, key) != {}
  {
    var r :| r in rows && r.workspace == workspace && r.key.Some? && r.key.value == key;
    assert r in Group(rows, workspace, key);
  }

  // ---------- the deletion loop ----------

  function Min(a: nat, b: nat): nat {
    if a < b then a else b
  }

  function CeilDiv(total: nat, pageSize: nat): nat
    requires pageSize > 0
  {
    (total + pageSize - 1) / pageSize
  }

  lemma {:induction false} SomeSubset<T>(s: set<T>, n: nat) returns (sub: set<T>)
    requires n <= |s|
    ensures sub <= s && |sub| == n
  {
    if n == |s| {
      sub := s;
    } else {
      var x :| x in s;
      sub := SomeSubset(s - {x}, n);
    }
  }

  /** After `batches` pages `done` rows are dealt with: every page was full, but perhaps the last. */
  predicate Paged(total: nat, done: nat, batches: nat, pageSize: nat) {
    done <= total && done <= batches * pageSize < done + pageSize && (done < total ==> done == batches * pageSize)
  }

  lemma PageStep(total: nat, done: nat, batches: nat, pageSize: nat, taken: nat)
    requires pageSize > 0 && Paged(total, done, batches, pageSize) && done < total && taken == Min(pageSize, total - done)
    ensures Paged(total, done + taken, batches + 1, pageSize)
  {
    assert (batches + 1) * pageSize == batches * pageSize + pageSize;
  }

  lemma PagesAreCeil(total: nat, batches: nat, pageSize: nat)
    requires pageSize > 0 && Paged(total, total, batches, pageSize)
    ensures batches == CeilDiv(total, pageSize)
  {
    var q, r := (total + pageSize - 1) / pageSize, (total + pageSize - 1) % pageSize;
    assert total + pageSize - 1 == q * pageSize + r;
    assert batches < q ==> (batches + 1) * pageSize <= q * pageSize;
    assert batches > q ==> (q + 1) * pageSize <= batches * pageSize;
  }

  lemma NoPages(total: nat, pageSize: nat)
    requires pageSize > 0
    ensures Paged(total, 0, 0, pageSize)
  {
  }

  lemma MoreGone(all: set<Row>, gone: set<Row>, victims: set<Row>)
    requires gone <= all && victims <= all - gone && |all - gone| == |all| - |gone|
    ensures |gone + victims| == |gone| + |victims| && |all - (gone + victims)| == |all| - |gone + victims|
    ensures all - gone - victims == all - (gone + victims)
  {
    assert all == (all - (gone + victims)) + (gone + victims);
  }

  lemma IdsStayUnique(rows: set<Row>, victims: set<Row>)
    requires UniqueIds(rows)
    ensures UniqueIds(rows - victims)
  {
  }

  datatype WorkspaceResult = WorkspaceResult(workspace: string, deletedCount: nat, batches: nat)

  /** What a resolution reports: each workspace that had extras, at its first mention, with all its extras in full pages. */
  function Report(rows: set<Row>, workspaces: seq<string>, pageSize: nat): seq<WorkspaceResult>
    requires pageSize > 0
  {
    if workspaces == [] then []
    else
      var n := |workspaces| - 1;
      var earlier, next := workspaces[..n], workspaces[n];
      var extras := |Extras(rows, next)|;
      Report(rows, earlier, pageSize) +
      if next in earlier || extras == 0 then [] else [WorkspaceResult(next, extras, CeilDiv(extras, pageSize))]
  }

  function SumDeleted(report: seq<WorkspaceResult>): nat {
    if report == [] then 0 else SumDeleted(report[..|report| - 1]) + report[|report| - 1].deletedCount
  }

  function SumBatches(report: seq<WorkspaceResult>): nat {
    if report == [] then 0 else SumBatches(report[..|report| - 1]) + report[|report| - 1].batches
  }

  lemma ReportStep(rows: set<Row>, workspaces: seq<string>, next: string, pageSize: nat)
    requires pageSize > 0
    ensures Report(rows, workspaces + [next], pageSize)
         == Report(rows, workspaces, pageSize) +
            (if next in workspaces || Extras(rows, next) == {} then []
             else [WorkspaceResult(next, |Extras(rows, next)|, CeilDiv(|Extras(rows, next)|, pageSize))])
  {
    hide Extras, CeilDiv;
    assert (workspaces + [next])[..|workspaces|] == workspaces;
  }

  lemma SumsStep(report: seq<WorkspaceResult>, r: WorkspaceResult)
    ensures SumDeleted(report + [r]) == SumDeleted(report) + r.deletedCount
    ensures SumBatches(report + [r]) == SumBatches(report) + r.batches
  {
    assert (report + [r])[..|report|] == report;
  }

  lemma NoBatches(pageSize: nat)
    requires pageSize > 0
    ensures CeilDiv(0, pageSize) == 0
  {
  }

  class RowTable {
    var rows: set<Row>

    constructor (rows: set<Row>)
      ensures this.rows == rows
    {
      this.rows := rows;
    }

    /** The database picks the victims: any page of the extras. */
    method DeletePage(workspace: string, pageSize: nat) returns (deleted: nat)
      modifies this
      ensures deleted == Min(pageSize, |Extras(old(rows), workspace)|)
      ensures exists victims :: victims <= Extras(old(rows), workspace) && |victims| == deleted && rows == old(rows) - victims
    {
      ghost var witness' := SomeSubset(Extras(rows, workspace), Min(pageSize, |Extras(rows, workspace)|));
      var victims :| victims <= Extras(rows, workspace) && |victims| == Min(pageSize, |Extras(rows, workspace)|);
      rows := rows - victims;
      deleted := |victims|;
    }

    /** Whatever the pages, the loop ends with just the first row of each group; the totals are those counted before. */
    method ResolveDuplicatesForWorkspace(workspace: string, pageSize: nat) returns (deletedCount: nat, batches: nat)
      requires pageSize > 0 && UniqueIds(rows)
      modifies this
      ensures rows == old(rows) - Extras(old(rows), workspace)
      ensures deletedCount == |Extras(old(rows), workspace)| && batches == CeilDiv(deletedCount, pageSize)
    {
      hide Extras, Paged, UniqueIds;
      deletedCount, batches := 0, 0;
      ghost var all := Extras(rows, workspace);
      ghost var gone: set<Row> := {};
      assert Paged(|all|, 0, 0, pageSize) by { NoPages(|all|, pageSize); }
      assert all - gone == all && rows - gone == rows;
      while true
        invariant gone <= all && rows == old(rows) - gone && UniqueIds(rows)
        invariant Extras(rows, workspace) == all - gone
        invariant deletedCount == |gone| && |all - gone| == |all| - |gone| && Paged(|all|, |gone|, batches, pageSize)
        decreases |all - gone|
      {
        ghost var before := rows;
        var batchDeleted := DeletePage(workspace, pageSize);
        ghost var victims :| victims <= Extras(before, workspace) && |victims| == batchDeleted && rows == before - victims;
        DeletingExtrasKeepsTheRest(before, workspace, victims);
        if batchDeleted == 0 {
          break;
        }
        PageStep(|all|, |gone|, batches, pageSize, batchDeleted);
        MoreGone(all, gone, victims);
        IdsStayUnique(before, victims);
        assert rows == old(rows) - (gone + victims);
        gone := gone + victims;
        deletedCount := deletedCount + batchDeleted;
        batches := batches + 1;
      }
      assert gone == all;
      PagesAreCeil(|all|, batches, pageSize);
    }

    /** One workspace after the other; only those with something to delete are reported. */
    method ResolveAllDuplicates(workspaces: seq<string>, pageSize: nat)
      returns (perWorkspace: seq<WorkspaceResult>, totalDeleted: nat, totalBatches: nat)
      requires pageSize > 0 && UniqueIds(rows)
      modifies this
      ensures rows == Resolved(old(rows), workspaces)
      ensures perWorkspace == Report(old(rows), workspaces, pageSize)
      ensures totalDeleted == SumDeleted(perWorkspace) == |old(rows)| - |rows|
      ensures totalBatches == SumBatches(perWorkspace)
    {
      hide Extras, Resolved, UniqueIds, CeilDiv, Report, SumDeleted, SumBatches;
      perWorkspace, totalDeleted, totalBatches := [], 0, 0;
      var i := 0;
      ghost var start := rows;
      NothingResolved(start, pageSize);
      while i < |workspaces|
        invariant 0 <= i <= |workspaces| && UniqueIds(rows)
        invariant rows == Resolved(start, workspaces[..i])
        invariant perWorkspace == Report(start, workspaces[..i], pageSize)
        invariant totalDeleted == SumDeleted(perWorkspace) == |start| - |rows|
        invariant totalBatches == SumBatches(perWorkspace)
      {
        var deleted, batches := ResolveDuplicatesForWorkspace(workspaces[i], pageSize);
        assert workspaces[..i + 1] == workspaces[..i] + [workspaces[i]];
        OneMoreResolved(start, workspaces[..i], workspaces[i], pageSize);
        if deleted > 0 {
          perWorkspace := perWorkspace + [WorkspaceResult(workspaces[i], deleted, batches)];
        }
        totalDeleted := totalDeleted + deleted;
        totalBatches := totalBatches + batches;
        i := i + 1;
      }
      assert workspaces[..i] == workspaces;
    }
  }

  lemma NothingResolved(rows: set<Row>, pageSize: nat)
    requires pageSize > 0
    ensures Resolved(rows, []) == rows
    ensures Report(rows, [], pageSize) == [] && SumDeleted([]) == SumBatches([]) == 0
  {
  }

  /** The next workspace's run: the rows it leaves, and what it adds to the report. */
  lemma OneMoreResolved(rows: set<Row>, workspaces: seq<string>, next: string, pageSize: nat)
    requires pageSize > 0 && UniqueIds(rows)
    ensures var before := Resolved(rows, workspaces);
            var extras := Extras(before, next);
            && before - extras == Resolved(rows, workspaces + [next])
            && |before - extras| == |before| - |extras| && (UniqueIds(before) ==> UniqueIds(before - extras))
    ensures var extras := |Extras(Resolved(rows, workspaces), next)|;
            var report, longer := Report(rows, workspaces, pageSize), Report(rows, workspaces + [next], pageSize);
            && longer == (if extras > 0 then report + [WorkspaceResult(next, extras, CeilDiv(extras, pageSize))] else report)
            && SumDeleted(longer) == SumDeleted(report) + extras && SumBatches(longer) == SumBatches(report) + CeilDiv(extras, pageSize)
  {
    hide Extras, Resolved, UniqueIds, CeilDiv, Report, SumDeleted, SumBatches;
    var before := Resolved(rows, workspaces);
    ResolvedStep(rows, workspaces, next);
    ExtrasLeft(rows, workspaces, next);
    RowsLost(before, next);
    if UniqueIds(before) {
      IdsStayUnique(before, Extras(before, next));
    }
    ReportStep(rows, workspaces, next, pageSize);
    NoBatches(pageSize);
    var extras := |Extras(before, next)|;
    SumsStep(Report(rows, workspaces, pageSize), WorkspaceResult(next, extras, CeilDiv(extras, pageSize)));
  }

  lemma RowsLost(rows: set<Row>, workspace: string)
    ensures |rows - Extras(rows, workspace)| == |rows| - |Extras(rows, workspace)|
  {
    assert rows == (rows - Extras(rows, workspace)) + Extras(rows, workspace);
  }

  /** What the loop leaves: the first row of every group, and every row without a key. */
  lemma SurvivorsAreTheFirst(rows: set<Row>, workspace: string, r: Row)
    requires UniqueIds(rows) && r in rows && r.workspace == workspace
    ensures r in rows - Extras(rows, workspace) <==> r.key.None? || First(rows, r)
  {
    if r.key.Some? {
      NotExtraIsFirst(rows, r);
    }
  }

  /**
   * Said of the rows themselves: a row stays if it has no key, or if every other row of its workspace and key came
   * later, or at the same time with a higher id; and each workspace and key keeps one.
   */
  lemma TheOldestStays(rows: set<Row>, workspace: string, r: Row)
    requires UniqueIds(rows) && r in rows && r.workspace == workspace
    ensures r in rows - Extras(rows, workspace) <==>
              r.key == None || forall q :: q in rows && q.workspace == workspace && q.key == r.key && q != r ==>
                                 r.time < q.time || (r.time == q.time && r.id < q.id)
    ensures r.key.Some? ==> exists q :: q in rows - Extras(rows, workspace) && q.workspace == workspace && q.key == r.key
  {
    SurvivorsAreTheFirst(rows, workspace, r);
    if r.key.Some? {
      var q := GroupHasFirst(rows, r);
      SurvivorsAreTheFirst(rows, workspace, q);
    }
  }

  /** So a second run finds nothing to delete. */
  lemma ResolvedHasNoExtras(rows: set<Row>, workspace: string)
    requires UniqueIds(rows)
    ensures Extras(rows - Extras(rows, workspace), workspace) == {}
  {
    DeletingExtrasKeepsTheRest(rows, workspace, Extras(rows, workspace));
  }

  // ---------- the report before, the report after ----------

  function Announced(rows: set<Row>, workspaces: seq<string>): nat {
    if workspaces == [] then 0
    else Announced(rows, workspaces[..|workspaces| - 1]) + |Extras(rows, workspaces[|workspaces| - 1])|
  }

  function AnnouncedGroups(rows: set<Row>, workspaces: seq<string>): nat {
    if workspaces == [] then 0
    else
      var last := workspaces[|workspaces| - 1];
      AnnouncedGroups(rows, workspaces[..|workspaces| - 1]) + |BigGroups(rows, last, KeysOf(rows, last))|
  }

  /** The read-only report over all workspaces. */
  method CountAllDuplicates(rows: set<Row>, workspaces: seq<string>) returns (totalGroups: nat, totalRowsToResolve: nat)
    requires UniqueIds(rows)
    ensures totalGroups == AnnouncedGroups(rows, workspaces) && totalRowsToResolve == Announced(rows, workspaces)
    ensures totalGroups <= totalRowsToResolve && (totalGroups == 0 <==> totalRowsToResolve == 0)
  {
    hide Extras, UniqueIds, BigGroups, KeysOf;
    totalGroups, totalRowsToResolve := 0, 0;
    for i := 0 to |workspaces|
      invariant totalGroups == AnnouncedGroups(rows, workspaces[..i]) && totalRowsToResolve == Announced(rows, workspaces[..i])
      invariant totalGroups <= totalRowsToResolve && (totalGroups == 0 <==> totalRowsToResolve == 0)
    {
      var groups, rowsToResolve := CountTotals(rows, workspaces[i]);
      GroupsIffRows(rows, workspaces[i]);
      assert workspaces[..i + 1][..i] == workspaces[..i];
      totalGroups := totalGroups + groups;
      totalRowsToResolve := totalRowsToResolve + rowsToResolve;
    }
    assert workspaces[..|workspaces|] == workspaces;
  }

  /** There is a group with more than one row exactly when there is a row to delete, and never more groups than such rows. */
  lemma GroupsIffRows(rows: set<Row>, workspace: string)
    requires UniqueIds(rows)
    ensures BigGroups(rows, workspace, KeysOf(rows, workspace)) == {} <==> Extras(rows, workspace) == {}
    ensures |BigGroups(rows, workspace, KeysOf(rows, workspace))| <= |Extras(rows, workspace)|
  {
    hide UniqueIds;
    if r :| r in Extras(rows, workspace) {
      var q :| q in rows && SameGroup(q, r) && Before(q, r);
      var group := Group(rows, workspace, r.key.value);
      SubsetSize({q, r}, group);
      assert r.key.value in BigGroups(rows, workspace, KeysOf(rows, workspace));
    }
    if key :| key in BigGroups(rows, workspace, KeysOf(rows, workspace)) {
      OneSurvives(rows, workspace, key);
      assert ExtrasIn(rows, workspace, {key}) != {};
    }
    GroupsWithinRows(rows, workspace, KeysOf(rows, workspace));
    AllKeysCounted(rows, workspace);
  }

  lemma {:induction false} GroupsWithinRows(rows: set<Row>, workspace: string, keys: set<string>)
    requires UniqueIds(rows) && keys <= KeysOf(rows, workspace)
    ensures |BigGroups(rows, workspace, keys)| <= |ExtrasIn(rows, workspace, keys)|
  {
    hide UniqueIds, KeysOf, BigGroups, ExtrasIn, Group;
    if keys == {} {
      NothingCounted(rows, workspace);
    } else {
      var key :| key in keys;
      GroupsWithinRows(rows, workspace, keys - {key});
      CountOneMore(rows, workspace, keys - {key}, key);
      assert keys - {key} + {key} == keys;
    }
  }

  predicate Distinct(workspaces: seq<string>) {
    forall i, j :: 0 <= i < j < |workspaces| ==> workspaces[i] != workspaces[j]
  }

  /** A resolution deletes what the read-only report announced, whatever the page size. */
  lemma {:induction false} AnnouncedIsDeleted(rows: set<Row>, workspaces: seq<string>, pageSize: nat)
    requires Distinct(workspaces) && pageSize > 0
    ensures SumDeleted(Report(rows, workspaces, pageSize)) == Announced(rows, workspaces)
  {
    hide Extras, CeilDiv;
    if workspaces != [] {
      var n := |workspaces| - 1;
      var earlier, next := workspaces[..n], workspaces[n];
      AnnouncedIsDeleted(rows, earlier, pageSize);
      ReportStep(rows, earlier, next, pageSize);
      assert earlier + [next] == workspaces && next !in earlier;
      SumsStep(Report(rows, earlier, pageSize), WorkspaceResult(next, |Extras(rows, next)|, CeilDiv(|Extras(rows, next)|, pageSize)));
      assert Extras(rows, next) == {} ==> Report(rows, workspaces, pageSize) == Report(rows, earlier, pageSize);
    }
  }
}
