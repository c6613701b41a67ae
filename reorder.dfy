/** PUT handler of app/api/tasks/reorder.ts: for each index `i` of
    `orderedIds`, the caller's task with id `orderedIds[i]` gets position `i`
    (one `findOneAndUpdate({ _id, userId }, { position: i })` per index).
    Ids that are unknown or belong to someone else match nothing. The
    updates, which the handler starts together, are applied in index order. */
module Reorder {
  import opened Base
  import opened TaskModel
  import opened Tasks

  datatype PutResponse = OrderSaved | ReorderUnauthorized | InvalidPayload {
    function Status(): int {
      match this
      case OrderSaved => 200
      case ReorderUnauthorized => 401
      case InvalidPayload => 400
    }
  }

  /** The last index at which `x` occurs in `ids`. */
  function LastIndexOf(ids: seq<Id>, x: Id): (i: Option<nat>)
    ensures i.None? <==> x !in ids
    ensures i.Some? ==>
      i.value < |ids| && ids[i.value] == x &&
      forall j :: i.value < j < |ids| ==> ids[j] != x
  {
    if ids == [] then None
    else if ids[|ids| - 1] == x then Some(|ids| - 1)
    else
      assert ids == ids[..|ids| - 1] + [ids[|ids| - 1]];
      LastIndexOf(ids[..|ids| - 1], x)
  }

  /** A task after the whole reorder: a listed task of the caller has the
      index of the last write to it as position; any other task is as it was. */
  function Repositioned(t: Task, caller: Id, ids: seq<Id>): Task {
    if OwnedBy(t, caller) && t.id in ids then t.(position := LastIndexOf(ids, t.id).value) else t
  }

  /** The table after the whole reorder. */
  function ReorderedTable(tasks: seq<Task>, caller: Id, ids: seq<Id>): seq<Task> {
    seq(|tasks|, k requires 0 <= k < |tasks| => Repositioned(tasks[k], caller, ids))
  }

  /** One `findOneAndUpdate({ _id: id, userId }, { position })`. */
  function WritePosition(tasks: seq<Task>, caller: Id, id: Id, position: int): seq<Task> {
    seq(|tasks|, k requires 0 <= k < |tasks| =>
      if tasks[k].id == id && OwnedBy(tasks[k], caller) then tasks[k].(position := position) else tasks[k])
  }

  /** Performing the write for index `|ids|` after the writes for `ids`. */
  lemma {:induction false} WriteStep(tasks: seq<Task>, caller: Id, ids: seq<Id>, x: Id)
    ensures ReorderedTable(tasks, caller, ids + [x]) ==
            WritePosition(ReorderedTable(tasks, caller, ids), caller, x, |ids|)
  {
    var ext := ids + [x];
    assert ext[..|ids|] == ids;
    forall y | y != x
      ensures LastIndexOf(ext, y) == LastIndexOf(ids, y) && (y in ext <==> y in ids)
    {
    }
    assert LastIndexOf(ext, x) == Some(|ids|);
  }

  /** PUT /api/tasks/reorder. `orderedIds` is None when the body's field is
      not an array. */
  method Reorder(store: TaskStore, caller: Option<Id>, orderedIds: Option<seq<Id>>)
    returns (r: PutResponse)
    requires store.Valid()
    modifies store
    ensures store.Valid() && store.nextId == old(store.nextId)
    ensures caller.None? ==> r == ReorderUnauthorized && store.tasks == old(store.tasks)
    ensures caller.Some? && orderedIds.None? ==>
      r == InvalidPayload && store.tasks == old(store.tasks)
    ensures caller.Some? && orderedIds.Some? ==>
      r == OrderSaved &&
      store.tasks == ReorderedTable(old(store.tasks), caller.value, orderedIds.value)
  {
    if caller.None? {
      return ReorderUnauthorized;
    }
    if orderedIds.None? {
      return InvalidPayload;
    }
    var owner, ids := caller.value, orderedIds.value;
    ghost var before := store.tasks;
    assert ReorderedTable(before, owner, ids[..0]) == before;
    var i := 0;
    while i < |ids|
      invariant 0 <= i <= |ids|
      invariant store.tasks == ReorderedTable(before, owner, ids[..i])
      invariant store.nextId == old(store.nextId)
    {
      WriteStep(before, owner, ids[..i], ids[i]);
      assert ids[..i + 1] == ids[..i] + [ids[i]];
      store.tasks := WritePosition(store.tasks, owner, ids[i], i);
      i := i + 1;
    }
    assert ids[..i] == ids;
    ReorderKeepsIdsAndOwners(before, owner, ids);
    return OrderSaved;
  }

  /** Reordering writes nothing but positions, and only those of the
      caller's listed tasks. */
  lemma ReorderKeepsIdsAndOwners(tasks: seq<Task>, caller: Id, ids: seq<Id>)
    ensures var after := ReorderedTable(tasks, caller, ids);
      |after| == |tasks| &&
      forall k :: 0 <= k < |tasks| ==>
        after[k].id == tasks[k].id && after[k].userId == tasks[k].userId &&
        after[k].(position := tasks[k].position) == tasks[k] &&
        (!OwnedBy(tasks[k], caller) || tasks[k].id !in ids ==> after[k] == tasks[k])
    ensures UniqueIds(tasks) ==> UniqueIds(ReorderedTable(tasks, caller, ids))
  {
  }

  /** With duplicate-free ids, the caller's task listed at index `i` ends at
      position `i`. */
  lemma ListedTaskTakesItsIndex(tasks: seq<Task>, caller: Id, ids: seq<Id>, k: nat, i: nat)
    requires NoDup(ids)
    requires k < |tasks| && i < |ids|
    requires OwnedBy(tasks[k], caller) && tasks[k].id == ids[i]
    ensures ReorderedTable(tasks, caller, ids)[k].position == i
  {
  }

  /** The first stored task with the given id. */
  function FindById(tasks: seq<Task>, id: Id): (r: Option<Task>)
    ensures r.None? <==> forall t :: t in tasks ==> t.id != id
    ensures r.Some? ==> r.value in tasks && r.value.id == id
    ensures UniqueIds(tasks) ==> forall t :: t in tasks && t.id == id ==> r == Some(t)
  {
    if tasks == [] then None
    else if tasks[0].id == id then
      assert UniqueIds(tasks) ==> forall t :: t in tasks[1..] ==> t.id != id;
      Some(tasks[0])
    else
      assert forall t :: t in tasks <==> t == tasks[0] || t in tasks[1..];
      FindById(tasks[1..], id)
  }

  /** The stored tasks with the listed ids, in the order of the list. */
  function LookupAll(tasks: seq<Task>, ids: seq<Id>): (r: seq<Task>)
    requires forall x :: x in ids ==> FindById(tasks, x).Some?
    ensures |r| == |ids|
    ensures forall k :: 0 <= k < |ids| ==> r[k] == FindById(tasks, ids[k]).value
  {
    if ids == [] then [] else [FindById(tasks, ids[0]).value] + LookupAll(tasks, ids[1..])
  }

  lemma UniqueIdsNoDup(tasks: seq<Task>)
    requires UniqueIds(tasks)
    ensures NoDup(tasks)
  {
  }

  /** Two position-sorted arrangements of the same tasks coincide when no two
      of the tasks share a position. */
  lemma {:induction false} SortedArrangementUnique(a: seq<Task>, b: seq<Task>)
    requires SortedByPosition(a) && SortedByPosition(b)
    requires multiset(a) == multiset(b)
    requires forall i, j :: 0 <= i < j < |a| ==> a[i].position != a[j].position
    ensures a == b
  {
    if a == [] {
      assert |b| == |multiset(b)| == 0;
    } else {
      var first := a[0];
      assert first in multiset(b);
      var j :| 0 <= j < |b| && b[j] == first;
      assert b[0] in multiset(a);
      var i :| 0 <= i < |a| && a[i] == b[0];
      SortedFirstIsLeast(a, i);
      SortedFirstIsLeast(b, j);
      assert i == 0;
      PermutationTails(a, b);
      SortedArrangementUnique(a[1..], b[1..]);
    }
  }

  lemma SortedFirstIsLeast(s: seq<Task>, k: nat)
    requires SortedByPosition(s) && k < |s|
    ensures s[0].position <= s[k].position
  {
  }

  lemma PermutationTails(a: seq<Task>, b: seq<Task>)
    requires a != [] && b != [] && a[0] == b[0]
    requires multiset(a) == multiset(b)
    ensures multiset(a[1..]) == multiset(b[1..])
  {
    assert a == [a[0]] + a[1..] && b == [b[0]] + b[1..];
    assert multiset(a) == multiset{a[0]} + multiset(a[1..]);
    assert multiset(b) == multiset{a[0]} + multiset(b[1..]);
    assert multiset(a[1..]) == multiset(a) - multiset{a[0]};
  }

  /** Every listed id names a task of the caller in the reordered table. */
  lemma ListedIdsFound(tasks: seq<Task>, caller: Id, ids: seq<Id>)
    requires UniqueIds(tasks)
    requires forall x :: x in ids ==> exists t :: t in tasks && OwnedBy(t, caller) && t.id == x
    ensures var after := ReorderedTable(tasks, caller, ids);
      forall x :: x in ids ==> FindById(after, x).Some? && OwnedBy(FindById(after, x).value, caller)
  {
    var after := ReorderedTable(tasks, caller, ids);
    ReorderKeepsIdsAndOwners(tasks, caller, ids);
    forall x | x in ids
      ensures FindById(after, x).Some? && OwnedBy(FindById(after, x).value, caller)
    {
      var t :| t in tasks && OwnedBy(t, caller) && t.id == x;
      var m :| 0 <= m < |tasks| && tasks[m] == t;
      assert after[m] in after && after[m].id == x && OwnedBy(after[m], caller);
      assert FindById(after, x) == Some(after[m]);
    }
  }

  /** After the reorder, the task with the id listed at index `k` has
      position `k`. */
  lemma FoundTakesItsIndex(tasks: seq<Task>, caller: Id, ids: seq<Id>, k: nat)
    requires UniqueIds(tasks) && NoDup(ids) && k < |ids|
    requires exists t :: t in tasks && OwnedBy(t, caller) && t.id == ids[k]
    ensures var after := ReorderedTable(tasks, caller, ids);
      FindById(after, ids[k]).Some? && FindById(after, ids[k]).value.position == k
  {
    var after := ReorderedTable(tasks, caller, ids);
    ReorderKeepsIdsAndOwners(tasks, caller, ids);
    var t :| t in tasks && OwnedBy(t, caller) && t.id == ids[k];
    var m :| 0 <= m < |tasks| && tasks[m] == t;
    assert after[m] in after && after[m].id == ids[k];
    assert FindById(after, ids[k]) == Some(after[m]);
    ListedTaskTakesItsIndex(tasks, caller, ids, m, k);
  }

  /** Looking the listed ids up after the reorder gives, at each index, the
      task whose position is that index. */
  lemma LookupPositions(tasks: seq<Task>, caller: Id, ids: seq<Id>)
    requires UniqueIds(tasks) && NoDup(ids)
    requires forall x :: x in ids ==> exists t :: t in tasks && OwnedBy(t, caller) && t.id == x
    ensures var after := ReorderedTable(tasks, caller, ids);
      (forall x :: x in ids ==> FindById(after, x).Some?) &&
      var expected := LookupAll(after, ids);
      (forall k :: 0 <= k < |ids| ==> expected[k].position == k) &&
      NoDup(expected)
  {
    var after := ReorderedTable(tasks, caller, ids);
    ListedIdsFound(tasks, caller, ids);
    var expected := LookupAll(after, ids);
    forall k | 0 <= k < |ids| ensures expected[k].position == k {
      assert ids[k] in ids;
      FoundTakesItsIndex(tasks, caller, ids, k);
    }
    LookupNoDup(after, ids);
  }

  /** Distinct ids look up distinct tasks. */
  lemma LookupNoDup(tasks: seq<Task>, ids: seq<Id>)
    requires NoDup(ids)
    requires forall x :: x in ids ==> FindById(tasks, x).Some?
    ensures NoDup(LookupAll(tasks, ids))
  {
    var found := LookupAll(tasks, ids);
    forall i, j | 0 <= i < j < |found| ensures found[i] != found[j] {
      assert found[i].id == ids[i] && found[j].id == ids[j];
    }
  }

  /** The looked-up tasks are exactly the caller's tasks after the reorder. */
  lemma LookupIsOwnTasks(tasks: seq<Task>, caller: Id, ids: seq<Id>)
    requires UniqueIds(tasks)
    requires forall x :: x in ids <==> exists t :: t in tasks && OwnedBy(t, caller) && t.id == x
    ensures var after := ReorderedTable(tasks, caller, ids);
      (forall x :: x in ids ==> FindById(after, x).Some?) &&
      forall t :: t in LookupAll(after, ids) <==> t in after && OwnedBy(t, caller)
  {
    var after := ReorderedTable(tasks, caller, ids);
    ReorderKeepsIdsAndOwners(tasks, caller, ids);
    ListedIdsFound(tasks, caller, ids);
    var expected := LookupAll(after, ids);
    forall t | t in after && OwnedBy(t, caller) ensures t in expected {
      var m :| 0 <= m < |after| && after[m] == t;
      assert tasks[m] in tasks && OwnedBy(tasks[m], caller) && tasks[m].id == t.id;
      var k :| 0 <= k < |ids| && ids[k] == t.id;
      assert expected[k] == t;
    }
  }

  /** The looked-up tasks are, as a multiset, the caller's tasks after the
      reorder. */
  lemma LookupIsOwnMultiset(tasks: seq<Task>, caller: Id, ids: seq<Id>)
    requires UniqueIds(tasks) && NoDup(ids)
    requires forall x :: x in ids <==> exists t :: t in tasks && OwnedBy(t, caller) && t.id == x
    ensures var after := ReorderedTable(tasks, caller, ids);
      (forall x :: x in ids ==> FindById(after, x).Some?) &&
      multiset(LookupAll(after, ids)) == multiset(Filter(after, OwnerIs(caller)))
  {
    var after := ReorderedTable(tasks, caller, ids);
    ReorderKeepsIdsAndOwners(tasks, caller, ids);
    LookupPositions(tasks, caller, ids);
    LookupIsOwnTasks(tasks, caller, ids);
    var expected := LookupAll(after, ids);
    var own := Filter(after, OwnerIs(caller));
    UniqueIdsNoDup(after);
    assert forall t :: t in expected <==> t in own;
    SameElementsSameMultiset(expected, own);
  }

  /** Tasks whose positions are their indices are sorted by position, and
      no two share one. */
  lemma PositionsAreIndices(s: seq<Task>)
    requires forall k :: 0 <= k < |s| ==> s[k].position == k
    ensures SortedByPosition(s)
    ensures forall i, j :: 0 <= i < j < |s| ==> s[i].position != s[j].position
  {
  }

  /** The caller's listing after the reorder is the listed ids looked up in
      order. */
  lemma ListingIsLookup(tasks: seq<Task>, caller: Id, ids: seq<Id>,
                        titleMatches: (string, string) -> bool)
    requires UniqueIds(tasks) && NoDup(ids)
    requires forall x :: x in ids <==> exists t :: t in tasks && OwnedBy(t, caller) && t.id == x
    ensures var after := ReorderedTable(tasks, caller, ids);
      (forall x :: x in ids ==> FindById(after, x).Some?) &&
      Get(after, None, Some(caller), titleMatches) == TaskList(LookupAll(after, ids))
  {
    var after := ReorderedTable(tasks, caller, ids);
    LookupPositions(tasks, caller, ids);
    LookupIsOwnMultiset(tasks, caller, ids);
    var expected := LookupAll(after, ids);
    PositionsAreIndices(expected);
    var r := Get(after, None, Some(caller), titleMatches);
    SortedArrangementUnique(expected, r.tasks);
  }

  /** Reordering by a duplicate-free list of exactly the caller's task ids
      makes the caller's next listing come back in exactly that order. */
  lemma ReorderThenList(tasks: seq<Task>, caller: Id, ids: seq<Id>,
                        titleMatches: (string, string) -> bool)
    requires UniqueIds(tasks)
    requires NoDup(ids)
    requires forall x :: x in ids <==> exists t :: t in tasks && OwnedBy(t, caller) && t.id == x
    ensures var listed := Get(ReorderedTable(tasks, caller, ids), None, Some(caller), titleMatches);
      listed.TaskList? && |listed.tasks| == |ids| &&
      forall k :: 0 <= k < |ids| ==> listed.tasks[k].id == ids[k]
  {
    ListingIsLookup(tasks, caller, ids, titleMatches);
  }
}
