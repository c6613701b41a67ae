/** POST handler of app/api/migrate/route.ts: a pass over every stored task
    that turns an owner reference held as a plain string into an ObjectId,
    saves the task, and counts the tasks it saved. A cast or a save that
    fails is skipped without stopping the pass. The cast is `toObjectId` and
    the outcome of each save is `saves`: both are the database library's. */
module Migrate {
  import opened Base
  import opened TaskModel
  import opened Tasks

  /** The pass converts and saves `t`. */
  predicate Converts(t: Task, toObjectId: string -> Option<Id>, saves: Id -> bool) {
    t.userId.Legacy? && toObjectId(t.userId.text).Some? && saves(t.id)
  }

  /** A task as the pass leaves it in the database. */
  function Migrated(t: Task, toObjectId: string -> Option<Id>, saves: Id -> bool): (r: Task)
    ensures r.(userId := t.userId) == t
    ensures r != t <==> Converts(t, toObjectId, saves)
    ensures Converts(t, toObjectId, saves) ==> r.userId == Oid(toObjectId(t.userId.text).value)
  {
    if Converts(t, toObjectId, saves) then t.(userId := Oid(toObjectId(t.userId.text).value)) else t
  }

  /** The number the pass reports for `tasks`. */
  function MigratedCount(tasks: seq<Task>, toObjectId: string -> Option<Id>, saves: Id -> bool): (n: nat)
    ensures n <= |tasks|
  {
    if tasks == [] then 0
    else
      MigratedCount(tasks[..|tasks| - 1], toObjectId, saves) +
      (if Converts(tasks[|tasks| - 1], toObjectId, saves) then 1 else 0)
  }

  /** POST /api/migrate: returns the count of the message
      "Migrated <n> tasks". */
  method Migrate(store: TaskStore, toObjectId: string -> Option<Id>, saves: Id -> bool)
    returns (updated: nat)
    requires store.Valid()
    modifies store
    ensures store.Valid() && store.nextId == old(store.nextId)
    ensures |store.tasks| == |old(store.tasks)|
    ensures forall k :: 0 <= k < |store.tasks| ==>
      store.tasks[k] == Migrated(old(store.tasks)[k], toObjectId, saves)
    ensures updated == MigratedCount(old(store.tasks), toObjectId, saves)
  {
    ghost var before := store.tasks;
    var i := 0;
    updated := 0;
    while i < |store.tasks|
      invariant 0 <= i <= |before| == |store.tasks|
      invariant forall k :: 0 <= k < i ==> store.tasks[k] == Migrated(before[k], toObjectId, saves)
      invariant forall k :: i <= k < |before| ==> store.tasks[k] == before[k]
      invariant updated == MigratedCount(before[..i], toObjectId, saves)
      invariant store.nextId == old(store.nextId)
    {
      var task := store.tasks[i];
      assert before[..i + 1][..i] == before[..i];
      if task.userId.Legacy? {
        var cast := toObjectId(task.userId.text);
        if cast.Some? && saves(task.id) {
          store.tasks := store.tasks[i := task.(userId := Oid(cast.value))];
          updated := updated + 1;
        }
      }
      i := i + 1;
    }
    assert before[..i] == before;
    assert forall k :: 0 <= k < |before| ==> store.tasks[k].id == before[k].id;
  }

  /** `Converts` as a test on one task. */
  function ConvertedBy(toObjectId: string -> Option<Id>, saves: Id -> bool): Task -> bool {
    (t: Task) => Converts(t, toObjectId, saves)
  }

  /** The reported number is the number of tasks the pass converted. */
  lemma {:induction false} CountIsConvertedTasks(tasks: seq<Task>, toObjectId: string -> Option<Id>,
                                                 saves: Id -> bool)
    ensures MigratedCount(tasks, toObjectId, saves) == |Filter(tasks, ConvertedBy(toObjectId, saves))|
  {
    if tasks != [] {
      var n := |tasks| - 1;
      CountIsConvertedTasks(tasks[..n], toObjectId, saves);
      assert tasks == tasks[..n] + [tasks[n]];
      FilterConcat(tasks[..n], [tasks[n]], ConvertedBy(toObjectId, saves));
    }
  }

  /** With no string owner left, the pass reports 0. */
  lemma {:induction false} NoLegacyCountsZero(tasks: seq<Task>, toObjectId: string -> Option<Id>,
                                              saves: Id -> bool)
    requires forall k :: 0 <= k < |tasks| ==> tasks[k].userId.Oid?
    ensures MigratedCount(tasks, toObjectId, saves) == 0
  {
    if tasks != [] {
      NoLegacyCountsZero(tasks[..|tasks| - 1], toObjectId, saves);
    }
  }

  /** When every conversion of a first pass succeeds, a second pass, whatever
      its casts and saves do, reports 0. */
  lemma SecondPassFindsNothing(tasks: seq<Task>, toObjectId: string -> Option<Id>, saves: Id -> bool,
                               toObjectId2: string -> Option<Id>, saves2: Id -> bool)
    requires forall k :: 0 <= k < |tasks| && tasks[k].userId.Legacy? ==>
      Converts(tasks[k], toObjectId, saves)
    ensures var after := seq(|tasks|, k requires 0 <= k < |tasks| => Migrated(tasks[k], toObjectId, saves));
      MigratedCount(after, toObjectId2, saves2) == 0
  {
    var after := seq(|tasks|, k requires 0 <= k < |tasks| => Migrated(tasks[k], toObjectId, saves));
    NoLegacyCountsZero(after, toObjectId2, saves2);
  }
}
