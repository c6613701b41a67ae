/** The task collection and the two handlers of app/api/tasks/route.ts:
    GET (a title search open to everyone, or the caller's own tasks in
    position order) and POST (a new task for the caller, placed after the
    caller's last one). The database is an in-memory table; `caller` is the
    identity the session verifier gave, already cast to an ObjectId. */
module Tasks {
  import opened Base
  import opened TaskModel

  predicate OwnedBy(t: Task, owner: Id) {
    t.userId == Oid(owner)
  }

  /** The filter `{ userId: owner }` as a test on one task. */
  function OwnerIs(owner: Id): Task -> bool {
    (t: Task) => OwnedBy(t, owner)
  }

  /** No two stored tasks share an `_id`. */
  predicate UniqueIds(tasks: seq<Task>) {
    forall i, j :: 0 <= i < j < |tasks| ==> tasks[i].id != tasks[j].id
  }

  /** The filter `{ title: new RegExp(pattern, "i") }` as a test on one task. */
  function TitleMatches(pattern: string, titleMatches: (string, string) -> bool): Task -> bool {
    (t: Task) => titleMatches(pattern, t.title)
  }

  predicate SortedByPosition(s: seq<Task>) {
    forall i, j :: 0 <= i < j < |s| ==> s[i].position <= s[j].position
  }

  /** Places `t` into a sequence sorted by position, after the tasks whose
      position equals its own. */
  function InsertByPosition(t: Task, s: seq<Task>): (r: seq<Task>)
    requires SortedByPosition(s)
    ensures |r| == |s| + 1
    ensures forall x :: x in r ==> x == t || x in s
    ensures SortedByPosition(r)
    ensures multiset(r) == multiset(s) + multiset{t}
  {
    if s == [] || t.position < s[0].position then [t] + s
    else
      var rest := InsertByPosition(t, s[1..]);
      assert s == [s[0]] + s[1..];
      assert forall x :: x in rest ==> s[0].position <= x.position;
      [s[0]] + rest
  }

  /** The tasks of `s` ordered by ascending position (`.sort({ position: 1 })`). */
  function SortByPosition(s: seq<Task>): (r: seq<Task>)
    ensures SortedByPosition(r)
    ensures multiset(r) == multiset(s)
  {
    if s == [] then []
    else
      assert s == s[..|s| - 1] + [s[|s| - 1]];
      InsertByPosition(s[|s| - 1], SortByPosition(s[..|s| - 1]))
  }

  datatype GetResponse = TaskList(tasks: seq<Task>) | Unauthorized {
    function Status(): int {
      if TaskList? then 200 else 401
    }
  }

  /** GET /api/tasks. A non-empty `search` is matched against every title
      (`titleMatches` is the case-insensitive regular expression test) with no
      identity required; otherwise the caller's tasks are listed by position. */
  function Get(tasks: seq<Task>, search: Option<string>, caller: Option<Id>,
               titleMatches: (string, string) -> bool): (r: GetResponse)
    ensures r.Unauthorized? <==> (search.None? || search.value == "") && caller.None?
    ensures search.Some? && search.value != "" ==>
      r.TaskList? && (forall t :: t in r.tasks <==> t in tasks && titleMatches(search.value, t.title)) &&
      r.tasks == Filter(tasks, TitleMatches(search.value, titleMatches))
    ensures (search.None? || search.value == "") && caller.Some? ==>
      r.TaskList? && SortedByPosition(r.tasks) &&
      (forall t :: t in r.tasks <==> t in tasks && OwnedBy(t, caller.value)) &&
      multiset(r.tasks) == multiset(Filter(tasks, OwnerIs(caller.value)))
  {
    if search.Some? && search.value != "" then
      var pattern := search.value;
      TaskList(Filter(tasks, TitleMatches(pattern, titleMatches)))
    else if caller.None? then Unauthorized
    else
      var owner := caller.value;
      var own := Filter(tasks, OwnerIs(owner));
      var sorted := SortByPosition(own);
      assert forall t :: t in sorted <==> t in multiset(own);
      TaskList(sorted)
  }

  /** `Task.findOne({ userId }).sort({ position: -1 })`: a task of `owner`
      with the greatest position, if `owner` has any. */
  function LastTask(tasks: seq<Task>, owner: Id): (r: Option<Task>)
    ensures r.None? <==> forall t :: t in tasks ==> !OwnedBy(t, owner)
    ensures r.Some? ==>
      r.value in tasks && OwnedBy(r.value, owner) &&
      forall t :: t in tasks && OwnedBy(t, owner) ==> t.position <= r.value.position
  {
    if tasks == [] then None
    else
      var rest := LastTask(tasks[1..], owner);
      assert forall t :: t in tasks <==> t == tasks[0] || t in tasks[1..];
      if OwnedBy(tasks[0], owner) && (rest.None? || rest.value.position < tasks[0].position)
      then Some(tasks[0])
      else rest
  }

  /** The position POST gives a new task: one past the greatest position
      among the owner's tasks, or 0 for the owner's first task. */
  function NextPosition(tasks: seq<Task>, owner: Id): (p: int)
    ensures (forall t :: t in tasks ==> !OwnedBy(t, owner)) ==> p == 0
    ensures (exists t :: t in tasks && OwnedBy(t, owner)) ==>
      (exists t :: t in tasks && OwnedBy(t, owner) && p == t.position + 1) &&
      forall t :: t in tasks && OwnedBy(t, owner) ==> t.position < p
  {
    match LastTask(tasks, owner)
    case Some(last) => last.position + 1
    case None => 0
  }

  /** The body POST hands to `Task.create`: the client's fields, with
      `userId` and `position` written after them and so overriding them. */
  function PostInput(body: TaskInput, owner: Id, position: int): (input: TaskInput)
    ensures input.userId == Some(Oid(owner)) && input.position == Some(position)
    ensures input.(userId := body.userId, position := body.position) == body
  {
    body.(userId := Some(Oid(owner)), position := Some(position))
  }

  datatype PostResponse = Created(task: Task) | PostUnauthorized | PostInvalid(errors: set<SchemaError>) {
    function Status(): int {
      match this
      case Created(_) => 201
      case PostUnauthorized => 401
      case PostInvalid(_) => 500
    }
  }

  /** The task table. `nextId` stands for the database's generator of fresh
      ObjectIds: every stored id is below it. */
  class TaskStore {
    var tasks: seq<Task>
    var nextId: Id

    ghost predicate Valid()
      reads this
    {
      UniqueIds(tasks) && forall t :: t in tasks ==> t.id < nextId
    }

    constructor ()
      ensures Valid() && tasks == []
    {
      tasks := [];
      nextId := 0;
    }

    /** POST /api/tasks. */
    method Create(caller: Option<Id>, body: TaskInput) returns (r: PostResponse)
      requires Valid()
      modifies this
      ensures Valid()
      ensures r.PostUnauthorized? <==> caller.None?
      ensures r.PostInvalid? ==>
        caller.Some? &&
        r.errors == Violations(PostInput(body, caller.value, NextPosition(old(tasks), caller.value))) &&
        r.errors != {}
      ensures caller.Some? ==>
        (r.Created? <==>
           body.title.Some? && body.title.value != "" &&
           (body.priority.None? || body.priority.value in {"red", "yellow", "green"}))
      ensures !r.Created? ==> tasks == old(tasks) && nextId == old(nextId)
      ensures r.Created? ==>
        caller.Some? && tasks == old(tasks) + [r.task] &&
        (forall t :: t in old(tasks) ==> t.id != r.task.id) &&
        r.task.userId == Oid(caller.value) &&
        r.task.position == NextPosition(old(tasks), caller.value) &&
        Ok(r.task) == NewTask(PostInput(body, caller.value, r.task.position), r.task.id)
    {
      if caller.None? {
        return PostUnauthorized;
      }
      var owner := caller.value;
      var position := NextPosition(tasks, owner);
      match NewTask(PostInput(body, owner, position), nextId)
      case Err(errors) =>
        r := PostInvalid(errors);
      case Ok(task) =>
        tasks := tasks + [task];
        nextId := nextId + 1;
        r := Created(task);
    }
  }
}
