/** The task list of the dashboard page (app/dashboard/page.tsx) and the
    handlers that update it: add, toggle completion, delete, start and save
    an edit. What a request resolved to is an input of its handler (None
    when the request failed and the handler's promise rejected); the
    requests themselves are not modelled beyond the body a handler sends. */
module Dashboard {
  import opened Base
  import opened TaskModel

  /** A task as the page holds it. */
  datatype ClientTask = ClientTask(
    id: string,
    title: string,
    description: string,
    category: string,
    priority: Priority,
    completed: bool)

  /** What `res.json()` gives for a task request, and so what the page
      stores: the server's task, or the `{ message }` body of an error reply,
      which the handlers store all the same since they never look at the
      status. */
  datatype Entry = Listed(task: ClientTask) | ErrorBody(message: string) {
    /** The entry's `_id`; an error body has none. */
    function Id(): Option<string> {
      if Listed? then Some(task.id) else None
    }
  }

  /** The fields of the "new task" form and of the edit form. */
  datatype Draft = Draft(title: string, description: string, category: string, priority: Priority)

  const BlankDraft: Draft := Draft("", "", "", Green)

  /** `tasks.map(task => task._id === id ? updated : task)`: only entries
      whose `_id` equals `id` are replaced. */
  function ReplaceById(entries: seq<Entry>, id: string, updated: Entry): (r: seq<Entry>)
    ensures |r| == |entries|
    ensures forall k :: 0 <= k < |r| && entries[k].Id() != Some(id) ==> r[k] == entries[k]
    ensures forall k :: 0 <= k < |r| && entries[k].Id() == Some(id) ==> r[k] == updated
  {
    if entries == [] then []
    else [if entries[0].Id() == Some(id) then updated else entries[0]] + ReplaceById(entries[1..], id, updated)
  }

  /** The test `task._id !== id`. */
  function OtherThan(id: string): Entry -> bool {
    (e: Entry) => e.Id() != Some(id)
  }

  /** `tasks.filter(task => task._id !== id)` */
  function RemoveById(entries: seq<Entry>, id: string): (r: seq<Entry>)
    ensures forall e :: e in r <==> e in entries && e.Id() != Some(id)
  {
    Filter(entries, OtherThan(id))
  }

  /** Deleting keeps the remaining entries in their order: it works on each
      part of the list separately. */
  lemma RemoveKeepsOrder(front: seq<Entry>, back: seq<Entry>, id: string)
    ensures RemoveById(front + back, id) == RemoveById(front, id) + RemoveById(back, id)
  {
    FilterConcat(front, back, OtherThan(id));
  }

  /** Deleting a task after replacing it by a task with the same id is
      deleting it: the edit leaves no trace. */
  lemma {:induction false} RemoveAfterReplace(entries: seq<Entry>, id: string, updated: Entry)
    requires updated.Id() == Some(id)
    ensures RemoveById(ReplaceById(entries, id, updated), id) == RemoveById(entries, id)
  {
    if entries != [] {
      var replaced := ReplaceById(entries, id, updated);
      assert entries == [entries[0]] + entries[1..];
      assert replaced == [replaced[0]] + ReplaceById(entries[1..], id, updated);
      RemoveAfterReplace(entries[1..], id, updated);
      FilterConcat([entries[0]], entries[1..], OtherThan(id));
      FilterConcat([replaced[0]], ReplaceById(entries[1..], id, updated), OtherThan(id));
    }
  }

  /** An error reply to a toggle or an edit takes the task's place: no entry
      with that id is left, so later toggles and edits of it change nothing
      and deleting it leaves the error body behind. */
  lemma ErrorReplyLosesTask(entries: seq<Entry>, id: string, message: string, later: Entry)
    ensures var after := ReplaceById(entries, id, ErrorBody(message));
      (forall e :: e in after ==> e.Id() != Some(id)) &&
      ReplaceById(after, id, later) == after &&
      RemoveById(after, id) == after
  {
    var after := ReplaceById(entries, id, ErrorBody(message));
    assert forall k :: 0 <= k < |after| ==> after[k].Id() != Some(id);
    FilterKeepsAll(after, OtherThan(id));
  }

  class DashboardPage {
    var tasks: seq<Entry>
    var newTask: Draft
    var editingTask: Option<string>
    var editData: Draft

    constructor ()
      ensures tasks == [] && newTask == BlankDraft && editingTask == None && editData == BlankDraft
    {
      tasks, newTask, editingTask, editData := [], BlankDraft, None, BlankDraft;
    }

    /** The effect run on mount: the list becomes whatever GET /api/tasks
        answered; a failed request leaves it as it was. */
    method Load(data: Option<seq<Entry>>)
      modifies this
      ensures tasks == old(data.GetOr(tasks))
      ensures newTask == old(newTask) && editingTask == old(editingTask) && editData == old(editData)
    {
      if data.Some? {
        tasks := data.value;
      }
    }

    /** `addTask`: nothing happens for a blank title; otherwise what the
        request resolved to (the created task, or an error body) goes to the
        end of the list and the form is cleared. Returns whether the request
        is sent. */
    method AddTask(created: Option<Entry>) returns (sent: bool)
      modifies this
      ensures sent <==> !IsBlank(old(newTask.title))
      ensures editingTask == old(editingTask) && editData == old(editData)
      ensures sent && created.Some? ==>
        tasks == old(tasks) + [created.value] && newTask == BlankDraft
      ensures !sent || created.None? ==> tasks == old(tasks) && newTask == old(newTask)
    {
      if IsBlank(newTask.title) {
        return false;
      }
      sent := true;
      if created.Some? {
        tasks := tasks + [created.value];
        newTask := BlankDraft;
      }
    }

    /** `toggleCompletion`: sends the negated flag and puts the reply (the
        server's version of the task, or an error body) in place of every
        entry with that id. */
    method ToggleCompletion(id: string, completed: bool, updated: Option<Entry>)
      returns (sentCompleted: bool)
      modifies this
      ensures sentCompleted == !completed
      ensures tasks == if updated.Some? then ReplaceById(old(tasks), id, updated.value) else old(tasks)
      ensures newTask == old(newTask) && editingTask == old(editingTask) && editData == old(editData)
    {
      sentCompleted := !completed;
      if updated.Some? {
        tasks := ReplaceById(tasks, id, updated.value);
      }
    }

    /** `deleteTask`: once the request went out, every task with that id
        leaves the list. */
    method DeleteTask(id: string, delivered: bool)
      modifies this
      ensures tasks == if delivered then RemoveById(old(tasks), id) else old(tasks)
      ensures newTask == old(newTask) && editingTask == old(editingTask) && editData == old(editData)
    {
      if delivered {
        tasks := RemoveById(tasks, id);
      }
    }

    /** `startEdit`, called from a rendered task: the edit form takes the
        task's id and editable fields. */
    method StartEdit(task: ClientTask)
      modifies this
      ensures editingTask == Some(task.id)
      ensures editData == Draft(task.title, task.description, task.category, task.priority)
      ensures tasks == old(tasks) && newTask == old(newTask)
    {
      editingTask := Some(task.id);
      editData := Draft(task.title, task.description, task.category, task.priority);
    }

    /** The Cancel button of the edit form: editing ends, the form keeps its
        contents. */
    method CancelEdit()
      modifies this
      ensures editingTask == None
      ensures tasks == old(tasks) && newTask == old(newTask) && editData == old(editData)
    {
      editingTask := None;
    }

    /** `saveEdit`: sends the edit form; once the request resolves, the reply
        (the server's version, or an error body) replaces the task and
        editing ends. */
    method SaveEdit(id: string, updated: Option<Entry>) returns (sent: Draft)
      modifies this
      ensures sent == old(editData)
      ensures updated.Some? ==>
        tasks == ReplaceById(old(tasks), id, updated.value) && editingTask == None
      ensures updated.None? ==> tasks == old(tasks) && editingTask == old(editingTask)
      ensures newTask == old(newTask) && editData == old(editData)
    {
      sent := editData;
      if updated.Some? {
        tasks := ReplaceById(tasks, id, updated.value);
        editingTask := None;
      }
    }
  }
}
