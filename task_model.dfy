/** The task document of the database (models/task.ts): its fields, the
    priority enumeration, the defaults and the required fields, written as
    the validating constructor that `Task.create` runs. */
module TaskModel {
  import opened Base

  datatype Priority = Red | Yellow | Green

  /** The stored owner reference: an ObjectId, or a plain string left by
      documents written before the schema typed the field. */
  datatype OwnerRef = Oid(id: Id) | Legacy(text: string)

  /** A stored task. `dueDate` is an instant in milliseconds; `createdAt`
      and `updatedAt` are not modelled. */
  datatype Task = Task(
    id: Id,
    title: string,
    description: Option<string>,
    category: Option<string>,
    priority: Priority,
    completed: bool,
    dueDate: Option<int>,
    position: int,
    userId: OwnerRef)

  /** What a caller hands to `Task.create`: every field may be missing. */
  datatype TaskInput = TaskInput(
    title: Option<string>,
    description: Option<string>,
    category: Option<string>,
    priority: Option<string>,
    completed: Option<bool>,
    dueDate: Option<int>,
    position: Option<int>,
    userId: Option<OwnerRef>)

  /** The schema paths whose validator can fail. */
  datatype SchemaError = TitleRequired | PriorityNotInEnum | UserIdRequired

  function PriorityName(p: Priority): string {
    match p
    case Red => "red"
    case Yellow => "yellow"
    case Green => "green"
  }

  /** The enum validator of `priority`: only the three names are accepted. */
  function ParsePriority(s: string): (r: Option<Priority>)
    ensures forall p :: r == Some(p) <==> PriorityName(p) == s
  {
    if s == "red" then Some(Red)
    else if s == "yellow" then Some(Yellow)
    else if s == "green" then Some(Green)
    else None
  }

  /** Every validator that fails on `input`. A required string is missing
      when absent or empty, as in the schema type's required check. */
  function Violations(input: TaskInput): (v: set<SchemaError>)
    ensures TitleRequired in v <==> input.title.None? || input.title.value == ""
    ensures PriorityNotInEnum in v <==>
      input.priority.Some? && input.priority.value !in {"red", "yellow", "green"}
    ensures UserIdRequired in v <==> input.userId.None?
  {
    (if input.title.None? || input.title.value == "" then {TitleRequired} else {}) +
    (if input.priority.Some? && ParsePriority(input.priority.value).None?
     then {PriorityNotInEnum} else {}) +
    (if input.userId.None? then {UserIdRequired} else {})
  }

  /** Builds the document `Task.create` would store under the fresh `id`:
      defaults are filled in (priority green, not completed, position 0),
      and the document is refused when a validator fails. */
  function NewTask(input: TaskInput, id: Id): (r: Result<Task, set<SchemaError>>)
    ensures r.Err? <==> Violations(input) != {}
    ensures r.Err? ==> r.error == Violations(input)
    ensures r.Ok? ==>
      r.value.id == id && r.value.title != "" &&
      Some(r.value.title) == input.title &&
      r.value.description == input.description &&
      r.value.category == input.category &&
      r.value.dueDate == input.dueDate &&
      Some(r.value.userId) == input.userId
    ensures r.Ok? ==> PriorityName(r.value.priority) == input.priority.GetOr("green")
    ensures r.Ok? ==> r.value.completed == input.completed.GetOr(false)
    ensures r.Ok? ==> r.value.position == input.position.GetOr(0)
  {
    var errors := Violations(input);
    if errors != {} then Err(errors)
    else
      var priority := if input.priority.Some? then ParsePriority(input.priority.value).value else Green;
      Ok(Task(id, input.title.value, input.description, input.category, priority,
              input.completed.GetOr(false), input.dueDate, input.position.GetOr(0),
              input.userId.value))
  }
}
