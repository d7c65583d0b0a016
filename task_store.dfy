/**
 * The task store of the main application component: the bearer token, the
 * task collection and the two filter values, and the operations that
 * overwrite them. Every server reply is a parameter; each mutation changes
 * `tasks` only when its awaited call resolved with a parsed body.
 */
module TaskStore {
  import opened Wrappers
  import opened Tasks

  class Store {
    var token: string
    var tasks: seq<Task>
    var filterStatus: string
    var filterPriority: string

    /** Logged out means no tasks are held. */
    predicate CredentialBound()
      reads this
    {
      token == "" ==> tasks == []
    }

    /** Start-up: the token read from storage (or "" when none), no tasks, no filtering. */
    constructor (stored: Option<string>)
      ensures token == stored.GetOr("")
      ensures tasks == [] && filterStatus == All && filterPriority == All
      ensures CredentialBound()
    {
      token := stored.GetOr("");
      tasks := [];
      filterStatus := All;
      filterPriority := All;
    }

    /** The tasks shown: those passing both filters, in collection order. */
    function FilteredTasks(): (v: seq<Task>)
      reads this
      ensures forall t :: t in v <==> t in tasks && Matches(t, filterStatus, filterPriority)
      ensures filterStatus == All && filterPriority == All ==> v == tasks
    {
      VisibleAllAll(tasks);
      Visible(tasks, filterStatus, filterPriority)
    }

    /** The token handed over by the login page. */
    method SetToken(t: string)
      modifies this
      ensures token == t
      ensures tasks == old(tasks) && filterStatus == old(filterStatus) && filterPriority == old(filterPriority)
    {
      token := t;
    }

    /** Logout discards the token and every task, whatever was held before. */
    method Logout()
      modifies this
      ensures token == "" && tasks == []
      ensures filterStatus == old(filterStatus) && filterPriority == old(filterPriority)
      ensures CredentialBound()
    {
      token := "";
      tasks := [];
    }

    /**
     * One run of the load effect, which runs after the first render (so
     * start-up is the constructor followed by `Load`) and after every change
     * of the token. It asks for the list only when a token is held, and takes
     * the normalised body as the new collection.
     */
    method Load(reply: Reply<ListBody>) returns (requested: bool)
      modifies this
      ensures requested <==> old(token) != ""
      ensures requested && reply.Ok? && Normalize(reply.body).Some? ==> tasks == Normalize(reply.body).value
      ensures !(requested && reply.Ok? && Normalize(reply.body).Some?) ==> tasks == old(tasks)
      ensures token == old(token) && filterStatus == old(filterStatus) && filterPriority == old(filterPriority)
      ensures old(CredentialBound()) ==> CredentialBound()
    {
      requested := token != "";
      if requested && reply.Ok? {
        var fetched := Normalize(reply.body);
        if fetched.Some? {
          tasks := fetched.value;
        }
      }
    }

    /**
     * Create a task: send it as pending/medium, then append the server's
     * record. Called with no token, a parsed reply would leave a task held
     * while logged out; the add form is shown only while a token is held.
     */
    method AddTask(text: string, reply: Reply<Task>) returns (request: NewTask)
      modifies this
      ensures request.text == text && request.status == Pending && request.priority == Medium
      ensures reply.Ok? ==> tasks == AppendTask(old(tasks), reply.body) && |tasks| == |old(tasks)| + 1
      ensures reply.Rejected? ==> tasks == old(tasks)
      ensures old(Distinct(tasks)) && reply.Ok? ==> (Distinct(tasks) <==> !HasId(old(tasks), reply.body.id))
      ensures old(CredentialBound()) ==> (CredentialBound() <==> token != "" || reply.Rejected?)
      ensures token == old(token) && filterStatus == old(filterStatus) && filterPriority == old(filterPriority)
    {
      request := CreateRequest(text);
      if reply.Ok? {
        if Distinct(tasks) {
          AppendDistinct(tasks, reply.body);
        }
        tasks := AppendTask(tasks, reply.body);
      }
    }

    /**
     * Delete a task: once the request settles without throwing, drop every
     * entry with that identity. The HTTP status is not looked at.
     */
    method DeleteTask(id: string, reply: Reply<()>)
      modifies this
      ensures reply.Ok? ==> tasks == RemoveById(old(tasks), id) && !HasId(tasks, id)
      ensures reply.Rejected? ==> tasks == old(tasks)
      ensures old(Distinct(tasks)) ==> Distinct(tasks) && |old(tasks)| - 1 <= |tasks| <= |old(tasks)|
      ensures old(CredentialBound()) ==> CredentialBound()
      ensures token == old(token) && filterStatus == old(filterStatus) && filterPriority == old(filterPriority)
    {
      if reply.Ok? {
        RemoveLeavesNoMatch(tasks, id);
        if Distinct(tasks) {
          RemoveKeepsDistinct(tasks, id);
          RemoveDistinctLength(tasks, id);
        }
        tasks := RemoveById(tasks, id);
      }
    }

    /** Flip a task's status: request the toggled value, then adopt the server's record. */
    method UpdateTaskStatus(id: string, currentStatus: string, reply: Reply<Task>) returns (request: string)
      modifies this
      ensures request == Pending || request == Completed
      ensures request == Completed <==> currentStatus == Pending
      ensures reply.Ok? ==> tasks == ReplaceById(old(tasks), id, reply.body)
      ensures reply.Rejected? ==> tasks == old(tasks)
      ensures old(Distinct(tasks)) && reply.Ok? && reply.body.id == id ==> Distinct(tasks)
      ensures old(CredentialBound()) ==> CredentialBound()
      ensures token == old(token) && filterStatus == old(filterStatus) && filterPriority == old(filterPriority)
    {
      request := Toggle(currentStatus);
      if reply.Ok? {
        if Distinct(tasks) && reply.body.id == id {
          ReplaceKeepsDistinct(tasks, id, reply.body);
        }
        tasks := ReplaceById(tasks, id, reply.body);
      }
    }

    /** Set a task's priority: request the chosen value, then adopt the server's record. */
    method UpdateTaskPriority(id: string, newPriority: string, reply: Reply<Task>) returns (request: string)
      modifies this
      ensures request == newPriority
      ensures reply.Ok? ==> tasks == ReplaceById(old(tasks), id, reply.body)
      ensures reply.Rejected? ==> tasks == old(tasks)
      ensures old(Distinct(tasks)) && reply.Ok? && reply.body.id == id ==> Distinct(tasks)
      ensures old(CredentialBound()) ==> CredentialBound()
      ensures token == old(token) && filterStatus == old(filterStatus) && filterPriority == old(filterPriority)
    {
      request := newPriority;
      if reply.Ok? {
        if Distinct(tasks) && reply.body.id == id {
          ReplaceKeepsDistinct(tasks, id, reply.body);
        }
        tasks := ReplaceById(tasks, id, reply.body);
      }
    }

    /** The status filter chosen in the view. */
    method SetFilterStatus(value: string)
      modifies this
      ensures filterStatus == value
      ensures token == old(token) && tasks == old(tasks) && filterPriority == old(filterPriority)
      ensures old(CredentialBound()) ==> CredentialBound()
    {
      filterStatus := value;
    }

    /** The priority filter chosen in the view. */
    method SetFilterPriority(value: string)
      modifies this
      ensures filterPriority == value
      ensures token == old(token) && tasks == old(tasks) && filterStatus == old(filterStatus)
      ensures old(CredentialBound()) ==> CredentialBound()
    {
      filterPriority := value;
    }
  }

  /**
   * A client of the store: log in, load one task, flip it, filter on
   * "pending", log out. Everything asserted follows from the contracts above.
   */
  method LoginToggleLogout() {
    var store := new Store(None);
    assert store.tasks == [] && store.FilteredTasks() == [];

    store.SetToken("secret");
    var t1 := Task("1", "a", Pending, "low");
    var fired := store.Load(Ok(Arr([t1])));
    assert fired && store.tasks == [t1];
    assert store.FilteredTasks() == [t1];

    var done := Task("1", "a", Completed, "low");
    var sent := store.UpdateTaskStatus("1", Pending, Ok(done));
    assert sent == Completed;
    ReplaceUnique([t1], "1", done, 0);
    assert store.tasks == [done];

    store.SetFilterStatus(Pending);
    assert done !in store.FilteredTasks();
    assert store.FilteredTasks() == [];

    store.DeleteTask("1", Rejected);
    assert store.tasks == [done];

    store.Logout();
    fired := store.Load(Ok(Arr([t1])));
    assert !fired && store.tasks == [];
  }
}
