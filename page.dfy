/**
 * The task-list screen (`Home`): its state fields and the handlers that
 * change them. Every call to the remote service is replaced by a parameter
 * holding the reply it gives (`Ok` or `Err`), and every call the screen
 * issues is appended to `requests`, so that "no request was made" can be
 * stated. A handler patches the local list only after the remote call
 * succeeded; a failed call is logged by the source and leaves state alone.
 */
module Page {
  import opened Text
  import opened Todos

  datatype Option<T> = None | Some(value: T)

  /** The reply of one remote call: success with its data, or an error. */
  datatype Result<T> = Ok(value: T) | Err

  datatype User = User(id: UserId, email: string)
  datatype Session = Session(user: User)

  /** A call the screen makes on the `todos` table. */
  datatype Request =
    | SelectByUser(userId: UserId)                   // select * where user_id = userId
    | InsertTask(title: string, userId: UserId)      // insert one row, return it
    | UpdateTask(target: Option<TaskId>, patch: Patch) // update where id = target
    | DeleteTask(id: TaskId)                         // delete where id = id

  /** Where the screen sends a visitor without a session. */
  const SignInRoute: string := "/signin"

  class Home {
    var todos: seq<Todo>
    var newTodo: string
    var session: Option<Session>
    var loading: bool
    var editingId: Option<TaskId>
    var editText: string
    /** The route `router.push` was last asked to open, if any. */
    var redirectedTo: Option<string>
    /** Every remote table call issued so far, oldest first. */
    var requests: seq<Request>

    /** The initial `useState` values. */
    constructor ()
      ensures todos == [] && newTodo == "" && session == None && loading
      ensures editingId == None && editText == "" && redirectedTo == None && requests == []
    {
      todos, newTodo, session, loading := [], "", None, true;
      editingId, editText, redirectedTo, requests := None, "", None, [];
    }

    /** The session guard run when the screen mounts: `current` is what
        `getSession` returned and `fetched` the reply to the task query. */
    method Mount(current: Option<Session>, fetched: Result<Option<seq<Todo>>>)
      modifies this`session, this`todos, this`loading, this`redirectedTo, this`requests
      ensures !loading
      ensures current.None? ==>
        redirectedTo == Some(SignInRoute) && session == old(session)
        && todos == old(todos) && requests == old(requests)
      ensures current.Some? ==>
        redirectedTo == old(redirectedTo) && session == current
        && requests == old(requests) + [SelectByUser(current.value.user.id)]
        && todos == (match fetched
                     case Ok(data) => (if data.Some? then data.value else [])
                     case Err => old(todos))
    {
      if current.None? {
        redirectedTo := Some(SignInRoute);
      } else {
        session := current;
        FetchTodos(current.value.user.id, fetched);
      }
      loading := false;
    }

    /** `fetchTodos(userId)`: asks for the user's rows; on success shows the
        returned rows, or none when the reply carried no data. */
    method FetchTodos(userId: UserId, reply: Result<Option<seq<Todo>>>)
      modifies this`todos, this`requests
      ensures requests == old(requests) + [SelectByUser(userId)]
      ensures reply.Err? ==> todos == old(todos)
      ensures reply.Ok? ==> todos == (if reply.value.Some? then reply.value.value else [])
    {
      requests := requests + [SelectByUser(userId)];
      if reply.Ok? {
        todos := if reply.value.Some? then reply.value.value else [];
      }
    }

    /** The add-task input's `onChange`. */
    method TypeNewTodo(text: string)
      modifies this`newTodo
      ensures newTodo == text
    {
      newTodo := text;
    }

    /** `addTodo`: nothing happens when the trimmed input is empty. Otherwise
        the trimmed text is inserted for the signed-in user; on success the
        returned row is shown first and the input is cleared. Without a
        session, reading the user's id fails before any insert is sent. */
    method AddTodo(reply: Result<Todo>)
      modifies this`todos, this`newTodo, this`requests
      ensures Trim(old(newTodo)) == [] || session.None? ==>
        todos == old(todos) && newTodo == old(newTodo) && requests == old(requests)
      ensures Trim(old(newTodo)) != [] && session.Some? ==>
        requests == old(requests) + [InsertTask(Trim(old(newTodo)), session.value.user.id)]
      ensures Trim(old(newTodo)) != [] && session.Some? && reply.Ok? ==>
        todos == [reply.value] + old(todos) && newTodo == ""
      ensures reply.Err? ==> todos == old(todos) && newTodo == old(newTodo)
    {
      var title := Trim(newTodo);
      if title == [] {
        return;
      }
      if session.None? {
        return;
      }
      requests := requests + [InsertTask(title, session.value.user.id)];
      if reply.Ok? {
        todos := [reply.value] + todos;
        newTodo := "";
      }
    }

    /** `toggleTodo(id, current)`: asks to set the flag to `!current`; on
        success every entry with that identifier shows `!current`. */
    method ToggleTodo(id: TaskId, current: bool, reply: Result<()>)
      modifies this`todos, this`requests
      ensures requests == old(requests) + [UpdateTask(Some(id), SetComplete(!current))]
      ensures todos == if reply.Ok? then PatchById(old(todos), id, SetComplete(!current)) else old(todos)
    {
      requests := requests + [UpdateTask(Some(id), SetComplete(!current))];
      if reply.Ok? {
        todos := PatchById(todos, id, SetComplete(!current));
      }
    }

    /** `deleteTodo(id)`: asks to delete the row; on success every entry
        with that identifier disappears from the list. */
    method DeleteTodo(id: TaskId, reply: Result<()>)
      modifies this`todos, this`requests
      ensures requests == old(requests) + [DeleteTask(id)]
      ensures todos == if reply.Ok? then RemoveById(old(todos), id) else old(todos)
    {
      requests := requests + [DeleteTask(id)];
      if reply.Ok? {
        todos := RemoveById(todos, id);
      }
    }

    /** `startEditing(todo)`: enters editing mode for that task with its
        title in the edit buffer. No list change, no remote call. */
    method StartEditing(todo: Todo)
      modifies this`editingId, this`editText
      ensures editingId == Some(todo.id) && editText == todo.title
    {
      editingId := Some(todo.id);
      editText := todo.title;
    }

    /** The edit input's `onChange`. */
    method TypeEditText(text: string)
      modifies this`editText
      ensures editText == text
    {
      editText := text;
    }

    /** `saveEdit`: nothing happens when the trimmed buffer is empty, and
        editing mode persists. Otherwise the trimmed text is sent as the new
        title of the task being edited; on success the entries with that
        identifier take it and editing mode ends. A failed call keeps the
        list, the task being edited and the buffer. */
    method SaveEdit(reply: Result<()>)
      modifies this`todos, this`editingId, this`editText, this`requests
      ensures Trim(old(editText)) == [] ==>
        todos == old(todos) && editingId == old(editingId)
        && editText == old(editText) && requests == old(requests)
      ensures Trim(old(editText)) != [] ==>
        requests == old(requests) + [UpdateTask(old(editingId), SetTitle(Trim(old(editText))))]
      ensures Trim(old(editText)) != [] && reply.Ok? ==>
        editingId == None && editText == ""
        && todos == (if old(editingId).Some?
                     then PatchById(old(todos), old(editingId).value, SetTitle(Trim(old(editText))))
                     else old(todos))
      ensures reply.Err? ==>
        todos == old(todos) && editingId == old(editingId) && editText == old(editText)
    {
      var title := Trim(editText);
      if title == [] {
        return;
      }
      requests := requests + [UpdateTask(editingId, SetTitle(title))];
      if reply.Ok? {
        // With no task being edited, `todo.id === null` matches no entry.
        if editingId.Some? {
          todos := PatchById(todos, editingId.value, SetTitle(title));
        }
        editingId := None;
        editText := "";
      }
    }

    /** `cancelEdit`: leaves editing mode and clears the buffer. No list
        change, no remote call. */
    method CancelEdit()
      modifies this`editingId, this`editText
      ensures editingId == None && editText == ""
    {
      editingId := None;
      editText := "";
    }
  }

  /** First half of the screen's walk-through: with a session and no
      tasks yet, typing "Buy milk" and adding it shows it as the only task,
      and ticking its checkbox completes it. */
  method WalkthroughCreate(user: User)
  {
    var home := new Home();
    home.Mount(Some(Session(user)), Ok(None));
    assert home.todos == [] && !home.loading;

    var title := "Buy milk";
    home.TypeNewTodo(title);
    assert Trim(title) == title by { TrimKeepsTidyText(title); }
    var row := Todo(1, title, false, user.id);
    home.AddTodo(Ok(row));
    assert home.todos == [row] && home.newTodo == "";

    home.ToggleTodo(row.id, row.isComplete, Ok(()));
    assert home.todos == [row.(isComplete := true)];
  }

  /** Second half: starting from the completed "Buy milk", editing and
      cancelling keeps the title; renaming it to "Buy oat milk" keeps it
      complete; deleting it empties the list. */
  method WalkthroughEdit(user: User)
  {
    var home := new Home();
    var row := Todo(1, "Buy milk", true, user.id);
    home.Mount(Some(Session(user)), Ok(Some([row])));
    assert home.todos == [row];

    home.StartEditing(row);
    home.CancelEdit();
    assert home.todos == [row] && home.editingId == None;

    home.StartEditing(row);
    var renamed := "Buy oat milk";
    home.TypeEditText(renamed);
    assert Trim(renamed) == renamed by { TrimKeepsTidyText(renamed); }
    home.SaveEdit(Ok(()));
    assert home.todos == [row.(title := renamed)] && home.editingId == None;

    home.DeleteTodo(row.id, Ok(()));
    assert home.todos == [];
  }
}
