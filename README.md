# Task-list screen model

This project models the task-list screen of a small to-do web application,
`Home` in `src/app/page.js`. The screen keeps an in-memory list of the
signed-in user's tasks, plus a few scalar fields: the add-task input, the
session, a loading flag, the task being edited and the edit buffer. Its
handlers make one call to the remote table service and patch the list
only when that call succeeds. An insert puts the returned row first, a
toggle or an edit patches every row with the identifier by spreading the
changed field over it, and a delete filters those rows out.

The model has three modules:

- `Text` (`text.dfy`) defines JavaScript's `String.prototype.trim`
  exactly. It strips the code points that ECMAScript classes as
  WhiteSpace or LineTerminator. Its contracts prove that trimming is
  empty exactly when the text is all white space, and that a non-empty
  result has non-space ends. They also prove that the result is a slice
  of the input with white space on both sides. Trimming is the only
  such split, and it is idempotent.
- `Todos` (`todos.dfy`) holds the task record (`Todo`) and the list
  computations as pure functions: `Apply` (the object spread),
  `PatchById` (the `map`) and `RemoveById` (the `filter`). The lemmas
  about them prove that only entries with the matching identifier
  change, that toggling twice restores the list, and that deleting keeps
  the order and multiplicity of the other entries. Further lemmas prove
  that deleting an absent identifier changes nothing and that patching
  and deleting keep identifiers unique. Prepending keeps them unique
  exactly when the new row's identifier is not already shown.
- `Page` (`page.dfy`) is the class `Home`, with one field per
  `useState` and one method per handler. Each remote call is a parameter
  holding its reply (`Ok` or `Err`). Every call the screen issues is
  appended to the field `requests`, so a contract can say that no
  request was sent. Each method's frame lists only the fields its
  handler sets. The ensures clauses give the new value of each of those
  fields, on both the success path and the failure path.
  `WalkthroughCreate` and `WalkthroughEdit` replay the screen's basic
  scenario. The first creates "Buy milk" and completes it. The second
  starts from that completed task, edits and cancels, renames it to "Buy
  oat milk" (the task stays complete) and deletes it.

Edge cases the model covers:

- Deleting removes every entry with that identifier (`filter`, line 93),
  not only one. `RemoveCount` proves the general statement, and
  `DeletePresentRemovesOne` proves "exactly one" when identifiers are
  unique, as the store's primary key guarantees.
- `addTodo` without a session: `session.user.id` (line 57) throws inside
  the `try`, the error is caught and logged, and nothing is inserted.
- `saveEdit` with no task being edited: the update is still sent,
  filtered on a null identifier. No local entry matches, and editing
  mode is reset when the call succeeds.

## Model

| member | source | states |
|---|---|---|
| Text.Trim | src/app/page.js:52 | the trimmed text is empty exactly when the input is all white space; a non-empty result starts and ends with a non-space character |
| Text.SkipLeading | src/app/page.js:52 | the index returned is the first non-space character at or after the start, and everything skipped is white space |
| Text.SkipTrailing | src/app/page.js:52 | the end returned is preceded by a non-space character (or is the lower bound), and everything dropped after it is white space |
| Text.TrimIsUniqueSplit | src/app/page.js:57 | for any split of the text into leading white space, a middle part that is empty or has non-space ends, and trailing white space, trimming returns that middle part |
| Text.TrimIsSlice | src/app/page.js:110 | the stored title is a contiguous slice of the typed text, with only white space before and after it |
| Text.TrimIdempotent | src/app/page.js:110 | trimming an already-trimmed title changes nothing |
| Text.TrimKeepsTidyText | src/app/page.js:57 | a title with no white space around it is stored exactly as typed |
| Todos.Apply | src/app/page.js:78 | the object spread: the patched field takes the new value; id, owner and the other field are copied |
| Todos.PatchById | src/app/page.js:77-79 | the result has the same length, and position by position an entry with the identifier is patched and every other entry is kept |
| Todos.RemoveById | src/app/page.js:93 | every surviving entry was in the list and has a different identifier; every entry with a different identifier survives |
| Todos.ToggleSpec | src/app/page.js:77-79 | toggling keeps the length and the identifier order; matching entries get `!current` with title and owner kept; all other entries are unchanged |
| Todos.ToggleTwiceRestores | src/app/page.js:72-79 | toggling from `current` and then from `!current` restores the list when the matching entries showed `current` |
| Todos.ToggleTwiceFromRow | src/app/page.js:202 | with unique identifiers, toggling a shown row from its own flag (as the checkbox does) and then back restores the list |
| Todos.RetitleSpec | src/app/page.js:115-117 | saving an edit gives matching entries the new title and keeps their completion flag and owner; the other entries and the identifier order are unchanged |
| Todos.PatchAbsentIsIdentity | src/app/page.js:77-79 | patching an identifier no entry carries leaves the list unchanged |
| Todos.PatchKeepsUniqueIds | src/app/page.js:77-79 | patching keeps identifiers unique |
| Todos.RemoveIsSubsequence | src/app/page.js:93 | deleting keeps the surviving entries in their original relative order |
| Todos.RemoveMultiset | src/app/page.js:93 | deleting drops every copy of the entries with the identifier and keeps every copy of every other entry |
| Todos.RemoveCount | src/app/page.js:93 | deleting shortens the list by exactly the number of entries with the identifier, and none of them is left |
| Todos.RemoveAbsentIsIdentity | src/app/page.js:93 | deleting an identifier that is not shown leaves the list unchanged |
| Todos.DeletePresentRemovesOne | src/app/page.js:93 | with unique identifiers, deleting a shown task removes exactly one entry |
| Todos.RemoveKeepsUniqueIds | src/app/page.js:93 | deleting keeps identifiers unique |
| Todos.PrependUniqueIds | src/app/page.js:61 | putting the inserted row first keeps identifiers unique exactly when its identifier is not already shown |
| Page.Home.constructor | src/app/page.js:8-13 | the initial state: no tasks, empty input and buffer, no session, not editing, loading |
| Page.Home.Mount | src/app/page.js:16-24 | without a session: redirect to `/signin`, no query, list unchanged; with a session: session stored and the user's tasks fetched; loading ends in both cases |
| Page.Home.FetchTodos | src/app/page.js:35-48 | the rows for that user are requested; success shows the returned rows (none when the reply has no data); failure leaves the list unchanged |
| Page.Home.TypeNewTodo | src/app/page.js:151 | the add-task input holds the typed text |
| Page.Home.AddTodo | src/app/page.js:50-66 | a blank input or a missing session changes nothing and sends nothing; otherwise the trimmed text is inserted for the session's user; success prepends the returned row and clears the input; failure keeps the list and the input |
| Page.Home.ToggleTodo | src/app/page.js:68-83 | an update setting the flag to `!current` is sent; success installs the toggled list; failure leaves the list unchanged |
| Page.Home.DeleteTodo | src/app/page.js:85-97 | a delete of that identifier is sent; success installs the filtered list; failure leaves the list unchanged |
| Page.Home.StartEditing | src/app/page.js:99-102 | the task's identifier is being edited and its title is in the buffer; no list change and no request |
| Page.Home.TypeEditText | src/app/page.js:179 | the edit buffer holds the typed text |
| Page.Home.SaveEdit | src/app/page.js:104-125 | a blank buffer changes nothing and sends nothing; otherwise the trimmed text is sent as the title; success retitles the edited task and leaves editing mode; failure keeps the list, the task being edited and the buffer |
| Page.Home.CancelEdit | src/app/page.js:127-130 | editing mode ends and the buffer is cleared; no list change and no request |

## Left out

- The remote service (Supabase table and auth calls) is not modelled. Each call's reply is a parameter of the handler that makes it.
- Server-side ordering by `created_at` (src/app/page.js:41) is not modelled. Fetched rows are shown in the order they arrive, and the timestamp is not kept in `Todo`.
- The `onAuthStateChange` subscription, its redirect and its unsubscribe (src/app/page.js:26-32) are not modelled. They are a callback registration tied to the component's lifetime.
- Asynchronous interleaving is not modelled, because each handler runs as one atomic step. In the source, a handler builds the next list from the `todos` captured at render time, so overlapping calls could lose updates. The session guard also does not await `fetchTodos`. `Page.Home.Mount` runs the fetch before clearing `loading`, which gives the same final state.
- Navigation is recorded only as the route passed to `router.push` (`redirectedTo`). Rendering, the loading screen and styling are not modelled.
- Console logging of errors is not modelled. Apart from the log line, a failed call has no effect.
- Page.Home.AddTodo: the insert reply is modelled as the one returned row. A successful reply with no rows, which would make the source prepend `undefined`, is not represented.
- Text.Trim: characters are Unicode scalar values rather than UTF-16 code units. Every white-space code point trim removes lies in the Basic Multilingual Plane, so the result is the same for well-formed text. A JavaScript string holding a lone surrogate has no counterpart here.
- Row-level ownership (a task is visible only to its owner) is not modelled. It is enforced by the backend's access rules, not by this code.
- The sign-in and sign-up screens (src/app/signin/page.js, src/app/signup/page.js) and the navigation bar (src/components/Navbar.js) are not modelled. Each is a thin wrapper around one auth call.
