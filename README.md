# Task list state of the TaskManager component

This project models the task-list state machine of the React component
`TaskManager` in a to-do client. The component holds two pieces of state:
an ordered list of task records `{_id, title, completed}` and the text of
the new-task input. Four handlers change them:

- `loadTasks` fetches the list and replaces the whole collection.
- `handleAdd` refuses a blank draft. Otherwise it creates the task and puts
  the server's record in front.
- `handleDelete` deletes by id and then filters the list.
- `toggleComplete` asks for the negated completion flag and then swaps in the
  server's record.

Every handler applies its change only after the awaited service call
resolves. A rejected call leaves the state untouched.

The project has three modules:

- `JsTrim` (`js_trim.dfy`) defines JavaScript's `String.prototype.trim` over
  the ECMAScript white-space and line-terminator code points, and the blank
  test `!s.trim()`.
- `TaskList` (`task_list.dfy`) defines the `Task` record and the three list
  expressions the handlers build the next list with: prepend, remove by id
  (`filter`) and replace by id (`map`). It also holds the lemmas about them:
  order, uniqueness of ids, and exact effect when ids are unique.
- `TaskManagerState` (`task_manager.dfy`) defines the class `TaskManager`
  with the fields `tasks` and `newTask` and one method per handler.

The task service is not modelled. Each method takes `reply`, the outcome the
awaited call settles with (`Ok(value)` or `Fail`). It returns the `Request`
it issued, or `None` when it issued none. The methods `AddSession` and
`ToggleDeleteSession` replay short sessions: load, blank add, failed add and
add; then toggle, failed delete and delete. Their assertions show what a
caller can derive from the contracts.

Three behaviours of the handlers are worth noting:

- `loadTasks` has no `catch`. A rejected fetch becomes an unhandled
  rejection, and the list stays unchanged because `setTasks` is never
  reached.
- A successful toggle stores whatever record the server returns. It does not
  flip the flag locally. `ToggleFlipsOnlyTarget` shows that the toggle flips
  exactly one flag when the ids are unique and the server echoes the task
  with only the flag negated.
- A successful delete drops every element with the id. The length drops by
  exactly one when the ids are unique (`CountUniqueId`, `RemoveUniqueId`).

## Model

| member | source | states |
|---|---|---|
| JsTrim.LeadingWhitespace | client/src/components/TaskManager.jsx:24 | the count of leading characters `trim` strips: all of them are white space and the next one is not |
| JsTrim.TrailingWhitespace | client/src/components/TaskManager.jsx:24 | the count of trailing characters `trim` strips: all of them are white space and the one before them is not |
| JsTrim.Trim | client/src/components/TaskManager.jsx:24 | `newTask.trim()` is empty exactly when every character of the draft is white space; a non-empty result neither starts nor ends with white space |
| JsTrim.IsBlank | client/src/components/TaskManager.jsx:24 | `!newTask.trim()`: a draft is refused exactly when every one of its characters is white space |
| JsTrim.TrimStripsOnlyWhitespace | client/src/components/TaskManager.jsx:24 | the trimmed draft is one contiguous slice of the draft, and only white space lies outside it |
| JsTrim.TrimIdempotent | client/src/components/TaskManager.jsx:24 | trimming a trimmed draft changes nothing |
| TaskList.CountId | client/src/components/TaskManager.jsx:41 | the number of positions holding an id is at most the length |
| TaskList.CountIdZero | client/src/components/TaskManager.jsx:41 | no position holds the id exactly when the id is absent from the list |
| TaskList.RemoveById | client/src/components/TaskManager.jsx:41 | after `tasks.filter(t => t._id !== id)` no element carries the id, and the length is the old length minus the number of matches |
| TaskList.RemoveByIdMembers | client/src/components/TaskManager.jsx:41 | the filtered list holds exactly the old elements whose id differs |
| TaskList.RemoveByIdConcat | client/src/components/TaskManager.jsx:41 | filtering a concatenation is the concatenation of the filtered parts |
| TaskList.RemoveAbsentId | client/src/components/TaskManager.jsx:41 | filtering out an id the list does not hold returns the list unchanged |
| TaskList.RemoveByIdKeepsOrder | client/src/components/TaskManager.jsx:41 | the kept elements are a subsequence of the old list, so their relative order is preserved |
| TaskList.RemoveUniqueId | client/src/components/TaskManager.jsx:40-41 | with unique ids, deleting the id at position k yields the list without position k, one element shorter |
| TaskList.CountUniqueId | client/src/components/TaskManager.jsx:40-41 | with unique ids, an id present in the list occurs exactly once, so a confirmed delete shortens the list by exactly one |
| TaskList.RemoveByIdKeepsUniqueIds | client/src/components/TaskManager.jsx:41 | filtering never introduces duplicate ids |
| TaskList.ReplaceById | client/src/components/TaskManager.jsx:51 | `tasks.map(t => t._id === id ? updated : t)` has the same length, holds `updated` at every position with that id and leaves every other position untouched |
| TaskList.ReplaceAbsentId | client/src/components/TaskManager.jsx:51 | replacing an id the list does not hold returns the list unchanged |
| TaskList.ReplaceUniqueId | client/src/components/TaskManager.jsx:51 | with unique ids, the replacement is a single-position update at the position of that id |
| TaskList.ReplaceSameIdKeepsIds | client/src/components/TaskManager.jsx:50-51 | when the server's record keeps the id it replaces, the set of ids is unchanged and uniqueness is kept |
| TaskList.ToggleFlipsOnlyTarget | client/src/components/TaskManager.jsx:48-51 | with unique ids and a server that echoes the task with its flag negated, toggling flips that one flag and leaves every other task in place |
| TaskList.PrependKeepsUniqueIds | client/src/components/TaskManager.jsx:30 | `[task, ...tasks]` has unique ids exactly when `tasks` has them and the new id is not among them |
| TaskManagerState.BlankExamples | client/src/components/TaskManager.jsx:24-27 | a draft of three spaces is refused as blank; `"walk dog"` is not |
| TaskManagerState.TaskManager.constructor | client/src/components/TaskManager.jsx:11-12 | the component starts with no tasks and an empty draft |
| TaskManagerState.TaskManager.SetNewTask | client/src/components/TaskManager.jsx:66-68 | typing sets the draft, at most 100 characters, and leaves the list alone |
| TaskManagerState.TaskManager.LoadTasks | client/src/components/TaskManager.jsx:14-17 | issues the fetch; on success the list is the fetched sequence in the returned order; on failure it is unchanged; the draft is never touched |
| TaskManagerState.TaskManager.HandleAdd | client/src/components/TaskManager.jsx:23-36 | a blank draft issues no call and changes nothing; otherwise the raw, untrimmed draft is sent as the title; on success the list is the returned task followed by the old list and the draft is `""`; on failure list and draft are unchanged; unique ids are kept when the new id is fresh |
| TaskManagerState.TaskManager.HandleDelete | client/src/components/TaskManager.jsx:38-46 | issues the delete for the id; on success the id is gone, the others keep their order and the length drops by the number of matches; on failure the list is unchanged; unique ids are kept |
| TaskManagerState.TaskManager.ToggleComplete | client/src/components/TaskManager.jsx:48-56 | requests `completed = !task.completed` for the task's id; on success the length is kept, every position with that id holds the server's record and every other position is unchanged; on failure the list is unchanged |

## Left out

- Toast notifications (lines 25, 32, 34, 42, 44, 52, 54) are not modelled. They are user-facing messages with no effect on the state.
- The HTTP calls of `client/src/services/taskService.js` and its token read from browser storage are not modelled. Each call is represented only by the `Request` a handler issues and the `reply` it receives.
- Interleaving of overlapping handlers is not modelled. In the component, each handler reads the `tasks` snapshot captured at render time, and concurrent completions race. The model treats each handler as one atomic step.
- The mount-time call of `loadTasks` from `useEffect` (lines 19-21) is not a separate member. It is the constructor followed by `LoadTasks`.
- The logout button (lines 102-110), the JSX rendering and the animations are not modelled. They only do browser-storage writes, navigation and presentation.
- Task ids are modelled as strings compared by value. The code's `!==` and `===` would also distinguish ids of different JavaScript types, which the service never returns.
- Characters are Unicode scalar values. The input's `maxLength` counts UTF-16 code units. The two agree for every character that `trim` can remove, but not for the length bound on text outside the Basic Multilingual Plane.
