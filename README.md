# To-do list stores, modelled in Dafny

This project models the core of a command-line to-do list application. Users register and log in with a username and a password. They then add to-do items, and each item belongs to its owner. The application keeps two record stores. Each store holds its whole collection in one JSON document, which every operation loads, changes in memory and writes back.

- `models.dfy` (module `Models`): the `TodoItem` record with its two closed enumerations, `Priority` (HIGH, MID, LOW) and `Status` (PENDING, COMPLETED). It also holds the strict parse of a priority tag, which is what the enum constructor does.
- `todos.dfy` (module `Todos`): `TodoManager`, a class whose `todos` field is the stored collection. It also holds the owner filter `UserTodos` and the lemmas about it.
- `auth.dfy` (module `Auth`): `AuthManager`, a class whose `users` field is the list of `{username, password}` records. It also holds the two `any(...)` scans as recursive functions.
- `cli.dfy` (module `Cli`): the rule by which the add-todo command builds a new item. The item is pending, is owned by the current user, and takes the parsed priority, or MID when the input is not a priority tag.

The document is abstracted away. Loading reads the class's sequence field, and saving assigns it. A constructor receives the document's contents, or `None` when the document does not exist yet, in which case the store starts empty.

## Model

| member | source | states |
|---|---|---|
| Models.ParsePriority | tests/test_models.py:23-32 | a parsed priority's tag is the input string; a string that is no priority's tag is refused |
| Models.ParsePriorityRoundTrip | tests/test_models.py:23-27 | each of HIGH, MID and LOW parses back from its own tag |
| Models.ParsePriorityRejectsOthers | tests/test_models.py:29-32 | any string other than the three tags fails to parse |
| Todos.UserTodos | src/main.py:82-87 | the owner filter returns exactly the stored items whose owner is the given user, and is no longer than the collection |
| Todos.UserTodosConcat | src/main.py:85-87 | filtering the concatenation of two collections yields the filter of the first followed by the filter of the second |
| Todos.UserTodosAppend | src/main.py:75-87 | after an item is appended, its owner's list is the old list followed by that item, and every other user's list is unchanged |
| Todos.UserTodosFollowIndices | src/main.py:85-87 | from any starting position, the filter's k-th result is the stored item at the k-th owned position, positions ascend, and none is skipped |
| Todos.UserTodosInStorageOrder | src/main.py:82-87 | the filter picks the owned items at strictly increasing storage positions and misses no owned item, so storage order is kept |
| Todos.TodoManager.constructor | src/main.py:55-63 | a store whose document is missing starts with the empty collection; otherwise it holds the stored collection |
| Todos.TodoManager.AddTodo | src/main.py:75-80 | returns true; the collection becomes the old one with the item appended; earlier items are unchanged and in order; each owner's filtered list grows by the item only for the item's owner |
| Todos.TodoManager.GetUserTodos | src/main.py:82-87 | reads without changing the collection and returns exactly the owned items, which is the owner filter of the stored collection |
| Auth.UsernameTaken | src/main.py:37 | true exactly when some stored record carries the username |
| Auth.CredentialsMatch | src/main.py:46-49 | true exactly when a record equal to the username and password pair is stored |
| Auth.AppendFreshKeepsUnique | src/main.py:37-39 | appending a record under a username that is not taken keeps all usernames distinct |
| Auth.LoginChecksTheOneRecord | src/main.py:43-49 | with distinct usernames, login under a stored username succeeds exactly when the password equals that record's password |
| Auth.UsernameAloneIsNotEnough | src/main.py:46-49 | for every store: when each record under the username has a different password, or no record has the username, the credentials do not match |
| Auth.AuthManager.constructor | src/main.py:14-22 | a store whose document is missing starts with no users; otherwise it holds the stored list |
| Auth.AuthManager.Register | src/main.py:34-41 | refuses and changes nothing when the username is taken; otherwise appends exactly the new record and returns true, after which login with that pair succeeds; distinct usernames stay distinct |
| Auth.AuthManager.Login | src/main.py:43-49 | true exactly when some stored record matches both username and password; reads without changing the list |
| Cli.PriorityOrDefault | src/main.py:180-184 | the result's tag is the input when the input is a priority tag, and MID when the input is no priority's tag |
| Cli.NewTodo | src/main.py:186-192 | the new item is PENDING, owned by the current user, without due date, with the given title, details, id and timestamps, and with the parsed-or-MID priority |
| Cli.HandleAddTodo | src/main.py:172-195 | the store gains exactly the built item at its end, and the current user's list is the old list followed by that item |

## Left out

- File and JSON I/O: opening, `json.load`, `json.dump` with two-space indentation and the existence check are not modelled; the document is the class's sequence field.
- `TodoItem.to_dict` and `TodoItem.from_dict`: the store holds `TodoItem` values directly, so serialisation is taken to be lossless. `src/models.py` is not part of this model.
- Undecodable documents: because a stored collection is typed `seq<TodoItem>`, the model cannot hold a record that fails to decode, so it does not express the two errors `get_user_todos` raises on one: a record without an `"owner"` key (KeyError at src/main.py:86), and an owned record whose priority or status is not a tag (ValueError from `from_dict`).
- Identifier generation (random UUIDs) and clock timestamps: the id, `created_at` and `updated_at` are opaque strings supplied by the caller of `Cli.NewTodo`, so id uniqueness is not proved.
- The trimming and upper-casing of typed input: `Cli.PriorityOrDefault` takes the already normalised string.
- The menu loops, login and signup prompting, printed messages and `exit()`: they are interactive glue. The current user is a parameter of `Cli.HandleAddTodo`.
- Viewing todos: listing is formatting only.
- Rejecting an empty title: the code does not do it, so the model does not either.
- Editing, looking up by id and marking complete: these operations are not in the modelled code.
- Password hashing and concurrent writers: passwords are stored and compared as plain text, and there is a single writer.
