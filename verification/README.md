# zen-routine-tracker: a verified model of the server core

This project models the Express/SQLite back end of zen-routine-tracker, a
personal task and habit tracker, together with two small client-side
transformations. The database is an in-memory store: each table is a map from
row id to row, with one AUTOINCREMENT counter per table. The schema's
constraints are invariants that every handler preserves:

- UNIQUE usernames
- the energy-level CHECK
- NOT NULL columns and defaults
- the foreign-key cascades
- one completion per habit and day

Each route handler is a method. It takes the authenticated caller, the
request fields and the current time, and it returns a status code and a JSON
body. Its postcondition gives the exact new state of the tables on every
path.

The modules follow the program's structure:

- `Schema` holds the rows and constraints of `src/server/database/schema.ts` and the cascades.
- `Store` holds the `Database` class: the tables, the counters and `Valid()`.
- `Credentials` covers `src/server/database/users.ts`.
- `Middleware` covers `src/server/middleware/auth.ts`.
- `AuthRoutes`, `UserRoutes`, `TaskRoutes` and `HabitRoutes` cover the four routers. `HabitRoutes` also holds the completion upsert that `POST /:id/complete` runs as one transaction.
- `HabitTracker` covers `toggleHabit` and `getCategoryColor`.
- `CalendarPage` covers the `YYYY-MM-DD` key and the per-day lookup.

Several supporting modules complete it:

- `Crypto` treats bcrypt and JSON Web Tokens as function values. It states what the model assumes of them as the predicates `HasherSound` (`compare(p, hash(q)) <==> p == q`) and `TokensSound` (a signed token verifies to its own claims for seven days, and is a non-empty word without spaces).
- `Http` covers JavaScript truthiness (`x || null`, `!x`), the 0/1 encoding of booleans and the response type.
- `Ordering` covers SQLite's binary text order and a generic `SELECT … WHERE … ORDER BY` method.
- `Wrappers` holds `Option` and `Result`.

## Model

| member | source | states |
|---|---|---|
| Schema.CascadeCompletions | src/server/database/schema.ts:46 | a completion survives exactly when its habit is not among the deleted ones, and survivors keep their ids and contents |
| Schema.RemoveCompletionsOn | src/server/routes/habits.ts:275-278 | after `DELETE … WHERE habit_id = ? AND completed_date = ?` no row for that habit and day is left, every other row is kept unchanged, and no row is added |
| Schema.HabitsOf | src/server/database/schema.ts:36 | the ids of exactly the habits a user owns (what `ON DELETE CASCADE` reaches) |
| Schema.DeleteHabitKeepsConsistent | src/server/database/schema.ts:46 | deleting a habit together with its cascaded completions keeps every schema invariant, and leaves no completion pointing at it |
| Schema.DeleteUserKeepsConsistent | src/server/database/schema.ts:24-36 | deleting a user along with that user's tasks, habits and their completions keeps every schema invariant |
| Store.Database.constructor | src/server/database/schema.ts:4-48 | an empty database satisfies the invariants, with every counter at 1 |
| Store.Database.DeleteUser | src/server/database/schema.ts:24-46 | removing a user cascades to exactly that user's tasks, that user's habits and those habits' completions, and keeps every invariant |
| Credentials.Strip | src/server/database/users.ts:96-97 | the record without its password keeps the id, username, is_admin and both timestamps |
| Credentials.StripIgnoresPassword | src/server/database/users.ts:96-97 | the stripped record is the same whatever the digest was, so nothing of the password reaches the caller |
| Credentials.GetUserByUsername | src/server/database/users.ts:44-50 | finds a row if and only if the name is taken. The row found carries that name, is a row of the table, and includes the password digest |
| Credentials.GetUserById | src/server/database/users.ts:53-59 | finds a row if and only if the id exists, and returns it without the password column |
| Credentials.ValidateCredentials | src/server/database/users.ts:81-98 | succeeds if and only if a user with that name has a digest the password matches. An unknown name and a wrong password both give the same null. On success the record is returned without its password |
| Credentials.CheckPassword | src/server/database/users.ts:84-97 | the second half of `validateCredentials`: a record comes back exactly when a row was found and the password matches its digest, and then it is that row without its password |
| Credentials.ValidateStoredPassword | src/server/database/users.ts:81-98 | the password a user's digest was made from validates to that user's public record, and any other password gives null |
| Credentials.CreateDefaultUser | src/server/database/users.ts:15-41 | with no users, inserts admin with the digest of "admin" and is_admin = 1. Otherwise it changes nothing, so a second call is a no-op. Afterwards there is always a user |
| Credentials.Spread | src/server/database/db.ts:58 | spreading the helper's `params` into the call succeeds exactly for an array, and passes its items in order |
| Credentials.BindNamed | src/server/database/users.ts:46-49 | a statement whose placeholders are all named binds only when its arguments are a single object holding every name, and then the object's fields are the bound values |
| Credentials.Bind | src/server/database/db.ts:55-70 | a helper handed a plain object throws the spread's error; otherwise binding succeeds exactly when the array holds one object with every placeholder name |
| Credentials.GetUserByUsernameWith | src/server/database/users.ts:44-50 | `getUserByUsername` through the helper: it throws exactly when binding fails, and otherwise finds a row exactly when the bound `:username` is a taken name, and that row carries the name |
| Credentials.GetUserByIdWith | src/server/database/users.ts:53-59 | `getUserById` through the helper: it throws exactly when binding fails, and otherwise finds the stripped row exactly when the bound `:id` is a stored id |
| Credentials.ValidateCredentialsWith | src/server/database/users.ts:81-98 | `validateCredentials` through the helper: it throws exactly when the lookup's binding fails, and otherwise succeeds exactly when the user named by the bound `:username` has a digest the password matches |
| Credentials.CredentialCallsAsWrittenThrow | src/server/database/users.ts:44-78 | handed the plain objects the code builds, the lookups by name and by id, credential validation and the user INSERT all throw the spread's error, whatever the table holds |
| Credentials.CredentialCallsBoundReachTable | src/server/database/users.ts:44-98 | when the same object reaches the statement whole, as its one argument, its fields fill the named placeholders: the lookups and validation answer exactly as `GetUserByUsername`, `GetUserById` and `ValidateCredentials` do, and the INSERT binds all three columns |
| Credentials.PositionalValuesDoNotBind | src/server/database/users.ts:44-50 | an array of plain values, or an empty one, does not fill the named `:username` placeholder, so only the object itself repairs the calls |
| Credentials.CreateUser | src/server/database/users.ts:62-78 | a taken name is a UNIQUE violation that changes nothing. Otherwise one row is stored with the digest (never the password), is_admin = 1 or 0, and the next id, and it is read back with its digest |
| Http.CallerId | src/server/routes/habits.ts:33-37 | `req.user?.id` read through `!userId`: no caller exactly when there is no user or its id is the falsy 0, and otherwise the user's id |
| Http.OrNull | src/server/routes/tasks.ts:84 | `x \|\| null` is null exactly for a missing or empty string, and the value itself otherwise |
| Http.NumberOrNull | src/server/routes/tasks.ts:84 | `n \|\| null` on a number is null exactly for a missing value or 0 |
| Http.FlagOf | src/server/routes/tasks.ts:129 | `b ? 1 : 0` is a 0/1 flag that is 1 exactly when b holds |
| Middleware.Split | src/server/middleware/auth.ts:25 | `split(' ')` yields at least one field, and no field contains the separator |
| Middleware.JoinSplit | src/server/middleware/auth.ts:25 | joining the fields of a split with the separator gives back the header |
| Middleware.SplitJoin | src/server/middleware/auth.ts:25 | splitting a join of separator-free fields gives back those fields |
| Middleware.ExtractToken | src/server/middleware/auth.ts:25-29 | a token exists exactly when the split has a second field, and it is that field `split(' ')[1]`, so it contains no space |
| Middleware.ExtractTokenSecondField | src/server/middleware/auth.ts:25 | for a header of space-free fields joined by single spaces, the token is the second field, whatever follows it |
| Middleware.Authenticate | src/server/middleware/auth.ts:17-46 | a falsy header, and a header whose second field is absent or empty, give 401 "No token provided". A non-empty token that fails verification gives 401 "Invalid token". The request goes on if and only if the token is non-empty and verifies, and then carries exactly the payload's id, username and isAdmin. The scheme word is never checked |
| Middleware.AuthenticateSignedToken | src/server/middleware/auth.ts:25-44 | a header `<word> <signed token>` lets the request through with the signed claims until the token expires, and gives 401 "Invalid token" afterwards |
| Middleware.HeaderWithoutSpace | src/server/middleware/auth.ts:25-29 | a non-empty header with no space has no second field, so it gives 401 "No token provided" |
| Middleware.RequireAdmin | src/server/middleware/auth.ts:49-59 | no user gives 401 and a user whose isAdmin is 0 gives 403. Otherwise the request goes on: exactly one of a response or next |
| AuthRoutes.Login | src/server/routes/auth.ts:13-47 | a falsy field gives 400 before any lookup. Otherwise the answer is 401 exactly when validation fails, and a validated user gets the session for that user's id, username and is_admin. A 200 carries the matching user's id, username and is_admin, and a token signed over the same three |
| AuthRoutes.SessionFor | src/server/routes/auth.ts:28-45 | the success answer is a 200 whose body shows exactly the given id, username and isAdmin beside the token signed for them |
| AuthRoutes.SessionTokenMatchesBody | src/server/routes/auth.ts:28-45 | with a sound token service, the session's token verifies for seven days to exactly the identity the body shows, and to nothing afterwards |
| AuthRoutes.LoginWithStoredPassword | src/server/routes/auth.ts:21-46 | logging in with the password a stored digest was made from opens a session for that user |
| AuthRoutes.LoginTokenAuthenticates | src/server/routes/auth.ts:28-36 | the token a login returns, sent as `Bearer <token>` before it expires, passes `authenticate` as the same user |
| AuthRoutes.Register | src/server/routes/auth.ts:50-92 | a falsy field gives 400 and a taken name gives 409, and both leave users unchanged. Otherwise exactly one non-admin row with the password digest is added, and the answer holds its id, username and isAdmin 0, without the digest, plus a token over them |
| UserRoutes.Me | src/server/routes/users.ts:11-23 | no caller id gives 401, and an id with no row gives 404. Otherwise 200 with the row from `getUserById`, which has no password |
| UserRoutes.GetMe | src/server/routes/users.ts:11-23 | a request `authenticate` halts gets that halt's own 401. An authenticated caller with id 0 gets 401 "Not authenticated", a caller whose row is missing gets 404 "User not found", and a caller with a row gets 200 with that row, without password |
| UserRoutes.ListUsers | src/server/routes/users.ts:26-30 | a request `authenticate` halts gets that halt's own 401, and an authenticated non-admin gets 403 "Admin rights required". The answer is 200 exactly when the user is an admin, and then the body is an empty list |
| UserRoutes.ListUsersWithSignedToken | src/server/routes/users.ts:26-30 | with a signed bearer token: 401 after expiry, 403 for a non-admin, and otherwise an empty list |
| Ordering.StrLeTotal | src/server/routes/habits.ts:43 | the binary text order compares any two strings |
| Ordering.StrLeTransitive | src/server/routes/habits.ts:43 | the binary text order is transitive |
| Ordering.StrLeAntisymmetric | src/server/routes/habits.ts:43 | two strings ordered both ways are equal |
| Ordering.InsertBySorted | src/server/routes/habits.ts:43 | inserting into a sorted listing keeps it sorted |
| Ordering.Select | src/server/routes/habits.ts:39-44 | the rows returned are sorted by the ORDER BY, each is a table row satisfying WHERE, every such row appears, and none appears twice |
| TaskRoutes.TaskBeforeIsTotalPreorder | src/server/routes/tasks.ts:37 | `ORDER BY due_date, created_at` (NULL first) is total and transitive |
| TaskRoutes.OwnedTask | src/server/routes/tasks.ts:52-57 | the lookup `WHERE id = ? AND user_id = ?` finds the row exactly when it exists and the caller owns it |
| TaskRoutes.ListTasks | src/server/routes/tasks.ts:26-41 | no caller gives 401. Otherwise 200 with exactly the caller's tasks, each once, ordered by due date then creation time |
| TaskRoutes.GetTask | src/server/routes/tasks.ts:44-63 | no caller gives 401. A missing task and another user's task both give the same 404. Otherwise 200 with the row |
| TaskRoutes.CreateTask | src/server/routes/tasks.ts:66-96 | no caller gives 401 and a falsy title gives 400, and both insert nothing. Otherwise one row is inserted at the next id, owned by the caller and not completed, with description, due date and energy level nulled when falsy, and the answer is 201. An energy level outside 1..5, or a caller with no user row, gives 500 with no change |
| TaskRoutes.UpdateTask | src/server/routes/tasks.ts:99-139 | no caller gives 401, and a missing or foreign task gives 404, before any change. The title is not validated: a missing title or a bad energy level gives 500 with no change. Otherwise only that row changes, with title, description, due date, is_completed = 0/1 and energy level replaced |
| TaskRoutes.DeleteTask | src/server/routes/tasks.ts:142-168 | no caller gives 401, and a missing or foreign task gives 404 with no change. Otherwise exactly that task is removed and the answer is 204 |
| HabitRoutes.NameBeforeIsTotalPreorder | src/server/routes/habits.ts:43 | `ORDER BY name` is total and transitive |
| HabitRoutes.LaterDateFirstIsTotalPreorder | src/server/routes/habits.ts:73 | `ORDER BY completed_date DESC` is total and transitive |
| HabitRoutes.OwnedHabit | src/server/routes/habits.ts:58-62 | the ownership lookup finds the row exactly when it exists and the caller owns it |
| HabitRoutes.ListHabits | src/server/routes/habits.ts:32-47 | no caller gives 401. Otherwise 200 with exactly the caller's habits, each once, ordered by name |
| HabitRoutes.GetHabit | src/server/routes/habits.ts:50-80 | no caller gives 401, and a missing or foreign habit gives 404. Otherwise 200 with the habit and exactly its completions, latest date first |
| HabitRoutes.CreateHabit | src/server/routes/habits.ts:83-113 | no caller gives 401 and a falsy name gives 400, and both insert nothing. Otherwise one active habit owned by the caller is inserted at the next id, with its description nulled when falsy, and the answer is 201. A caller with no user row gives 500 |
| HabitRoutes.UpdateHabit | src/server/routes/habits.ts:116-158 | ownership is checked before the name, so a foreign habit with no name gives 404, not 400. On success only that row changes: name, description or null, and is_active = 0/1 |
| HabitRoutes.DeleteHabit | src/server/routes/habits.ts:161-187 | no caller gives 401, and a missing or foreign habit gives 404 with no change. Otherwise the habit and, by cascade, its completions are removed, and the answer is 204 |
| HabitRoutes.FindCompletion | src/server/routes/habits.ts:216-219 | the lookup by (habit, date) finds a matching row if and only if one exists |
| HabitRoutes.Upsert | src/server/routes/habits.ts:214-245 | the day's row carries the habit, the date and the new notes. An existing completion changes only its notes, in place under its own key; otherwise a new row with the fresh id and `now` is added under that id |
| HabitRoutes.UpsertEffect | src/server/routes/habits.ts:214-245 | after the upsert exactly one completion exists for (habit, date), and its notes are the new notes. An existing row keeps its id and creation time; otherwise the row is new, at the fresh id and created `now`. All other completions are untouched, and the one-per-day UNIQUE rule still holds |
| HabitRoutes.UpsertTwice | src/server/routes/habits.ts:216-230 | completing the same day twice keeps the first completion's id, and the second notes win: the table equals one upsert with the last notes |
| HabitRoutes.CompleteHabit | src/server/routes/habits.ts:190-252 | no caller gives 401. A falsy date gives 400 before ownership is checked, and then a missing or foreign habit gives 404, all without change. Otherwise the completions become the upsert of (habit, date) with `notes \|\| null`, the counter moves only on insert, and both branches answer 201 with the day's row |
| HabitRoutes.UncompleteHabit | src/server/routes/habits.ts:255-285 | no caller gives 401, and a missing or foreign habit gives 404, without change. Otherwise every completion for that habit and date is removed, and the answer is 204 even when none existed |
| HabitTracker.Flip | src/components/habits/HabitTracker.tsx:74-78 | the completion flag flips, the streak rises by one when the habit becomes completed and falls by one when it becomes uncompleted, and id, name and category stay the same |
| HabitTracker.ToggleHabit | src/components/habits/HabitTracker.tsx:71-81 | same length and order. The habit with that id is flipped and every other habit is unchanged |
| HabitTracker.ToggleTwice | src/components/habits/HabitTracker.tsx:76-77 | toggling the same id twice restores the list |
| HabitTracker.ToggleUnknownId | src/components/habits/HabitTracker.tsx:72-80 | an id no habit carries leaves the list unchanged |
| HabitTracker.ToggleAllKeepsStreak | src/components/habits/HabitTracker.tsx:77 | any sequence of toggles keeps "streak = starting streak + (completed ? 1 : 0)" |
| HabitTracker.StreakInvariant | src/components/habits/HabitTracker.tsx:25-66 | from the sample habits, all uncompleted, each streak is its sample streak plus one exactly while completed, whatever was clicked |
| HabitTracker.CategoryColor | src/components/habits/HabitTracker.tsx:83-86 | the color of the first category with that id, or "text-gray-500" when there is none or its color is empty. Never empty |
| HabitTracker.GetCategoryColor | src/components/habits/HabitTracker.tsx:15-22 | each of the five categories gets its own color, and any other id gets "text-gray-500" |
| CalendarPage.NumberToString | src/pages/Calendar.tsx:39 | `String(n)` is non-empty and starts with '-' exactly for a negative n. The rest is decimal digits with no leading zero, whose value is the magnitude of n, so the string is the canonical one |
| CalendarPage.NumberToStringInjective | src/pages/Calendar.tsx:39 | two integers with the same `String` are equal |
| CalendarPage.PadStart | src/pages/Calendar.tsx:39 | `padStart(width, fill)` has length max(length, width) |
| CalendarPage.TwoDigits | src/pages/Calendar.tsx:39 | a field padded to width 2 is at least two characters long |
| CalendarPage.FormattedDate | src/pages/Calendar.tsx:38-40 | the key is "" exactly when no date is selected |
| CalendarPage.ParseDecimalString | src/pages/Calendar.tsx:39 | `String(n)` of a natural number reads back as n |
| CalendarPage.PadStartPads | src/pages/Calendar.tsx:39 | `padStart(width, fill)` gives a string of length max(length, width) that ends with the original and starts with fill characters |
| CalendarPage.TwoDigitField | src/pages/Calendar.tsx:39 | for 1..31 the padded field is exactly two digits and reads back as the number |
| CalendarPage.FormattedDateShape | src/pages/Calendar.tsx:38-39 | for a four-digit year, month index 0..11 and day 1..31 the key is 10 characters, with '-' at positions 4 and 7 |
| CalendarPage.DateKeyRoundTrip | src/pages/Calendar.tsx:38-39 | the key is year, '-', month index + 1, '-', day: parsing it back gives the same date, so distinct dates have distinct keys |
| CalendarPage.SelectedDateData | src/pages/Calendar.tsx:43 | the entry stored under the key, or empty task and habit lists when there is none |
| CalendarPage.SelectedDateFindsOwnEntry | src/pages/Calendar.tsx:37-43 | for any years, month indexes 0..11 and days 1..31, looking up the selected date in data keyed by a formatted date finds the entry exactly when the two dates are equal |
| CalendarPage.DateKeyInjective | src/pages/Calendar.tsx:38-40 | for any years, month indexes 0..11 and days 1..31, two dates share a key exactly when they are equal |
| CalendarPage.NoDateSelected | src/pages/Calendar.tsx:38-43 | with no selected date the key is "" and the page shows no tasks and no habits |
| CalendarPage.SampleDaySelected | src/pages/Calendar.tsx:10-43 | selecting 15 July 2023 (month index 6) finds that day's sample entry |

## Left out

- getUserByUsername, getUserById, createUser and createDefaultUser: the model binds their parameters by name, as the statements' `:name` placeholders intend. As written, they hand the query helpers a plain object, and the helpers spread it into an argument list. The consequences are modelled only at this level (see Findings). The handlers and `CreateUser`/`CreateDefaultUser` assume the intended binding.
- Table creation in `src/server/database/db.ts` (lines 36-41 hand all CREATE statements to a single `prepare`) is not part of this model. The model starts from the created tables.
- The `is_admin DEFAULT 0` of `users` is never exercised, because every insert supplies `is_admin`.
- `src/server/database/db.ts` is not part of this model beyond its effect. Each `query`, `queryOne` and `execute` is a read or write of the table maps. `transaction` is the single body of `CompleteHabit`.
- `CURRENT_TIMESTAMP` becomes an integer `now` passed to each handler. `last_insert_rowid()` becomes the table's counter. The counter is never reused, as with AUTOINCREMENT.
- bcrypt and JSON Web Tokens are foreign cryptography. They are function values with stated assumptions (`HasherSound`, `TokensSound`), and the salt and the signing time are parameters. Nothing shows that a real token service satisfies `TokensSound`. `HasherSound` is also stronger than bcrypt: bcrypt reads only the first 72 bytes of a password, so two passwords that share those 72 bytes match the same digest. `Credentials.ValidateStoredPassword` and `AuthRoutes.LoginWithStoredPassword`, which say that every other password is refused, hold only under that assumption.
- A token's `exp` check is the only expiry modelled. The signing secret, clock skew and malformed payloads are not.
- Express plumbing is left out: `Router`, `res.status().json()`, `next()` as a call, and the `parseInt` of path parameters. Path ids arrive as integers, and a gate returns `Halt(response)` or `Next(user)`.
- JavaScript truthiness covers only the values the model's types carry. A request string is `Option<string>`, and falsy means missing or empty. `isCompleted` and `isActive` arrive as booleans. A number is falsy only at 0.
- The `key_value_store` table in `src/server/database/schema.ts` is used by none of the modelled handlers.
- SQLite column affinity and type coercion are not modelled. For example, a date string stored in a column declared as DATETIME is kept as text. Likewise, in `GetUserByUsernameWith` and `GetUserByIdWith` a number bound to `:username` or a string bound to `:id` matches no row.
- Text ordering is SQLite's default BINARY collation over `char`. Rows that tie in ORDER BY come out in some order the model does not fix, because SQLite does not fix it either.
- `AuthRoutes.Register`: the `!user` branch that answers 500 "Failed to create user" cannot be reached in the model. `createUser` reads back the row it has just inserted, so the lookup succeeds. Failures other than a UNIQUE violation are not modelled, so the 500 "Server error" answer is not reachable either.
- The UPDATE statements in `PUT /:id` also filter on `user_id`. The model checks ownership first and then updates the row by id, which has the same effect.
- `src/services/db-service.ts`, `src/hooks/use-auth.tsx` and `src/hooks/use-db-init.ts` are client network, storage and retry code, and are not part of this model.
- The rendering in `src/components/habits/HabitTracker.tsx` and `src/pages/Calendar.tsx` is left out: icons, the progress-bar width (floating point), `toLocaleDateString`, and tabs. The JS `Date` is replaced by integer year, month index and day.
- `CalendarPage.FormattedDateShape` and `CalendarPage.DateKeyRoundTrip` are stated only for four-digit years. For other years `String(year)` has another length, and `FormattedDate` still computes that key.
- Server start-up (`src/server/index.ts`), the layout component and the build and installer scripts are outside the core.

## Findings

| source | as written | input that shows it | evidently intended | confidence | as-written member | corrected member |
|---|---|---|---|---|---|---|
| src/server/database/users.ts:44-78 | `getUserByUsername`, `getUserById`, `createUser` and `createDefaultUser` pass `{ username }`, `{ id }` or `{ username, password, is_admin }` to `queryOne`/`execute`. Those call `statement.get(...params)` / `statement.run(...params)` (db.ts:58, 69). Spreading a plain object throws a TypeError, so login, `/me` and start-up on an empty table throw, and register answers 500 "Server error" | any call, e.g. `getUserByUsername(db, "admin")` | the object reaches the statement whole, as its one argument, so its fields fill the `:username`, `:id`, `:password` and `:is_admin` placeholders and the lookups answer from the table | not executed | Credentials.CredentialCallsAsWrittenThrow | Credentials.CredentialCallsBoundReachTable |
