# Habit tracker: streaks, weekly gold, and the page's local copy

This project models the core of a small habit-tracking web application in Dafny.

- A **user** document holds `gold` and an ordered, embedded array of **habits**.
- Each habit has an `id`, a `name`, a `streak` and a nullable `lastCompleted` date string.
- The server's user routes create a user, append a habit, and update a habit's streak.
- An update counts only when the supplied date differs from the stored one.
- When the new streak is a multiple of seven, the user earns 10 gold.
- The habit list page makes its own optimistic copy of the habit.
  It decides whether to ask the user to confirm a second mark on the same day.
  It shows confetti on weekly streaks and filters deleted habits out of its list.

Modules:

- `Models` (`models.dfy`): the user and habit records. It states their required fields and their defaults.
  A required string must be present and non-empty, as the schema's `required` demands.
- `Rules` (`rules.dfy`): the transitions the handlers apply to one loaded document, as functions.
  Beside them sit the lemmas about the gold reward, idempotence and the position of the updated habit.
- `Server` (`server.dfy`): the handlers as they run.
  - `User` is a loaded document; its methods mutate its fields in place and are proved against `Rules`.
  - `Store` maps user ids to saved documents. Each handler loads a `User`, mutates it, and saves the whole record.
  - `Store.Valid()` keeps three facts: required fields present, emails unique, and gold equal to
    10 × Σ⌊streak / 7⌋ over the user's habits.
- `HabitList` (`habit_list.dfy`): the page's state computations, as functions of the page's user,
  the clicked habit id, the ISO timestamp, the user's answer to the confirm dialog and the server's reply.
- `Sync` (`sync.dfy`): how the page's copy and the server's saved document agree and disagree.

The page and the server disagree, and `Sync` states where:

- On a second mark on the same day, the page sends `forceIncrement: true` and bumps its own copy.
- The server never reads `forceIncrement`. It leaves the habit unchanged when the date equals the stored one.
- The page never updates its copy of `gold`.
- The page rewrites every habit with the clicked id; the server updates only the first.

The routes have no same-day conflict error, no server-side forced re-increment, and no history,
expiry or completion-date log; none of these is modelled.

## Model

| member | source | states |
|---|---|---|
| `Models.CastHabit` | backend/models/models.js:3-8 | a habit is accepted exactly when `id` and `name` are present and non-empty; a missing `streak` becomes 0; `lastCompleted` defaults to null |
| `Models.CastUser` | backend/models/models.js:10-16 | a user is accepted exactly when name, email and password are non-empty and every embedded habit is valid; missing gold becomes 0 and missing habits become the empty array |
| `Rules.NewUser` | backend/routes/userRoutes.js:8-9 | creating a user succeeds exactly when the three required fields are given, and yields gold 0 and no habits |
| `Rules.FirstIndex` | backend/routes/userRoutes.js:46 | the position of the first habit with the id: it carries the id and no earlier one does; none exactly when no habit carries it |
| `Rules.AddHabit` | backend/routes/userRoutes.js:27-28 | adding a habit appends exactly one habit at the end, with the given id, streak 0 and lastCompleted null; the earlier habits, gold and every other field are unchanged; a missing name is a validation error |
| `Rules.Complete` | backend/routes/userRoutes.js:49-51 | the streak grows by exactly one iff the supplied date differs from the stored one, in either direction; it is unchanged iff they are equal; id and name are kept |
| `Rules.UpdateStreak` | backend/routes/userRoutes.js:40-54 | an unknown habit id is NotFound; otherwise only the first matching habit changes, by one completion step; an equal date returns the user and habit unchanged whatever the force flag; gold grows by 10 exactly when the streak moved to a multiple of 7 |
| `Rules.NewUserBalanced` | backend/routes/userRoutes.js:9 | a new user's gold equals 10 × the whole weeks of its (empty) streaks |
| `Rules.AddHabitKeepsBalance` | backend/routes/userRoutes.js:27-28 | appending a habit keeps gold equal to 10 × Σ⌊streak/7⌋ |
| `Rules.UpdateKeepsBalance` | backend/routes/userRoutes.js:49-53 | an update leaves gold − 10 × Σ⌊streak/7⌋ unchanged: every reward matches a week completed |
| `Rules.UpdateKeepsFirstIndex` | backend/routes/userRoutes.js:46-51 | after an update the same habit is still the first one with its id |
| `Rules.UpdateStep` | backend/routes/userRoutes.js:49-53 | one update never lowers the target streak, touches no other habit, and changes gold by 10 × the change in ⌊streak/7⌋ |
| `Rules.RepeatIsNoOp` | backend/routes/userRoutes.js:40-53 | sending the same date again returns the same user and habit unchanged, with any force flag |
| `Rules.GoldAcrossUpdates` | backend/routes/userRoutes.js:46-53 | across any sequence of updates to one habit, gold gained = 10 × (⌊s₁/7⌋ − ⌊s₀/7⌋); the habit keeps its position and no other habit changes |
| `Server.FindHabit` | backend/routes/userRoutes.js:46 | the loop finds the first habit with the id, or reports that none has it |
| `Server.User.Load` | backend/routes/userRoutes.js:24 | the loaded object holds exactly the stored document |
| `Server.User.AddHabit` | backend/routes/userRoutes.js:27-28 | pushing the new habit leaves the object holding `Rules.AddHabit`'s document; on a validation error the object stays as it was (the handler pushes before the failing save, but nothing is stored either way) |
| `Server.User.UpdateStreak` | backend/routes/userRoutes.js:46-54 | the in-place increment and reward leave the object holding `Rules.UpdateStreak`'s document, and answer its habit or its NotFound |
| `Server.Store.CreateUser` | backend/routes/userRoutes.js:7-16 | a new user is saved with gold 0 and no habits exactly when the required fields are given and the email is not taken; otherwise nothing is saved |
| `Server.Store.AddHabit` | backend/routes/userRoutes.js:19-35 | an unknown user is NotFound and nothing changes; otherwise the user is re-saved as `Rules.AddHabit` computes and no other user changes; the store invariant holds |
| `Server.Store.UpdateStreak` | backend/routes/userRoutes.js:38-61 | an unknown user or habit is NotFound and nothing changes; otherwise the user is re-saved as `Rules.UpdateStreak` computes; the gold invariant holds |
| `Server.Store.SaveKeepsValid` | backend/models/models.js:12 | re-saving a valid, gold-balanced user without changing its email keeps the whole store valid: required fields, emails unique across users, gold balanced |
| `HabitList.DatePart` | habittracker/src/components/HabitList.jsx:42 | "today" is the prefix of the ISO timestamp up to, and without, its first 'T' |
| `HabitList.MarkedCopy` | habittracker/src/components/HabitList.jsx:51-55 | the local copy has one more day of streak and today as lastCompleted, same id and name |
| `HabitList.ReplaceById` | habittracker/src/components/HabitList.jsx:76-78 | the list keeps its length and order; every habit with the id becomes the updated copy and every other one stays |
| `HabitList.RemoveById` | habittracker/src/components/HabitList.jsx:96 | no habit with the id remains, and a habit remains exactly when it was there with another id |
| `HabitList.RemoveByIdAppend` | habittracker/src/components/HabitList.jsx:96 | filtering distributes over concatenation, so the kept habits stay in their relative order |
| `HabitList.RemoveByIdKeepsOthers` | habittracker/src/components/HabitList.jsx:96 | every habit with another id keeps its number of occurrences; without the id the list is unchanged |
| `HabitList.RequestFor` | habittracker/src/components/HabitList.jsx:61-64 | the request carries today as lastCompleted, and forceIncrement is true exactly when the habit was already completed today |
| `HabitList.Celebrates` | habittracker/src/components/HabitList.jsx:69 | confetti exactly when the returned streak is a multiple of 7, and always when the reply has no habit |
| `HabitList.HandleIncrement` | habittracker/src/components/HabitList.jsx:38-86 | no user or an unknown habit sends nothing and changes nothing; a same-day mark without confirmation sends nothing; an answered request bumps the local copy whatever the reply; a thrown request changes nothing |
| `HabitList.HandleDelete` | habittracker/src/components/HabitList.jsx:88-104 | unless the request throws, the local list becomes the filtered list: every habit with the id leaves it, every other habit stays as often as it was there and in its relative order, and the rest of the user is kept |
| `HabitList.MarkDoneTouchesOneHabit` | habittracker/src/components/HabitList.jsx:74-79 | with distinct ids, marking done rewrites only the clicked habit, keeps the list's length and order, and leaves the local gold as it was |
| `Sync.MarkDoneAgainstServer` | habittracker/src/components/HabitList.jsx:51-78 | against the server's answer, the page's list equals the saved list iff the habit was not completed today; on a same-day mark the server changes nothing; the page's gold is stale exactly when a reward was paid |
| `Sync.DuplicateIdsDiverge` | habittracker/src/components/HabitList.jsx:76-78 | with a repeated id, the server bumps only the first habit while the page overwrites the later copy too |

## Left out

- Express routing, HTTP status codes and the JSON responses: each handler returns a `Result` whose error is one of `UserNotFound`, `HabitNotFound`, `ValidationFailed` or `DuplicateEmail`. The last two stand for the save failures that the handlers answer with status 500. An error saves nothing.
- Server.Store.AddHabit, Server.Store.UpdateStreak: each handler's load, mutation and save run as one step, so requests for one user are modelled as serialized. In the routes, `findById` and `save` are separated by `await`, and two interleaved requests for the same user can both save from the same loaded `gold`, losing a reward. `Store.Valid()`'s gold balance holds only under this serialization.
- Mongoose persistence (`findById`, `save`) is a `Store` of documents; loading is `User.Load` and saving replaces the stored document.
- Server.Store.CreateUser: the new document id is a parameter required to be unused, standing for the database's generated id.
- The schema's `createdAt`/`updatedAt` timestamps are not modelled (they come from the clock).
- The habit id from `Date.now().toString()` is a parameter; it is not guaranteed unique, which `Sync.DuplicateIdsDiverge` covers.
- The page's `new Date()` is the `now` parameter of `HabitList.HandleIncrement`.
- The request body's `lastCompleted` is modelled as a nullable string. An absent field (`undefined`) and non-string JSON values, with mongoose's casting of them, are not modelled.
- Streak and gold are `nat`; JavaScript number semantics are not modelled, so `habit.streak || 0` equals `habit.streak`.
- The page's fetch calls, `setUser`, `localStorage` writes and confetti timing. The fetch outcome is the `reply` / `threw` parameter, and the confirm dialog's answer is the `confirmed` parameter.
- Loading the user on page mount (`fetchUserData`) is not modelled.
- Server-side habit deletion and the GET user route: the page calls them, but the route file defines no such handlers. Deletion is modelled only as the page's filter, which runs whenever the DELETE request does not throw.
- The login, signup, profile, navigation-bar and add-habit components. Of these, the add-habit form's `name.trim()` guard is a client-side check; the server itself only rejects an empty or missing name.
