/**
 * The persisted records of the habit tracker: the `habitSchema` sub-document and
 * the `userSchema` document, with the schema's required fields and defaults.
 *
 * A mongoose `required` String path is satisfied only by a present, non-empty
 * string; a path left out of the input takes its default.
 */
module Models {

  datatype Option<+T> = None | Some(value: T) {
    function GetOr(default: T): T {
      match this
      case Some(v) => v
      case None => default
    }
  }

  /** Why a handler refused a request; every error leaves the stored users untouched. */
  datatype Error =
    | UserNotFound
    | HabitNotFound
    | ValidationFailed   // a required path is missing or empty
    | DuplicateEmail     // the unique index on `email` rejected the save

  datatype Result<+T> = Ok(value: T) | Err(error: Error)

  /** One habit, embedded in its user's `habits` array. `lastCompleted` is a nullable date string. */
  datatype Habit = Habit(id: string, name: string, streak: nat, lastCompleted: Option<string>)

  /** One user document; `habits` is the ordered embedded array of habit sub-documents. */
  datatype UserDoc = UserDoc(name: string, email: string, password: string, gold: nat, habits: seq<Habit>)

  /** What a `required: true` String path accepts. */
  predicate Supplied(v: Option<string>) {
    v.Some? && v.value != ""
  }

  predicate ValidHabit(h: Habit) {
    h.id != "" && h.name != ""
  }

  predicate ValidHabits(habits: seq<Habit>) {
    forall j :: 0 <= j < |habits| ==> ValidHabit(habits[j])
  }

  predicate ValidUser(u: UserDoc) {
    u.name != "" && u.email != "" && u.password != "" && ValidHabits(u.habits)
  }

  /** No two stored users share an email (the unique index on `email`). */
  ghost predicate EmailsUnique(users: map<string, UserDoc>) {
    forall a, b :: a in users && b in users && a != b ==> users[a].email != users[b].email
  }

  /**
   * Casts the fields of a habit sub-document: `id` and `name` are required,
   * `streak` defaults to 0 and `lastCompleted` to null.
   */
  function CastHabit(id: Option<string>, name: Option<string>, streak: Option<nat>, lastCompleted: Option<string>)
    : (r: Result<Habit>)
    ensures r.Ok? <==> Supplied(id) && Supplied(name)
    ensures r.Err? ==> r.error == ValidationFailed
    ensures r.Ok? ==> ValidHabit(r.value) && r.value.id == id.value && r.value.name == name.value
    ensures r.Ok? && streak.None? ==> r.value.streak == 0
    ensures r.Ok? && streak.Some? ==> r.value.streak == streak.value
    ensures r.Ok? ==> r.value.lastCompleted == lastCompleted
  {
    if Supplied(id) && Supplied(name) then
      Ok(Habit(id.value, name.value, streak.GetOr(0), lastCompleted))
    else
      Err(ValidationFailed)
  }

  /**
   * Casts the fields of a user document: `name`, `email` and `password` are
   * required, `gold` defaults to 0, `habits` to the empty array, and every
   * embedded habit must itself be valid.
   */
  function CastUser(name: Option<string>, email: Option<string>, password: Option<string>,
                    gold: Option<nat>, habits: Option<seq<Habit>>): (r: Result<UserDoc>)
    ensures r.Ok? <==> Supplied(name) && Supplied(email) && Supplied(password) && ValidHabits(habits.GetOr([]))
    ensures r.Err? ==> r.error == ValidationFailed
    ensures r.Ok? ==> ValidUser(r.value)
    ensures r.Ok? ==> r.value.name == name.value && r.value.email == email.value && r.value.password == password.value
    ensures r.Ok? && gold.None? ==> r.value.gold == 0
    ensures r.Ok? && gold.Some? ==> r.value.gold == gold.value
    ensures r.Ok? && habits.None? ==> r.value.habits == []
    ensures r.Ok? && habits.Some? ==> r.value.habits == habits.value
  {
    var hs := habits.GetOr([]);
    if Supplied(name) && Supplied(email) && Supplied(password) && ValidHabits(hs) then
      Ok(UserDoc(name.value, email.value, password.value, gold.GetOr(0), hs))
    else
      Err(ValidationFailed)
  }
}
