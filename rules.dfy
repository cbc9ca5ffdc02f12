/**
 * The state transitions the user routes apply to one loaded user document:
 * creating a user, appending a habit and updating a habit's streak with the
 * weekly gold reward. Persistence is abstracted away; each function maps the
 * document before the request to the document the handler saves.
 */
module Rules {
  import opened Models

  /** Gold granted whenever a habit's streak reaches a multiple of `RewardPeriod`. */
  const Reward: nat := 10
  const RewardPeriod: nat := 7

  /** The body of an update-streak request. The server reads only `lastCompleted`. */
  datatype StreakRequest = StreakRequest(lastCompleted: Option<string>, forceIncrement: bool)

  /** The document to save and the habit the handler answers with. */
  datatype Updated = Updated(user: UserDoc, habit: Habit)

  /** The user a create request yields: the handler passes gold 0 and no habits. */
  function NewUser(name: Option<string>, email: Option<string>, password: Option<string>): (r: Result<UserDoc>)
    ensures r.Ok? <==> Supplied(name) && Supplied(email) && Supplied(password)
    ensures r.Ok? ==> r.value.gold == 0 && r.value.habits == [] && ValidUser(r.value)
    ensures r.Ok? ==> r.value.name == name.value && r.value.email == email.value && r.value.password == password.value
  {
    CastUser(name, email, password, Some(0), Some([]))
  }

  /** `habits.find(h => h.id === id)`, as the position of the first habit with that id. */
  function FirstIndex(habits: seq<Habit>, id: string): (r: Option<nat>)
    ensures r.Some? ==> r.value < |habits| && habits[r.value].id == id
    ensures r.Some? ==> forall j :: 0 <= j < r.value ==> habits[j].id != id
    ensures r.None? <==> forall j :: 0 <= j < |habits| ==> habits[j].id != id
  {
    if |habits| == 0 then None
    else if habits[0].id == id then Some(0)
    else
      match FirstIndex(habits[1..], id)
      case None => None
      case Some(k) => Some(k + 1)
  }

  /** Appends a fresh habit (streak 0, never completed) with the given id and name. */
  function AddHabit(u: UserDoc, id: string, name: Option<string>): (r: Result<Updated>)
    ensures r.Ok? <==> id != "" && Supplied(name)
    ensures r.Err? ==> r.error == ValidationFailed
    ensures r.Ok? ==> r.value.user.habits == u.habits + [r.value.habit]
    ensures r.Ok? ==> r.value.habit == Habit(id, name.value, 0, None)
    ensures r.Ok? ==> r.value.user.gold == u.gold && r.value.user.email == u.email
    ensures r.Ok? ==> r.value.user == u.(habits := r.value.user.habits)
  {
    match CastHabit(Some(id), name, Some(0), None)
    case Err(e) => Err(e)
    case Ok(h) => Ok(Updated(u.(habits := u.habits + [h]), h))
  }

  /** The streak step: a completion date different from the stored one counts; the same date does not. */
  function Complete(h: Habit, date: Option<string>): (r: Habit)
    ensures r.id == h.id && r.name == h.name
    ensures r.streak == h.streak + 1 <==> h.lastCompleted != date
    ensures r.streak == h.streak <==> h.lastCompleted == date
    ensures r.lastCompleted == date
  {
    if h.lastCompleted != date then h.(streak := h.streak + 1, lastCompleted := date) else h
  }

  /** Gold granted by a completion that moved a streak from `before` to `after`. */
  function Bonus(before: nat, after: nat): nat {
    if after != before && after % RewardPeriod == 0 then Reward else 0
  }

  /**
   * Updates the streak of the first habit whose id matches: it counts when the
   * supplied date differs from the stored one, in either direction, and the
   * user earns the reward when the new streak is a multiple of seven. The force
   * flag of the request plays no part.
   */
  function UpdateStreak(u: UserDoc, habitId: string, req: StreakRequest): (r: Result<Updated>)
    ensures r.Err? <==> FirstIndex(u.habits, habitId).None?
    ensures r.Err? ==> r.error == HabitNotFound
    ensures r.Ok? ==>
      var k := FirstIndex(u.habits, habitId).value;
      var h := u.habits[k];
      && r.value.habit.id == h.id && r.value.habit.name == h.name
      && (h.lastCompleted != req.lastCompleted ==>
            r.value.habit.streak == h.streak + 1 && r.value.habit.lastCompleted == req.lastCompleted)
      && (h.lastCompleted == req.lastCompleted ==> r.value == Updated(u, h))
      && |r.value.user.habits| == |u.habits|
      && r.value.user.habits[k] == r.value.habit
      && (forall j :: 0 <= j < |u.habits| && j != k ==> r.value.user.habits[j] == u.habits[j])
      && r.value.user.gold == u.gold + Bonus(h.streak, r.value.habit.streak)
      && r.value.user == u.(gold := r.value.user.gold, habits := r.value.user.habits)
  {
    match FirstIndex(u.habits, habitId)
    case None => Err(HabitNotFound)
    case Some(k) =>
      var h := Complete(u.habits[k], req.lastCompleted);
      Ok(Updated(u.(gold := u.gold + Bonus(u.habits[k].streak, h.streak), habits := u.habits[k := h]), h))
  }

  /** Whole weeks of streak summed over the habits: the gold the rewards account for, in units of `Reward`. */
  function Weeks(habits: seq<Habit>): nat {
    if |habits| == 0 then 0 else Weeks(habits[..|habits| - 1]) + habits[|habits| - 1].streak / RewardPeriod
  }

  /** Every piece of a user's gold was earned by a weekly streak reward, and every reward was paid. */
  predicate GoldBalanced(u: UserDoc) {
    u.gold == Reward * Weeks(u.habits)
  }

  lemma {:induction false} WeeksAppend(habits: seq<Habit>, h: Habit)
    ensures Weeks(habits + [h]) == Weeks(habits) + h.streak / RewardPeriod
  {
    assert (habits + [h])[..|habits|] == habits;
  }

  lemma {:induction false} WeeksReplace(habits: seq<Habit>, k: nat, h: Habit)
    requires k < |habits|
    ensures Weeks(habits[k := h]) + habits[k].streak / RewardPeriod == Weeks(habits) + h.streak / RewardPeriod
    decreases |habits|
  {
    var n := |habits| - 1;
    if k == n {
      assert habits[k := h][..n] == habits[..n];
    } else {
      WeeksReplace(habits[..n], k, h);
      assert habits[k := h][..n] == habits[..n][k := h];
    }
  }

  /** One more completion adds a whole week exactly when the new streak is a multiple of seven. */
  lemma StepWeek(s: nat)
    ensures (s + 1) / RewardPeriod == s / RewardPeriod + (if (s + 1) % RewardPeriod == 0 then 1 else 0)
  {
  }

  /** A new user starts balanced: no gold and no streaks. */
  lemma NewUserBalanced(name: Option<string>, email: Option<string>, password: Option<string>)
    ensures NewUser(name, email, password).Ok? ==> GoldBalanced(NewUser(name, email, password).value)
  {
  }

  /** A fresh habit has no whole week of streak, so appending it keeps the gold balanced. */
  lemma AddHabitKeepsBalance(u: UserDoc, id: string, name: Option<string>)
    requires GoldBalanced(u)
    ensures AddHabit(u, id, name).Ok? ==> GoldBalanced(AddHabit(u, id, name).value.user)
  {
    match AddHabit(u, id, name)
    case Err(_) =>
    case Ok(r) => WeeksAppend(u.habits, r.habit);
  }

  /** The reward rule as an invariant: gold minus ten per whole week of streak never changes. */
  lemma {:induction false} UpdateKeepsBalance(u: UserDoc, habitId: string, req: StreakRequest)
    ensures UpdateStreak(u, habitId, req).Ok? ==>
      var v := UpdateStreak(u, habitId, req).value.user;
      v.gold - Reward * Weeks(v.habits) == u.gold - Reward * Weeks(u.habits)
  {
    match FirstIndex(u.habits, habitId)
    case None =>
    case Some(k) =>
      var h := u.habits[k];
      var h' := Complete(h, req.lastCompleted);
      WeeksReplace(u.habits, k, h');
      StepWeek(h.streak);
  }

  /** An update keeps the position of the first habit with the updated id. */
  lemma UpdateKeepsFirstIndex(u: UserDoc, habitId: string, req: StreakRequest)
    requires UpdateStreak(u, habitId, req).Ok?
    ensures FirstIndex(UpdateStreak(u, habitId, req).value.user.habits, habitId) == FirstIndex(u.habits, habitId)
  {
    var k := FirstIndex(u.habits, habitId).value;
    assert UpdateStreak(u, habitId, req).value.user.habits[k].id == habitId;
  }

  /** One update, seen from the habit it targets: its week count and the user's gold move together. */
  lemma UpdateStep(u: UserDoc, habitId: string, req: StreakRequest)
    requires FirstIndex(u.habits, habitId).Some?
    ensures var k := FirstIndex(u.habits, habitId).value;
      var v := UpdateStreak(u, habitId, req).value.user;
      && FirstIndex(v.habits, habitId) == Some(k)
      && |v.habits| == |u.habits|
      && v.habits[k].streak >= u.habits[k].streak
      && (forall j :: 0 <= j < |u.habits| && j != k ==> v.habits[j] == u.habits[j])
      && v.gold - u.gold == Reward * (v.habits[k].streak / RewardPeriod - u.habits[k].streak / RewardPeriod)
  {
    UpdateKeepsFirstIndex(u, habitId, req);
    StepWeek(u.habits[FirstIndex(u.habits, habitId).value].streak);
  }

  /** Repeating an update with the same date changes nothing, whatever its force flag says. */
  lemma RepeatIsNoOp(u: UserDoc, habitId: string, req: StreakRequest, again: StreakRequest)
    requires UpdateStreak(u, habitId, req).Ok?
    requires again.lastCompleted == req.lastCompleted
    ensures var r := UpdateStreak(u, habitId, req).value;
      UpdateStreak(r.user, habitId, again) == Ok(r)
  {
    UpdateKeepsFirstIndex(u, habitId, req);
  }

  /** Applies a run of update requests to the same habit id, in order. */
  function UpdateAll(u: UserDoc, habitId: string, reqs: seq<StreakRequest>): UserDoc
    decreases |reqs|
  {
    if |reqs| == 0 then u
    else
      match UpdateStreak(u, habitId, reqs[0])
      case Err(_) => u
      case Ok(r) => UpdateAll(r.user, habitId, reqs[1..])
  }

  /**
   * Across any run of updates to one habit, the gold gained is ten times the
   * number of multiples of seven its streak crossed, and no other habit moves.
   */
  lemma {:induction false} GoldAcrossUpdates(u: UserDoc, habitId: string, reqs: seq<StreakRequest>)
    requires FirstIndex(u.habits, habitId).Some?
    ensures var k := FirstIndex(u.habits, habitId).value;
      var v := UpdateAll(u, habitId, reqs);
      && FirstIndex(v.habits, habitId) == Some(k)
      && |v.habits| == |u.habits|
      && v.habits[k].streak >= u.habits[k].streak
      && (forall j :: 0 <= j < |u.habits| && j != k ==> v.habits[j] == u.habits[j])
      && v.gold - u.gold == Reward * (v.habits[k].streak / RewardPeriod - u.habits[k].streak / RewardPeriod)
    decreases |reqs|
  {
    if |reqs| > 0 {
      var r := UpdateStreak(u, habitId, reqs[0]).value;
      UpdateStep(u, habitId, reqs[0]);
      assert UpdateAll(u, habitId, reqs) == UpdateAll(r.user, habitId, reqs[1..]);
      GoldAcrossUpdates(r.user, habitId, reqs[1..]);
    }
  }
}
