/**
 * The user route handlers as the server runs them: each handler loads one user
 * document from the store, mutates it in place and saves the whole record.
 * `Store` stands for the user collection; `User` for a loaded document.
 */
module Server {
  import opened Models
  import opened Rules

  /** The linear search behind `user.habits.find(h => h.id === habitId)`. */
  method FindHabit(habits: seq<Habit>, id: string) returns (r: Option<nat>)
    ensures r == FirstIndex(habits, id)
    ensures r.Some? ==> r.value < |habits| && habits[r.value].id == id
    ensures r.None? ==> forall j :: 0 <= j < |habits| ==> habits[j].id != id
  {
    var i := 0;
    while i < |habits|
      invariant 0 <= i <= |habits|
      invariant forall j :: 0 <= j < i ==> habits[j].id != id
    {
      if habits[i].id == id {
        return Some(i);
      }
      i := i + 1;
    }
    return None;
  }

  /** A user document loaded for one request, with the fields the handlers touch. */
  class User {
    var name: string
    var email: string
    var password: string
    var gold: nat
    var habits: seq<Habit>

    function Doc(): UserDoc
      reads this
    {
      UserDoc(name, email, password, gold, habits)
    }

    /** `User.findById`: the in-memory copy of a stored document. */
    constructor Load(d: UserDoc)
      ensures Doc() == d
    {
      name, email, password, gold, habits := d.name, d.email, d.password, d.gold, d.habits;
    }

    /**
     * Builds the new habit and pushes it onto `habits`. The handler pushes
     * first and learns of an invalid habit only when the save fails; here the
     * habit is checked before the push, so on that error the object, like the
     * stored document, stays as it was.
     */
    method AddHabit(id: string, habitName: Option<string>) returns (r: Result<Habit>)
      modifies this
      ensures var s := Rules.AddHabit(old(Doc()), id, habitName);
        if s.Ok? then r == Ok(s.value.habit) && Doc() == s.value.user
        else r == Err(s.error) && Doc() == old(Doc())
    {
      var cast := CastHabit(Some(id), habitName, Some(0), None);
      if cast.Err? {
        return Err(cast.error);
      }
      habits := habits + [cast.value];
      r := Ok(cast.value);
    }

    /** Bumps the first matching habit when the date differs, then pays the weekly reward. */
    method UpdateStreak(habitId: string, req: StreakRequest) returns (r: Result<Habit>)
      modifies this
      ensures var s := Rules.UpdateStreak(old(Doc()), habitId, req);
        if s.Ok? then r == Ok(s.value.habit) && Doc() == s.value.user
        else r == Err(s.error) && Doc() == old(Doc())
    {
      var found := FindHabit(habits, habitId);
      if found.None? {
        return Err(HabitNotFound);
      }
      var k := found.value;
      var habit := habits[k];
      if habit.lastCompleted != req.lastCompleted {
        habit := habit.(streak := habit.streak + 1, lastCompleted := req.lastCompleted);
        habits := habits[k := habit];
        if habit.streak % RewardPeriod == 0 {
          gold := gold + Reward;
        }
      }
      r := Ok(habit);
    }
  }

  /**
   * What every save keeps: the schema's required fields, unique emails, and
   * gold that is exactly the weekly rewards earned by the current streaks.
   */
  ghost predicate ValidUsers(users: map<string, UserDoc>) {
    && EmailsUnique(users)
    && (forall id :: id in users ==> ValidUser(users[id]))
    && (forall id :: id in users ==> GoldBalanced(users[id]))
  }

  /** The stored user documents, by id. */
  class Store {
    var users: map<string, UserDoc>

    /** The store invariant, over the current documents. */
    ghost predicate Valid()
      reads this
    {
      ValidUsers(users)
    }

    constructor ()
      ensures Valid() && users == map[]
    {
      users := map[];
    }

    predicate EmailTaken(email: string)
      reads this
    {
      exists id :: id in users && users[id].email == email
    }

    /** Create user: gold 0 and no habits; a missing field or a taken email saves nothing. */
    method CreateUser(newId: string, name: Option<string>, email: Option<string>, password: Option<string>)
      returns (r: Result<UserDoc>)
      requires Valid()
      requires newId !in users
      modifies this
      ensures Valid()
      ensures r.Ok? <==> NewUser(name, email, password).Ok? && !old(EmailTaken(email.value))
      ensures r.Ok? ==> r == NewUser(name, email, password) && users == old(users)[newId := r.value]
      ensures r.Ok? ==> r.value.gold == 0 && r.value.habits == []
      ensures r.Err? ==> users == old(users)
      ensures r.Err? && NewUser(name, email, password).Ok? ==> r.error == DuplicateEmail
    {
      var created := NewUser(name, email, password);
      if created.Err? {
        return created;
      }
      var taken := exists id :: id in users && users[id].email == created.value.email;
      if taken {
        return Err(DuplicateEmail);
      }
      NewUserBalanced(name, email, password);
      users := users[newId := created.value];
      r := created;
    }

    /** Add habit: an unknown user is NotFound; otherwise one fresh habit is appended and saved. */
    method AddHabit(userId: string, habitId: string, name: Option<string>) returns (r: Result<Habit>)
      requires Valid()
      modifies this
      ensures Valid()
      ensures userId !in old(users) ==> r == Err(UserNotFound) && users == old(users)
      ensures userId in old(users) ==>
        var s := Rules.AddHabit(old(users)[userId], habitId, name);
        if s.Ok? then r == Ok(s.value.habit) && users == old(users)[userId := s.value.user]
        else r == Err(s.error) && users == old(users)
    {
      if userId !in users {
        return Err(UserNotFound);
      }
      var user := new User.Load(users[userId]);
      r := user.AddHabit(habitId, name);
      if r.Ok? {
        AddHabitKeepsBalance(users[userId], habitId, name);
        SaveKeepsValid(userId, user.Doc());
        users := users[userId := user.Doc()];
      }
    }

    /** Update streak: unknown user or habit is NotFound and saves nothing; otherwise the updated document is saved. */
    method UpdateStreak(userId: string, habitId: string, req: StreakRequest) returns (r: Result<Habit>)
      requires Valid()
      modifies this
      ensures Valid()
      ensures userId !in old(users) ==> r == Err(UserNotFound) && users == old(users)
      ensures userId in old(users) ==>
        var s := Rules.UpdateStreak(old(users)[userId], habitId, req);
        if s.Ok? then r == Ok(s.value.habit) && users == old(users)[userId := s.value.user]
        else r == Err(s.error) && users == old(users)
    {
      if userId !in users {
        return Err(UserNotFound);
      }
      var user := new User.Load(users[userId]);
      r := user.UpdateStreak(habitId, req);
      if r.Ok? {
        UpdateKeepsBalance(users[userId], habitId, req);
        SaveKeepsValid(userId, user.Doc());
        users := users[userId := user.Doc()];
      }
    }

    /** Re-saving a valid, balanced document under its own id, with its email unchanged, keeps the store valid. */
    lemma SaveKeepsValid(userId: string, d: UserDoc)
      requires Valid() && userId in users
      requires d.email == users[userId].email && ValidUser(d) && GoldBalanced(d)
      ensures ValidUsers(users[userId := d])
    {
    }
  }
}
