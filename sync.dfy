/**
 * The page and the server each compute the habit after "Mark Done", and they
 * agree only on a new day. The page always bumps its copy and sends
 * `forceIncrement` on a repeated day; the server never reads that flag and
 * leaves the habit alone when the date is the stored one. The page also leaves
 * its copy of the gold as it was, and replaces every habit with the id, where
 * the server updates only the first.
 */
module Sync {
  import opened Models
  import opened Rules
  import opened HabitList

  predicate DistinctIds(habits: seq<Habit>) {
    forall i, j :: 0 <= i < j < |habits| ==> habits[i].id != habits[j].id
  }

  /**
   * Against the server's answer to the request it sent, the page's list equals
   * the server's saved list exactly when the habit was not already completed
   * today; its gold equals the server's exactly when no reward was paid.
   */
  lemma MarkDoneAgainstServer(user: UserDoc, habitId: string, now: string, confirmed: bool)
    requires FirstIndex(user.habits, habitId).Some?
    requires DistinctIds(user.habits)
    ensures var h := user.habits[FirstIndex(user.habits, habitId).value];
      var today := DatePart(now);
      var s := Rules.UpdateStreak(user, habitId, RequestFor(h, today)).value;
      var o := HandleIncrement(Some(user), habitId, now, confirmed, Answered(Some(s.habit.streak)));
      o.request.Some? ==>
        && (o.user.value.habits == s.user.habits <==> h.lastCompleted != Some(today))
        && (h.lastCompleted == Some(today) ==> s.user == user)
        && (o.user.value.gold == s.user.gold <==> s.user.gold == user.gold)
        && (s.user.gold != user.gold <==> h.lastCompleted != Some(today) && (h.streak + 1) % RewardPeriod == 0)
  {
    // On a repeated day the lists differ at the clicked habit: the page's copy
    // has one more day of streak than the server's unchanged habit.
  }

  /** With a repeated id, the server bumps the first habit only, while the page overwrites every copy. */
  lemma DuplicateIdsDiverge(user: UserDoc, habitId: string, now: string, j: nat)
    requires FirstIndex(user.habits, habitId).Some?
    requires FirstIndex(user.habits, habitId).value < j < |user.habits| && user.habits[j].id == habitId
    ensures var h := user.habits[FirstIndex(user.habits, habitId).value];
      var today := DatePart(now);
      var s := Rules.UpdateStreak(user, habitId, RequestFor(h, today)).value;
      var o := HandleIncrement(Some(user), habitId, now, true, Answered(Some(s.habit.streak)));
      && s.user.habits[j] == user.habits[j]
      && o.user.value.habits[j] == MarkedCopy(h, today)
  {
  }
}
