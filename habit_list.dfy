/**
 * The state computations of the habit list page: the optimistic local update
 * after "Mark Done", the confirm-or-force decision before the request, the
 * confetti test on the reply, and the local filter after "Delete". The fetch
 * calls, `setUser` and `localStorage` writes around them are left to the caller;
 * what the server replied, and what the user answered to the confirm dialog,
 * are parameters.
 */
module HabitList {
  import opened Models
  import opened Rules

  /** `new Date().toISOString().split("T")[0]`: the text before the first 'T'. */
  function DatePart(iso: string): (d: string)
    ensures |d| <= |iso| && d == iso[..|d|]
    ensures forall j :: 0 <= j < |d| ==> d[j] != 'T'
    ensures |d| < |iso| ==> iso[|d|] == 'T'
  {
    if |iso| == 0 || iso[0] == 'T' then "" else [iso[0]] + DatePart(iso[1..])
  }

  /** The local copy after "Mark Done": one more day of streak, completed today. */
  function MarkedCopy(h: Habit, today: string): (r: Habit)
    ensures r.id == h.id && r.name == h.name
    ensures r.streak == h.streak + 1 && r.lastCompleted == Some(today)
  {
    h.(streak := h.streak + 1, lastCompleted := Some(today))
  }

  /** `habits.map(h => h.id === id ? updated : h)`. */
  function ReplaceById(habits: seq<Habit>, id: string, updated: Habit): (r: seq<Habit>)
    ensures |r| == |habits|
    ensures forall j :: 0 <= j < |habits| && habits[j].id == id ==> r[j] == updated
    ensures forall j :: 0 <= j < |habits| && habits[j].id != id ==> r[j] == habits[j]
  {
    if |habits| == 0 then []
    else [if habits[0].id == id then updated else habits[0]] + ReplaceById(habits[1..], id, updated)
  }

  /** `habits.filter(h => h.id !== id)`. */
  function RemoveById(habits: seq<Habit>, id: string): (r: seq<Habit>)
    ensures |r| <= |habits|
    ensures forall j :: 0 <= j < |r| ==> r[j].id != id
    ensures forall h :: h in r <==> h in habits && h.id != id
  {
    if |habits| == 0 then []
    else if habits[0].id == id then RemoveById(habits[1..], id)
    else [habits[0]] + RemoveById(habits[1..], id)
  }

  /** The filter keeps the relative order of what it keeps: it distributes over concatenation. */
  lemma {:induction false} RemoveByIdAppend(a: seq<Habit>, b: seq<Habit>, id: string)
    ensures RemoveById(a + b, id) == RemoveById(a, id) + RemoveById(b, id)
  {
    if |a| > 0 {
      assert (a + b)[1..] == a[1..] + b;
      RemoveByIdAppend(a[1..], b, id);
    } else {
      assert a + b == b;
    }
  }

  /** Without a habit of that id the filter changes nothing; every habit of another id keeps its multiplicity. */
  lemma {:induction false} RemoveByIdKeepsOthers(habits: seq<Habit>, id: string)
    ensures (forall j :: 0 <= j < |habits| ==> habits[j].id != id) ==> RemoveById(habits, id) == habits
    ensures forall h: Habit :: h.id != id ==> multiset(RemoveById(habits, id))[h] == multiset(habits)[h]
  {
    if |habits| > 0 {
      RemoveByIdKeepsOthers(habits[1..], id);
      assert habits == [habits[0]] + habits[1..];
    }
  }

  /** The body of the PUT request the page sends. */
  function RequestFor(h: Habit, today: string): (req: StreakRequest)
    ensures req.lastCompleted == Some(today)
    ensures req.forceIncrement <==> h.lastCompleted == Some(today)
  {
    StreakRequest(Some(today), h.lastCompleted == Some(today))
  }

  /** Confetti when the returned streak is a multiple of seven; a reply without a habit counts as streak 0. */
  function Celebrates(replyStreak: Option<nat>): (b: bool)
    ensures replyStreak.None? ==> b
    ensures replyStreak.Some? ==> (b <==> replyStreak.value % RewardPeriod == 0)
  {
    replyStreak.GetOr(0) % RewardPeriod == 0
  }

  /** How the PUT request ended: it threw (network or JSON error), or its JSON arrived, with or without a habit streak. */
  datatype Reply = Threw | Answered(habitStreak: Option<nat>)

  /** The request sent (if any), the page's user afterwards, and whether confetti shows. */
  datatype Outcome = Outcome(request: Option<StreakRequest>, user: Option<UserDoc>, confetti: bool)

  /**
   * "Mark Done" on `habitId` at the ISO timestamp `now`; the day compared and
   * recorded is its date part. With no user nothing happens; an unknown habit
   * throws before anything is sent; a second mark on the same day needs the
   * user's confirmation. Once the request is answered, the local copy is
   * bumped whatever the server replied.
   */
  function HandleIncrement(user: Option<UserDoc>, habitId: string, now: string, confirmed: bool, reply: Reply)
    : (o: Outcome)
    ensures o.request.None? ==> o.user == user && !o.confetti
    ensures user.None? ==> o.request.None?
    ensures user.Some? && FirstIndex(user.value.habits, habitId).None? ==> o.request.None?
    ensures user.Some? && FirstIndex(user.value.habits, habitId).Some? ==>
      var h := user.value.habits[FirstIndex(user.value.habits, habitId).value];
      var today := DatePart(now);
      && (o.request.None? <==> h.lastCompleted == Some(today) && !confirmed)
      && (o.request.Some? ==> o.request.value == RequestFor(h, today))
      && (o.request.Some? && reply.Threw? ==> o.user == user && !o.confetti)
      && (o.request.Some? && reply.Answered? ==>
            && o.user == Some(user.value.(habits := ReplaceById(user.value.habits, habitId, MarkedCopy(h, today))))
            && o.confetti == Celebrates(reply.habitStreak))
  {
    if user.None? then Outcome(None, user, false)
    else
      match FirstIndex(user.value.habits, habitId)
      case None => Outcome(None, user, false)
      case Some(k) =>
        var h := user.value.habits[k];
        var today := DatePart(now);
        if h.lastCompleted == Some(today) && !confirmed then Outcome(None, user, false)
        else
          var req := RequestFor(h, today);
          match reply
          case Threw => Outcome(Some(req), user, false)
          case Answered(streak) =>
            var u := user.value.(habits := ReplaceById(user.value.habits, habitId, MarkedCopy(h, today)));
            Outcome(Some(req), Some(u), Celebrates(streak))
  }

  /**
   * "Delete": unless the request throws, every habit with that id leaves the
   * local list, and every other habit stays, as often as it was there and in
   * its relative order (`RemoveById`, see `RemoveByIdAppend`); the rest of the
   * user is untouched.
   */
  function HandleDelete(user: Option<UserDoc>, habitId: string, threw: bool): (o: Option<UserDoc>)
    ensures user.None? || threw ==> o == user
    ensures user.Some? && !threw ==>
      && o == Some(user.value.(habits := RemoveById(user.value.habits, habitId)))
      && o.value == user.value.(habits := o.value.habits)
      && (forall h :: h in o.value.habits <==> h in user.value.habits && h.id != habitId)
      && (forall h: Habit :: h.id != habitId ==> multiset(o.value.habits)[h] == multiset(user.value.habits)[h])
  {
    if user.None? || threw then user
    else
      RemoveByIdKeepsOthers(user.value.habits, habitId);
      Some(user.value.(habits := RemoveById(user.value.habits, habitId)))
  }

  /** With distinct ids, marking a habit done rewrites that one habit only and keeps the list's length and order. */
  lemma MarkDoneTouchesOneHabit(user: UserDoc, habitId: string, now: string, confirmed: bool, reply: Reply)
    requires FirstIndex(user.habits, habitId).Some?
    requires forall i, j :: 0 <= i < j < |user.habits| ==> user.habits[i].id != user.habits[j].id
    requires reply.Answered?
    ensures var k := FirstIndex(user.habits, habitId).value;
      var o := HandleIncrement(Some(user), habitId, now, confirmed, reply);
      o.request.Some? ==>
        && o.user.value.gold == user.gold
        && |o.user.value.habits| == |user.habits|
        && o.user.value.habits[k] == MarkedCopy(user.habits[k], DatePart(now))
        && (forall j :: 0 <= j < |user.habits| && j != k ==> o.user.value.habits[j] == user.habits[j])
  {
  }
}
