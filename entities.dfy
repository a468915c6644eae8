/** The records the application keeps: activities, goals, registered users and
    the signed-in user, with instants as milliseconds since the epoch. */
module Entities {
  import opened Js

  /** Milliseconds in a day. */
  const DayMs: int := 86_400_000

  /** The UTC calendar day of an instant, as a day number: the `YYYY-MM-DD`
      that `toISOString().split('T')[0]` names. */
  function Day(t: int): int {
    t / DayMs
  }

  /** Stepping an instant back by whole days steps its day number back by as many. */
  lemma DayShift(t: int, k: int)
    ensures Day(t - k * DayMs) == Day(t) - k
  {
    var q, r := t / DayMs, t % DayMs;
    assert t - k * DayMs == (q - k) * DayMs + r;
  }

  /** One logged exercise session (`kind` is the source's `type`). A missing
      `calories` value is `None`. */
  datatype Activity = Activity(
    id: string, userId: string, kind: string, name: string, duration: int,
    calories: Option<int>, intensity: string, notes: string, date: int)

  /** The fields a partial update of an activity carries; `None` is a field the
      partial object does not have. */
  datatype ActivityPatch = ActivityPatch(
    id: Option<string>, userId: Option<string>, kind: Option<string>,
    name: Option<string>, duration: Option<int>, calories: Option<int>,
    intensity: Option<string>, notes: Option<string>, date: Option<int>)

  /** A goal; `target` and `progress` are whatever `parseInt` produced. */
  datatype Goal = Goal(
    id: string, userId: string, title: string, description: string, kind: string,
    target: Num, unit: string, deadline: string, createdAt: int, progress: Num)

  datatype GoalPatch = GoalPatch(
    id: Option<string>, userId: Option<string>, title: Option<string>,
    description: Option<string>, kind: Option<string>, target: Option<Num>,
    unit: Option<string>, deadline: Option<string>, createdAt: Option<int>,
    progress: Option<Num>)

  /** A registered account as kept under the users key. The weight is the
      floating-point value the registration form produced. */
  datatype StoredUser = StoredUser(
    id: string, name: string, email: string, passwordHash: string,
    weight: real, createdAt: int)

  /** The signed-in user as handed to the application: there is no password
      hash in it. */
  datatype SessionUser = SessionUser(id: string, name: string, email: string, weight: real)

  function Pick<T>(patch: Option<T>, current: T): T {
    if patch.Some? then patch.value else current
  }

  /** `{ ...a, ...p }`: the fields of the partial win. */
  function MergeActivity(a: Activity, p: ActivityPatch): Activity {
    Activity(Pick(p.id, a.id), Pick(p.userId, a.userId), Pick(p.kind, a.kind),
             Pick(p.name, a.name), Pick(p.duration, a.duration),
             if p.calories.Some? then p.calories else a.calories,
             Pick(p.intensity, a.intensity), Pick(p.notes, a.notes), Pick(p.date, a.date))
  }

  function MergeGoal(g: Goal, p: GoalPatch): Goal {
    Goal(Pick(p.id, g.id), Pick(p.userId, g.userId), Pick(p.title, g.title),
         Pick(p.description, g.description), Pick(p.kind, g.kind), Pick(p.target, g.target),
         Pick(p.unit, g.unit), Pick(p.deadline, g.deadline), Pick(p.createdAt, g.createdAt),
         Pick(p.progress, g.progress))
  }

  function ActivityId(a: Activity): string { a.id }
  function ActivityOwner(a: Activity): string { a.userId }
  function GoalId(g: Goal): string { g.id }
  function GoalOwner(g: Goal): string { g.userId }
}
