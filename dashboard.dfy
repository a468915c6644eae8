/** The dashboard's entity store: every user's activities and goals in two
    shared lists, each saved whole under its storage key after every change,
    and read back through a filter on the signed-in user. */
module Dashboard {
  import opened Js
  import opened Entities
  import opened Storage
  import opened Lists
  import ActivityForm
  import GoalsSection

  /** The activity a submitted draft becomes: the draft's fields, then `id`,
      `date` and `userId` laid over them, so a date picked in the form is
      discarded. */
  function NewActivity(draft: ActivityForm.ActivityDraft, userId: string, now: int): (a: Activity)
    requires draft.duration.Int?
    ensures a.id == DecimalString(now) && a.date == now && a.userId == userId
    ensures a.kind == draft.kind && a.name == draft.name && a.intensity == draft.intensity
    ensures a.notes == draft.notes && a.duration == draft.duration.v && a.calories == Some(draft.calories)
  {
    Activity(DecimalString(now), userId, draft.kind, draft.name, draft.duration.v,
             Some(draft.calories), draft.intensity, draft.notes, now)
  }

  /** The goal a submitted draft becomes: progress starts at 0 and the owner
      is the signed-in user, whatever the draft holds. */
  function NewGoal(draft: GoalsSection.GoalDraft, userId: string, now: int): (g: Goal)
    ensures g.id == DecimalString(now) && g.userId == userId && g.createdAt == now
    ensures g.progress == Int(0) && g.target == draft.target
    ensures g.title == draft.title && g.description == draft.description
    ensures g.kind == draft.kind && g.unit == draft.unit && g.deadline == draft.deadline
  {
    Goal(DecimalString(now), userId, draft.title, draft.description, draft.kind,
         draft.target, draft.unit, draft.deadline, now, Int(0))
  }

  datatype Tab = ActivitiesTab | ProgressTab | GoalsTab

  class Dashboard {
    const user: SessionUser
    const storage: LocalStorage
    var activeTab: Tab
    var activities: seq<Activity>
    var goals: seq<Goal>
    var showForm: bool

    /** The in-memory lists are what the store holds under their keys. */
    ghost predicate Valid()
      reads this, storage
    {
      activities == StoredActivities(storage.items) && goals == StoredGoals(storage.items)
    }

    /** Mounting loads both lists from the store; an absent key gives an
        empty list. */
    constructor (user: SessionUser, storage: LocalStorage)
      ensures this.user == user && this.storage == storage
      ensures activities == StoredActivities(storage.items)
      ensures goals == StoredGoals(storage.items)
      ensures activeTab == ActivitiesTab && !showForm
      ensures Valid()
    {
      this.user := user;
      this.storage := storage;
      activeTab := ActivitiesTab;
      activities := StoredActivities(storage.items);
      goals := StoredGoals(storage.items);
      showForm := false;
    }

    /** The activities of the signed-in user, in list order. */
    function UserActivities(): (r: seq<Activity>)
      reads this
      ensures forall a :: a in r <==> a in activities && a.userId == user.id
    {
      WithKeyMembers(activities, ActivityOwner, user.id);
      WithKey(activities, ActivityOwner, user.id)
    }

    /** The goals of the signed-in user, in list order. */
    function UserGoals(): (r: seq<Goal>)
      reads this
      ensures forall g :: g in r <==> g in goals && g.userId == user.id
    {
      WithKeyMembers(goals, GoalOwner, user.id);
      WithKey(goals, GoalOwner, user.id)
    }

    /** The "recent" list: the first five of the user's activities, which are
        the five logged earliest. */
    function Recent(): (r: seq<Activity>)
      reads this
      ensures |r| == if |UserActivities()| < 5 then |UserActivities()| else 5
      ensures r <= UserActivities()
    {
      Take(UserActivities(), 5)
    }

    /** `addActivity`: append one activity at the end, save the list, close
        the form. Every earlier activity, of any user, keeps its place. */
    method AddActivity(draft: ActivityForm.ActivityDraft, now: int)
      requires Valid() && draft.duration.Int?
      modifies this, storage
      ensures activities == old(activities) + [NewActivity(draft, user.id, now)]
      ensures UserActivities() == old(UserActivities()) + [NewActivity(draft, user.id, now)]
      ensures goals == old(goals) && activeTab == old(activeTab) && !showForm
      ensures storage.items == old(storage.items)[ActivitiesKey := ActivityList(activities)]
      ensures Valid()
    {
      var added := NewActivity(draft, user.id, now);
      activities := activities + [added];
      WithKeyAppend(old(activities), [added], ActivityOwner, user.id);
      storage.SetItem(ActivitiesKey, ActivityList(activities));
      showForm := false;
    }

    /** `updateActivity`: the activities carrying `id` take the patch's
        fields; the list is saved even when no activity carries `id`. */
    method UpdateActivity(id: string, patch: ActivityPatch)
      requires Valid()
      modifies this, storage
      ensures activities == UpdateWhere(old(activities), ActivityId, id, MergeActivity, patch)
      ensures goals == old(goals) && showForm == old(showForm) && activeTab == old(activeTab)
      ensures storage.items == old(storage.items)[ActivitiesKey := ActivityList(activities)]
      ensures Valid()
    {
      activities := UpdateWhere(activities, ActivityId, id, MergeActivity, patch);
      storage.SetItem(ActivitiesKey, ActivityList(activities));
    }

    /** `deleteActivity`: every activity carrying `id` goes, the rest keep
        their order, and the list is saved. */
    method DeleteActivity(id: string)
      requires Valid()
      modifies this, storage
      ensures activities == WithoutKey(old(activities), ActivityId, id)
      ensures goals == old(goals) && showForm == old(showForm) && activeTab == old(activeTab)
      ensures storage.items == old(storage.items)[ActivitiesKey := ActivityList(activities)]
      ensures Valid()
    {
      activities := WithoutKey(activities, ActivityId, id);
      storage.SetItem(ActivitiesKey, ActivityList(activities));
    }

    /** `addGoal`: append one goal with progress 0 and the user as owner. */
    method AddGoal(draft: GoalsSection.GoalDraft, now: int)
      requires Valid()
      modifies this, storage
      ensures goals == old(goals) + [NewGoal(draft, user.id, now)]
      ensures UserGoals() == old(UserGoals()) + [NewGoal(draft, user.id, now)]
      ensures activities == old(activities) && showForm == old(showForm) && activeTab == old(activeTab)
      ensures storage.items == old(storage.items)[GoalsKey := GoalList(goals)]
      ensures Valid()
    {
      var added := NewGoal(draft, user.id, now);
      goals := goals + [added];
      WithKeyAppend(old(goals), [added], GoalOwner, user.id);
      storage.SetItem(GoalsKey, GoalList(goals));
    }

    /** `updateGoal`: the goals carrying `id` take the patch's fields. */
    method UpdateGoal(id: string, patch: GoalPatch)
      requires Valid()
      modifies this, storage
      ensures goals == UpdateWhere(old(goals), GoalId, id, MergeGoal, patch)
      ensures activities == old(activities) && showForm == old(showForm) && activeTab == old(activeTab)
      ensures storage.items == old(storage.items)[GoalsKey := GoalList(goals)]
      ensures Valid()
    {
      goals := UpdateWhere(goals, GoalId, id, MergeGoal, patch);
      storage.SetItem(GoalsKey, GoalList(goals));
    }

    /** `deleteGoal`: every goal carrying `id` goes, the rest keep their order. */
    method DeleteGoal(id: string)
      requires Valid()
      modifies this, storage
      ensures goals == WithoutKey(old(goals), GoalId, id)
      ensures activities == old(activities) && showForm == old(showForm) && activeTab == old(activeTab)
      ensures storage.items == old(storage.items)[GoalsKey := GoalList(goals)]
      ensures Valid()
    {
      goals := WithoutKey(goals, GoalId, id);
      storage.SetItem(GoalsKey, GoalList(goals));
    }

    /** The Add Activity / Cancel button. */
    method ToggleForm()
      modifies this
      ensures showForm == !old(showForm)
      ensures activities == old(activities) && goals == old(goals) && activeTab == old(activeTab)
    {
      showForm := !showForm;
    }

    /** The form's own cancel button. */
    method CloseForm()
      modifies this
      ensures !showForm
      ensures activities == old(activities) && goals == old(goals) && activeTab == old(activeTab)
    {
      showForm := false;
    }

    method SelectTab(tab: Tab)
      modifies this
      ensures activeTab == tab
      ensures activities == old(activities) && goals == old(goals) && showForm == old(showForm)
    {
      activeTab := tab;
    }
  }

  /** Another user's activity never appears in a user's view, and adding an
      activity for one user leaves every other user's view as it was. */
  lemma AddLeavesOtherUsersAlone(acts: seq<Activity>, a: Activity, other: string)
    requires a.userId != other
    ensures WithKey(acts + [a], ActivityOwner, other) == WithKey(acts, ActivityOwner, other)
  {
    WithKeyAppend(acts, [a], ActivityOwner, other);
    assert WithKey([a], ActivityOwner, other) == [];
  }

  /** The user's view after a delete is the old view without that id:
      filtering by owner and by id commute. */
  lemma {:induction false} DeleteThenView(acts: seq<Activity>, id: string, owner: string)
    ensures WithKey(WithoutKey(acts, ActivityId, id), ActivityOwner, owner)
         == WithoutKey(WithKey(acts, ActivityOwner, owner), ActivityId, id)
  {
    if acts != [] {
      DeleteThenView(acts[1..], id, owner);
      var a := acts[0];
      var restDel := WithoutKey(acts[1..], ActivityId, id);
      var restView := WithKey(acts[1..], ActivityOwner, owner);
      if a.id != id {
        assert WithoutKey(acts, ActivityId, id) == [a] + restDel;
        assert ([a] + restDel)[0] == a && ([a] + restDel)[1..] == restDel;
      } else {
        assert WithoutKey(acts, ActivityId, id) == restDel;
      }
      if a.userId == owner {
        assert WithKey(acts, ActivityOwner, owner) == [a] + restView;
        assert ([a] + restView)[0] == a && ([a] + restView)[1..] == restView;
      } else {
        assert WithKey(acts, ActivityOwner, owner) == restView;
      }
    }
  }

  /** Deleting twice with the same id leaves the list of one delete. */
  lemma DeleteIdempotent(acts: seq<Activity>, id: string)
    ensures WithoutKey(WithoutKey(acts, ActivityId, id), ActivityId, id) == WithoutKey(acts, ActivityId, id)
  {
    WithoutKeyIdempotent(acts, ActivityId, id);
  }

  /** Updating an id nobody carries changes nothing. */
  lemma UpdateUnknownIdIsNoop(acts: seq<Activity>, id: string, patch: ActivityPatch)
    requires forall i :: 0 <= i < |acts| ==> acts[i].id != id
    ensures UpdateWhere(acts, ActivityId, id, MergeActivity, patch) == acts
  {
    UpdateAbsentKey(acts, ActivityId, id, MergeActivity, patch);
  }

  /** A merged activity takes every field the patch has and keeps the others. */
  lemma MergeTakesPatchFields(a: Activity, p: ActivityPatch)
    ensures var m := MergeActivity(a, p);
      (p.name.Some? ==> m.name == p.name.value) && (p.name.None? ==> m.name == a.name)
      && (p.duration.Some? ==> m.duration == p.duration.value) && (p.duration.None? ==> m.duration == a.duration)
      && (p.calories.Some? ==> m.calories == p.calories) && (p.calories.None? ==> m.calories == a.calories)
      && (p.id.None? ==> m.id == a.id) && (p.userId.None? ==> m.userId == a.userId)
      && (p.date.None? ==> m.date == a.date)
  {
  }
}
