/** The browser's key/value store, with values kept as the structured data
    they stand for rather than as JSON text. */
module Storage {
  import opened Js
  import opened Entities

  const ActivitiesKey: string := "gymbuddy_activities"
  const GoalsKey: string := "gymbuddy_goals"
  const UserKey: string := "gymbuddy_user"
  const UsersKey: string := "gymbuddy_users"
  const ThemeKey: string := "gymbuddy_theme"

  datatype Value =
    | ActivityList(activities: seq<Activity>)
    | GoalList(goals: seq<Goal>)
    | UserList(users: seq<StoredUser>)
    | SessionRecord(user: SessionUser)
    | Text(text: string)

  /** `localStorage`: each write replaces the whole value of its key. */
  class LocalStorage {
    var items: map<string, Value>

    constructor (initial: map<string, Value>)
      ensures items == initial
    {
      items := initial;
    }

    function GetItem(key: string): (r: Option<Value>)
      reads this
      ensures r.Some? <==> key in items
      ensures r.Some? ==> r.value == items[key]
    {
      if key in items then Some(items[key]) else None
    }

    method SetItem(key: string, v: Value)
      modifies this
      ensures items == old(items)[key := v]
      ensures GetItem(key) == Some(v)
    {
      items := items[key := v];
    }

    method RemoveItem(key: string)
      modifies this
      ensures items == old(items) - {key}
      ensures GetItem(key) == None
    {
      items := items - {key};
    }
  }

  /** The activity list a reader finds under its key; an absent key (or one
      holding anything but a list of activities) reads as the empty list. */
  function StoredActivities(items: map<string, Value>): (r: seq<Activity>)
    ensures ActivitiesKey !in items ==> r == []
    ensures ActivitiesKey in items && items[ActivitiesKey].ActivityList? ==> r == items[ActivitiesKey].activities
  {
    if ActivitiesKey in items && items[ActivitiesKey].ActivityList? then items[ActivitiesKey].activities else []
  }

  function StoredGoals(items: map<string, Value>): (r: seq<Goal>)
    ensures GoalsKey !in items ==> r == []
    ensures GoalsKey in items && items[GoalsKey].GoalList? ==> r == items[GoalsKey].goals
  {
    if GoalsKey in items && items[GoalsKey].GoalList? then items[GoalsKey].goals else []
  }

  /** `JSON.parse(localStorage.getItem('gymbuddy_users') || '[]')`. */
  function StoredUsers(items: map<string, Value>): (r: seq<StoredUser>)
    ensures UsersKey !in items ==> r == []
    ensures UsersKey in items && items[UsersKey].UserList? ==> r == items[UsersKey].users
  {
    if UsersKey in items && items[UsersKey].UserList? then items[UsersKey].users else []
  }
}
