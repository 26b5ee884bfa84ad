/** The task/user store: the list of every user's tasks, the list of users and
    the signed-in user. Every task operation needs a signed-in user and is
    scoped to that user's tasks. Fresh ids and clock readings, which the store
    takes from a uuid generator and from the system clock, are parameters. */
module Store {
  import opened Types
  import opened Query

  /** The account seeded when no user list has been stored. */
  const DefaultUser: User := User("1", "demo", "password123")

  predicate HasCredentials(u: User, username: string, password: string) {
    u.username == username && u.password == password
  }

  /** `users.find(...)`: the index of the first user whose username and
      password both match exactly. */
  function FindUser(users: seq<User>, username: string, password: string): (r: Option<nat>)
    ensures r.Some? ==> r.value < |users| && HasCredentials(users[r.value], username, password)
    ensures r.Some? ==> forall j :: 0 <= j < r.value ==> !HasCredentials(users[j], username, password)
    ensures r.None? <==> forall j :: 0 <= j < |users| ==> !HasCredentials(users[j], username, password)
  {
    if users == [] then None
    else if HasCredentials(users[0], username, password) then Some(0)
    else match FindUser(users[1..], username, password)
      case None => None
      case Some(k) => Some(k + 1)
  }

  predicate OwnedMatch(t: Task, id: string, uid: string) {
    t.id == id && t.userId == uid
  }

  /** `tasks.findIndex(...)`: the index of the first task with this id that
      belongs to `uid`. */
  function FindOwned(tasks: seq<Task>, id: string, uid: string): (r: Option<nat>)
    ensures r.Some? ==> r.value < |tasks| && OwnedMatch(tasks[r.value], id, uid)
    ensures r.Some? ==> forall j :: 0 <= j < r.value ==> !OwnedMatch(tasks[j], id, uid)
    ensures r.None? <==> forall j :: 0 <= j < |tasks| ==> !OwnedMatch(tasks[j], id, uid)
  {
    if tasks == [] then None
    else if OwnedMatch(tasks[0], id, uid) then Some(0)
    else match FindOwned(tasks[1..], id, uid)
      case None => None
      case Some(k) => Some(k + 1)
  }

  /** The record `createTask` builds: the client fields copied from `data`,
      a fresh id, two clock readings and the owner. */
  function NewTask(data: TaskData, id: string, createdAt: int, updatedAt: int, owner: string): (t: Task)
    ensures DataOf(t) == data
    ensures t.id == id && t.userId == owner
    ensures t.createdAt == createdAt && t.updatedAt == updatedAt
  {
    Task(id, data.title, data.description, data.status, data.priority,
         data.isCompleted, data.isUrgent, createdAt, updatedAt, owner)
  }

  /** `{...task, ...updates, updatedAt: now}`. */
  function Merge(t: Task, u: TaskUpdate, now: int): (r: Task)
    ensures r.id == t.id && r.createdAt == t.createdAt && r.userId == t.userId
    ensures r.updatedAt == now
  {
    Task(t.id,
         u.title.GetOr(t.title),
         u.description.GetOr(t.description),
         u.status.GetOr(t.status),
         u.priority.GetOr(t.priority),
         u.isCompleted.GetOr(t.isCompleted),
         u.isUrgent.GetOr(t.isUrgent),
         t.createdAt,
         now,
         t.userId)
  }

  /** A supplied field overwrites the old one and an unsupplied field keeps it. */
  lemma MergeFields(t: Task, u: TaskUpdate, now: int)
    ensures u.title.Some? ==> Merge(t, u, now).title == u.title.value
    ensures u.description.Some? ==> Merge(t, u, now).description == u.description.value
    ensures u.status.Some? ==> Merge(t, u, now).status == u.status.value
    ensures u.priority.Some? ==> Merge(t, u, now).priority == u.priority.value
    ensures u.isCompleted.Some? ==> Merge(t, u, now).isCompleted == u.isCompleted.value
    ensures u.isUrgent.Some? ==> Merge(t, u, now).isUrgent == u.isUrgent.value
    ensures u.title.None? ==> Merge(t, u, now).title == t.title
    ensures u.description.None? ==> Merge(t, u, now).description == t.description
    ensures u.status.None? ==> Merge(t, u, now).status == t.status
    ensures u.priority.None? ==> Merge(t, u, now).priority == t.priority
    ensures u.isCompleted.None? ==> Merge(t, u, now).isCompleted == t.isCompleted
    ensures u.isUrgent.None? ==> Merge(t, u, now).isUrgent == t.isUrgent
  {
  }

  /** Saving the edit form's data makes the task's client fields exactly that
      data, whatever they were before. */
  lemma MergeFormData(t: Task, d: TaskData, now: int)
    ensures DataOf(Merge(t, UpdateOf(d), now)) == d
    ensures Merge(t, UpdateOf(d), now) == NewTask(d, t.id, t.createdAt, now, t.userId)
  {
  }

  /** An empty update only refreshes the timestamp, and applying the same
      update twice is applying it once. */
  lemma MergeEmptyAndTwice(t: Task, u: TaskUpdate, now: int)
    ensures Merge(t, TaskUpdate(None, None, None, None, None, None, None), now) == t.(updatedAt := now)
    ensures Merge(Merge(t, u, now), u, now) == Merge(t, u, now)
  {
  }

  /** The test `deleteTask` keeps a task by: not (this id and owned by `uid`). */
  function Survives(id: string, uid: string): Task -> bool {
    (t: Task) => !OwnedMatch(t, id, uid)
  }

  /** The task list after `deleteTask(id)` by `uid`. */
  function Remove(tasks: seq<Task>, id: string, uid: string): (r: seq<Task>)
    ensures forall t :: t in r ==> t in tasks && !OwnedMatch(t, id, uid)
    ensures forall t :: t in tasks && !OwnedMatch(t, id, uid) ==> t in r
    ensures |r| < |tasks| <==> exists i :: 0 <= i < |tasks| && OwnedMatch(tasks[i], id, uid)
  {
    Keep(tasks, Survives(id, uid))
  }

  /** Task ids are pairwise distinct. */
  ghost predicate UniqueIds(tasks: seq<Task>) {
    forall i, j :: 0 <= i < j < |tasks| ==> tasks[i].id != tasks[j].id
  }

  ghost predicate FreshId(tasks: seq<Task>, id: string) {
    forall i :: 0 <= i < |tasks| ==> tasks[i].id != id
  }

  lemma UniqueTail(tasks: seq<Task>)
    requires tasks != [] && UniqueIds(tasks)
    ensures UniqueIds(tasks[1..]) && FreshId(tasks[1..], tasks[0].id)
  {
    var rest := tasks[1..];
    forall i, j | 0 <= i < j < |rest| ensures rest[i].id != rest[j].id {
      assert rest[i] == tasks[i + 1] && rest[j] == tasks[j + 1];
    }
    forall i | 0 <= i < |rest| ensures rest[i].id != tasks[0].id {
      assert rest[i] == tasks[i + 1];
    }
  }

  /** Filtering keeps ids distinct. */
  lemma {:induction false} KeepUnique(tasks: seq<Task>, p: Task -> bool)
    requires UniqueIds(tasks)
    ensures UniqueIds(Keep(tasks, p))
    decreases |tasks|
  {
    if tasks != [] {
      var rest := tasks[1..];
      UniqueTail(tasks);
      KeepUnique(rest, p);
      var rr := Keep(rest, p);
      var r := Keep(tasks, p);
      if p(tasks[0]) {
        assert r == [tasks[0]] + rr;
        forall j | 1 <= j < |r| ensures r[0].id != r[j].id {
          assert r[j] == rr[j - 1] && rr[j - 1] in rest;
        }
      } else {
        assert r == rr;
      }
    }
  }

  /** With distinct ids, a delete removes at most one task. */
  lemma {:induction false} RemoveAtMostOne(tasks: seq<Task>, id: string, uid: string)
    requires UniqueIds(tasks)
    ensures |Remove(tasks, id, uid)| >= |tasks| - 1
    ensures UniqueIds(Remove(tasks, id, uid))
    decreases |tasks|
  {
    KeepUnique(tasks, Survives(id, uid));
    if tasks != [] {
      var rest := tasks[1..];
      UniqueTail(tasks);
      RemoveAtMostOne(rest, id, uid);
      if OwnedMatch(tasks[0], id, uid) {
        assert forall k :: 0 <= k < |rest| ==> Survives(id, uid)(rest[k]);
      }
    }
  }

  /** The five fixture tasks `generateDemoData` creates, in order. */
  const DemoTasks: seq<TaskData> := [
    TaskData("Complete project documentation",
             "Write comprehensive documentation for the new project including API specs and user guides",
             InProgress, High, false, true),
    TaskData("Code review for authentication module",
             "Review pull request #123 for the new authentication system",
             Review, Medium, false, false),
    TaskData("Fix login page styling",
             "Update CSS for better mobile responsiveness on login page",
             Todo, Low, false, false),
    TaskData("Setup CI/CD pipeline",
             "Configure GitHub Actions for automated testing and deployment",
             Done, High, true, false),
    TaskData("Database migration",
             "Run migration scripts for the new user table schema",
             Todo, Critical, false, true)
  ]

  /** The tasks `generateDemoData` appends: fixture k gets the k-th fresh id
      and the clock readings 2k and 2k+1. */
  function DemoBatch(owner: string, ids: seq<string>, stamps: seq<int>): (r: seq<Task>)
    requires |ids| >= |DemoTasks| && |stamps| >= 2 * |DemoTasks|
    ensures |r| == |DemoTasks|
    ensures forall k :: 0 <= k < |r| ==> r[k].userId == owner && DataOf(r[k]) == DemoTasks[k]
    ensures forall k :: 0 <= k < |r| ==> r[k].id == ids[k]
  {
    seq(|DemoTasks|, k requires 0 <= k < |DemoTasks| =>
      NewTask(DemoTasks[k], ids[k], stamps[2 * k], stamps[2 * k + 1], owner))
  }

  /** The fixtures span every status and every priority. */
  lemma DemoCoversAll(s: TaskStatus, p: TaskPriority)
    ensures exists k :: 0 <= k < |DemoTasks| && DemoTasks[k].status == s
    ensures exists k :: 0 <= k < |DemoTasks| && DemoTasks[k].priority == p
  {
    var ks := match s
      case InProgress => 0 case Review => 1 case Todo => 2 case Done => 3;
    var kp := match p
      case High => 0 case Medium => 1 case Low => 2 case Critical => 4;
    assert DemoTasks[ks].status == s;
    assert DemoTasks[kp].priority == p;
  }

  class DataStore {
    var tasks: seq<Task>
    var users: seq<User>
    var currentUser: Option<User>

    /** Start-up: take whatever was stored; with no stored user list the
        default account is seeded. An absent value is `None`. */
    constructor (storedTasks: Option<seq<Task>>, storedUsers: Option<seq<User>>,
                 storedCurrentUser: Option<User>)
      ensures tasks == storedTasks.GetOr([])
      ensures users == storedUsers.GetOr([DefaultUser])
      ensures currentUser == storedCurrentUser
    {
      tasks := [];
      users := [DefaultUser];
      currentUser := None;
      if storedTasks.Some? {
        tasks := storedTasks.value;
      }
      if storedUsers.Some? {
        users := storedUsers.value;
      } else {
        users := [DefaultUser];
      }
      if storedCurrentUser.Some? {
        currentUser := storedCurrentUser;
      }
    }

    /** Signs in the first user whose username and password match exactly;
        on no match the session is left as it was. */
    method Login(username: string, password: string) returns (r: Option<User>)
      modifies this`currentUser
      ensures r.Some? <==> exists i :: 0 <= i < |users| && HasCredentials(users[i], username, password)
      ensures r.Some? ==> r.value in users && HasCredentials(r.value, username, password)
      ensures r.Some? ==>
        FindUser(users, username, password).Some? &&
        r.value == users[FindUser(users, username, password).value]
      ensures r.Some? ==> currentUser == r
      ensures r.None? ==> currentUser == old(currentUser)
    {
      var found := FindUser(users, username, password);
      if found.None? {
        r := None;
      } else {
        var i := found.value;
        r := Some(users[i]);
        currentUser := r;
        assert HasCredentials(users[i], username, password);
      }
    }

    /** Ends the session; tasks and users are untouched. */
    method Logout()
      modifies this`currentUser
      ensures currentUser == None
    {
      currentUser := None;
    }

    function GetCurrentUser(): (u: Option<User>)
      reads this
      ensures u == currentUser
      ensures u.Some? <==> IsAuthenticated()
    {
      currentUser
    }

    function IsAuthenticated(): (b: bool)
      reads this
      ensures b <==> currentUser != None
    {
      currentUser.Some?
    }

    /** Appends a task owned by the signed-in user. */
    method CreateTask(data: TaskData, newId: string, createdAt: int, updatedAt: int) returns (r: Result<Task>)
      modifies this`tasks
      ensures currentUser.None? ==> r == Err(Unauthenticated) && tasks == old(tasks)
      ensures currentUser.Some? ==>
        r == Ok(NewTask(data, newId, createdAt, updatedAt, currentUser.value.id)) &&
        tasks == old(tasks) + [r.value]
      // A corollary of the clause above and NewTask's contract: the new task is the signed-in user's.
      ensures currentUser.Some? ==> r.Ok? && r.value.userId == currentUser.value.id
      ensures UniqueIds(old(tasks)) && FreshId(old(tasks), newId) ==> UniqueIds(tasks)
    {
      if currentUser.None? {
        return Err(Unauthenticated);
      }
      var task := NewTask(data, newId, createdAt, updatedAt, currentUser.value.id);
      ghost var before := tasks;
      tasks := tasks + [task];
      if UniqueIds(before) && FreshId(before, newId) {
        forall i, j | 0 <= i < j < |tasks| ensures tasks[i].id != tasks[j].id {
          if j == |before| {
            assert tasks[i] == before[i];
          } else {
            assert tasks[i] == before[i] && tasks[j] == before[j];
          }
        }
      }
      r := Ok(task);
    }

    /** One page of the signed-in user's tasks that match `filter`, newest
        first, with the page metadata. */
    method GetTasks(filter: TaskFilter, page: int, limit: int) returns (r: Result<TaskPage>)
      requires page >= 1 && limit >= 1
      ensures currentUser.None? <==> r == Err(Unauthenticated)
      ensures r.Ok? ==> r.value == PageOf(tasks, currentUser.value.id, filter, page, limit)
      // Corollaries of the clause above and PageOf's contract, spelled out for callers.
      ensures r.Ok? ==> forall t :: t in r.value.tasks ==>
        t in tasks && t.userId == currentUser.value.id && Matches(filter, t)
      ensures r.Ok? ==> NewestFirst(r.value.tasks) && |r.value.tasks| <= limit
      ensures r.Ok? ==> r.value.pagination.total == |Selected(tasks, currentUser.value.id, filter)|
    {
      if currentUser.None? {
        return Err(Unauthenticated);
      }
      r := Ok(PageOf(tasks, currentUser.value.id, filter, page, limit));
    }

    /** The signed-in user's task with this id; another user's task is not found. */
    method GetTaskById(id: string) returns (r: Result<Option<Task>>)
      ensures currentUser.None? <==> r == Err(Unauthenticated)
      ensures r.Ok? ==> (r.value.Some? <==>
        exists i :: 0 <= i < |tasks| && OwnedMatch(tasks[i], id, currentUser.value.id))
      ensures r.Ok? && r.value.Some? ==>
        r.value.value in tasks && OwnedMatch(r.value.value, id, currentUser.value.id)
      ensures r.Ok? && r.value.Some? ==>
        FindOwned(tasks, id, currentUser.value.id).Some? &&
        r.value.value == tasks[FindOwned(tasks, id, currentUser.value.id).value]
    {
      if currentUser.None? {
        return Err(Unauthenticated);
      }
      match FindOwned(tasks, id, currentUser.value.id)
      case None =>
        r := Ok(None);
      case Some(i) =>
        r := Ok(Some(tasks[i]));
    }

    /** Merges `updates` into the signed-in user's task with this id and
        stamps it with `now`; nothing changes when there is no such task. */
    method UpdateTask(id: string, updates: TaskUpdate, now: int) returns (r: Result<Option<Task>>)
      modifies this`tasks
      ensures currentUser.None? ==> r == Err(Unauthenticated) && tasks == old(tasks)
      ensures currentUser.Some? ==> r.Ok?
      ensures r.Ok? ==> (r.value.None? <==>
        forall i :: 0 <= i < |old(tasks)| ==> !OwnedMatch(old(tasks)[i], id, currentUser.value.id))
      ensures r.Ok? && r.value.None? ==> tasks == old(tasks)
      ensures r.Ok? && r.value.Some? ==>
        var i := FindOwned(old(tasks), id, currentUser.value.id);
        i.Some? && tasks == old(tasks)[i.value := Merge(old(tasks)[i.value], updates, now)] &&
        r.value.value == tasks[i.value]
      ensures |tasks| == |old(tasks)|
      ensures currentUser.Some? ==>
        forall i :: 0 <= i < |tasks| && old(tasks)[i].userId != currentUser.value.id ==> tasks[i] == old(tasks)[i]
      ensures UniqueIds(old(tasks)) ==> UniqueIds(tasks)
    {
      if currentUser.None? {
        return Err(Unauthenticated);
      }
      match FindOwned(tasks, id, currentUser.value.id)
      case None =>
        r := Ok(None);
      case Some(i) =>
        tasks := tasks[i := Merge(tasks[i], updates, now)];
        r := Ok(Some(tasks[i]));
    }

    /** Removes the signed-in user's tasks with this id; true iff one was removed. */
    method DeleteTask(id: string) returns (r: Result<bool>)
      modifies this`tasks
      ensures currentUser.None? ==> r == Err(Unauthenticated) && tasks == old(tasks)
      ensures currentUser.Some? ==>
        tasks == Remove(old(tasks), id, currentUser.value.id) &&
        r == Ok(|tasks| < |old(tasks)|)
      ensures r.Ok? ==> (r.value <==>
        exists i :: 0 <= i < |old(tasks)| && OwnedMatch(old(tasks)[i], id, currentUser.value.id))
      ensures currentUser.Some? ==>
        forall t :: t in old(tasks) && t.userId != currentUser.value.id ==> t in tasks
      ensures UniqueIds(old(tasks)) ==> UniqueIds(tasks) && |tasks| >= |old(tasks)| - 1
    {
      if currentUser.None? {
        return Err(Unauthenticated);
      }
      var before := |tasks|;
      if UniqueIds(tasks) {
        RemoveAtMostOne(tasks, id, currentUser.value.id);
      }
      tasks := Remove(tasks, id, currentUser.value.id);
      r := Ok(|tasks| < before);
    }

    /** Creates the five fixture tasks through `CreateTask`, one after another. */
    method GenerateDemoData(ids: seq<string>, stamps: seq<int>) returns (r: Result<()>)
      requires |ids| >= |DemoTasks| && |stamps| >= 2 * |DemoTasks|
      modifies this`tasks
      ensures currentUser.None? ==> r == Err(Unauthenticated) && tasks == old(tasks)
      ensures currentUser.Some? ==>
        r == Ok(()) && tasks == old(tasks) + DemoBatch(currentUser.value.id, ids, stamps)
    {
      if currentUser.None? {
        return Err(Unauthenticated);
      }
      ghost var batch := DemoBatch(currentUser.value.id, ids, stamps);
      var k := 0;
      while k < |DemoTasks|
        invariant 0 <= k <= |DemoTasks|
        invariant currentUser.Some?
        invariant tasks == old(tasks) + batch[..k]
      {
        var created := CreateTask(DemoTasks[k], ids[k], stamps[2 * k], stamps[2 * k + 1]);
        assert batch[..k + 1] == batch[..k] + [batch[k]];
        k := k + 1;
      }
      assert batch[..|DemoTasks|] == batch;
      r := Ok(());
    }
  }
}
