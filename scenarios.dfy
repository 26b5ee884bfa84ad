/** End-to-end runs across the form and the store: the demo account, a task
    going from the form into the store, and an unchanged edit. */
module Scenarios {
  import opened Types
  import opened Query
  import opened Store
  import opened Form

  /** A fresh store knows the demo account: its credentials sign in, a wrong
      password does not, and after signing out the store refuses to create. */
  method DemoSession(data: TaskData, id: string, now: int)
    returns (good: Option<User>, bad: Option<User>, afterLogout: Result<Task>)
    ensures good == Some(DefaultUser)
    ensures bad.None?
    ensures afterLogout == Err(Unauthenticated)
  {
    var store := new DataStore(None, None, None);
    bad := store.Login("demo", "password");
    assert !HasCredentials(store.users[0], "demo", "password");
    good := store.Login("demo", "password123");
    assert HasCredentials(store.users[0], "demo", "password123");
    store.Logout();
    afterLogout := store.CreateTask(data, id, now, now);
  }

  /** A fresh store in which the demo user has signed in. */
  method SignedInDemoStore() returns (store: DataStore)
    ensures fresh(store)
    ensures store.tasks == [] && store.currentUser == Some(DefaultUser)
  {
    store := new DataStore(None, None, None);
    var user := store.Login("demo", "password123");
    assert HasCredentials(store.users[0], "demo", "password123");
  }

  /** A blank form into which every field of `d` has been typed or chosen. */
  method FillIn(d: TaskData) returns (form: TaskForm)
    ensures fresh(form) && form.formData == d
  {
    form := new TaskForm(None);
    form.HandleChange(TypeTitle(d.title));
    form.HandleChange(TypeDescription(d.description));
    form.HandleChange(SelectStatus(d.status));
    form.HandleChange(SelectPriority(d.priority));
    form.HandleChange(ToggleCompleted(d.isCompleted));
    form.HandleChange(ToggleUrgent(d.isUrgent));
  }

  /** Filling in a blank form with `d` and submitting it hands over `d`
      exactly when `d` validates. */
  method FillInAndSubmit(d: TaskData) returns (submitted: Option<TaskData>)
    ensures submitted.Some? <==> ValidateForm(d)
    ensures submitted.Some? ==> submitted.value == d
  {
    var form := FillIn(d);
    submitted := form.HandleSubmit();
  }

  /** In the demo user's session, a created task carries exactly the given
      values, is owned by the demo user, and can be read back by its id. */
  method CreateAndReadBack(d: TaskData, id: string, createdAt: int, updatedAt: int)
    returns (created: Task, readBack: Result<Option<Task>>)
    ensures DataOf(created) == d && created.id == id && created.userId == DefaultUser.id
    ensures readBack.Ok? && readBack.value.Some? && DataOf(readBack.value.value) == d
  {
    var store := SignedInDemoStore();
    var r := store.CreateTask(d, id, createdAt, updatedAt);
    created := r.value;
    assert store.tasks == [created];
    assert OwnedMatch(store.tasks[0], id, DefaultUser.id);
    readBack := store.GetTaskById(id);
  }

  /** The form's values reach the store only when they validate; the task
      created then carries exactly the values typed, is owned by the signed-in
      user, and can be read back by its id. */
  method SubmitAndCreate(d: TaskData, id: string, createdAt: int, updatedAt: int)
    returns (created: Option<Task>, readBack: Result<Option<Task>>)
    ensures created.Some? <==> ValidateForm(d)
    ensures created.Some? ==>
      DataOf(created.value) == d && created.value.id == id && created.value.userId == DefaultUser.id
    ensures created.Some? ==> readBack.Ok? && readBack.value.Some? && DataOf(readBack.value.value) == d
  {
    var submitted := FillInAndSubmit(d);
    if submitted.None? {
      created := None;
      readBack := Ok(None);
      return;
    }
    var task;
    task, readBack := CreateAndReadBack(submitted.value, id, createdAt, updatedAt);
    created := Some(task);
  }

  /** Opening a task in the edit form and submitting it untouched hands over
      the task's own values exactly when they validate. */
  method OpenAndSubmit(t: Task) returns (submitted: Option<TaskData>)
    ensures submitted.Some? <==> ValidateForm(DataOf(t))
    ensures submitted.Some? ==> submitted.value == DataOf(t)
  {
    var form := new TaskForm(Some(t));
    submitted := form.HandleSubmit();
  }

  /** The owner of `t`, signed in to a store holding just `t`, saves the
      form data `d` for it: the saved task is `t` merged with `d`. */
  method SaveAsOwner(t: Task, d: TaskData, now: int) returns (saved: Option<Task>)
    ensures saved == Some(Merge(t, UpdateOf(d), now))
  {
    var owner := User(t.userId, "owner", "secret");
    var store := new DataStore(Some([t]), Some([owner]), Some(owner));
    assert OwnedMatch(store.tasks[0], t.id, owner.id);
    assert FindOwned(store.tasks, t.id, owner.id) == Some(0);
    var r := store.UpdateTask(t.id, UpdateOf(d), now);
    saved := r.value;
  }

  /** Opening a task in the edit form and saving it unchanged only refreshes
      its `updatedAt`. */
  method SaveUnchanged(t: Task, now: int) returns (saved: Option<Task>)
    ensures saved.Some? <==> ValidateForm(DataOf(t))
    ensures saved.Some? ==> saved.value == t.(updatedAt := now)
  {
    var submitted := OpenAndSubmit(t);
    if submitted.None? {
      return None;
    }
    saved := SaveAsOwner(t, submitted.value, now);
    MergeFormData(t, submitted.value, now);
  }
}
