/** The read-only query pipeline behind `getTasks`: restrict to the owner's
    tasks, apply each present filter field in turn, sort newest first, then
    compute the page metadata and cut out one page. */
module Query {
  import opened Types
  import opened Text

  /** `Array.prototype.filter`: the elements of `s` that satisfy `p`, in order. */
  function Keep(s: seq<Task>, p: Task -> bool): (r: seq<Task>)
    ensures |r| <= |s|
    ensures forall t :: t in r <==> t in s && p(t)
    ensures |r| == |s| <==> forall i :: 0 <= i < |s| ==> p(s[i])
    ensures |r| == |s| ==> r == s
  {
    if s == [] then []
    else (if p(s[0]) then [s[0]] else []) + Keep(s[1..], p)
  }

  /** Filtering a sequence with a given first element. */
  lemma KeepCons(x: Task, s: seq<Task>, p: Task -> bool)
    ensures Keep([x] + s, p) == (if p(x) then [x] else []) + Keep(s, p)
  {
    assert ([x] + s)[0] == x && ([x] + s)[1..] == s;
  }

  /** Filtering distributes over concatenation. */
  lemma {:induction false} KeepAppend(a: seq<Task>, b: seq<Task>, p: Task -> bool)
    ensures Keep(a + b, p) == Keep(a, p) + Keep(b, p)
    decreases |a|
  {
    if a == [] {
      assert a + b == b;
    } else {
      var x, rest := a[0], a[1..];
      var head := if p(x) then [x] else [];
      calc {
        Keep(a + b, p);
      == { assert a + b == [x] + (rest + b); KeepCons(x, rest + b, p); }
        head + Keep(rest + b, p);
      == { KeepAppend(rest, b, p); }
        head + (Keep(rest, p) + Keep(b, p));
      ==
        (head + Keep(rest, p)) + Keep(b, p);
      == { assert a == [x] + rest; KeepCons(x, rest, p); }
        Keep(a, p) + Keep(b, p);
      }
    }
  }

  /** Filtering by `p` and then by `q` is one filtering by their conjunction. */
  lemma {:induction false} KeepThenKeep(s: seq<Task>, p: Task -> bool, q: Task -> bool, pq: Task -> bool)
    requires forall t :: pq(t) == (p(t) && q(t))
    ensures Keep(Keep(s, p), q) == Keep(s, pq)
    decreases |s|
  {
    if s != [] {
      var head := if p(s[0]) then [s[0]] else [];
      KeepAppend(head, Keep(s[1..], p), q);
      KeepThenKeep(s[1..], p, q, pq);
    }
  }

  /** Two tests that agree on every element filter alike. */
  lemma {:induction false} KeepAgree(s: seq<Task>, p: Task -> bool, q: Task -> bool)
    requires forall i :: 0 <= i < |s| ==> p(s[i]) == q(s[i])
    ensures Keep(s, p) == Keep(s, q)
    decreases |s|
  {
    if s != [] {
      KeepAgree(s[1..], p, q);
    }
  }

  // The per-field tests, one per `.filter` callback of the pipeline.

  function OwnedBy(uid: string): Task -> bool { (t: Task) => t.userId == uid }
  function StatusIs(v: TaskStatus): Task -> bool { (t: Task) => t.status == v }
  function PriorityIs(v: TaskPriority): Task -> bool { (t: Task) => t.priority == v }
  function CompletedIs(v: bool): Task -> bool { (t: Task) => t.isCompleted == v }
  function UrgentIs(v: bool): Task -> bool { (t: Task) => t.isUrgent == v }
  /** `searchLower` is already lower-cased, as in the source. */
  function Mentions(searchLower: string): Task -> bool {
    (t: Task) => Contains(ToLower(t.title), searchLower) || Contains(ToLower(t.description), searchLower)
  }

  /** Case-insensitive substring match of `search` in the title or description. */
  predicate SearchHit(search: string, t: Task) {
    Mentions(ToLower(search))(t)
  }

  /** The search field counts only when it is present and non-empty. */
  predicate HasSearch(f: TaskFilter) {
    f.search.Some? && f.search.value != []
  }

  /** A task satisfies every present field of the filter. */
  predicate Matches(f: TaskFilter, t: Task) {
    && (f.status.Some? ==> t.status == f.status.value)
    && (f.priority.Some? ==> t.priority == f.priority.value)
    && (f.isCompleted.Some? ==> t.isCompleted == f.isCompleted.value)
    && (f.isUrgent.Some? ==> t.isUrgent == f.isUrgent.value)
    && (HasSearch(f) ==> SearchHit(f.search.value, t))
  }

  /** One `if (field) tasks = tasks.filter(test)` step: skipped when the field is absent. */
  function Stage(s: seq<Task>, present: bool, test: Task -> bool): seq<Task> {
    if present then Keep(s, test) else s
  }

  /** The filter stages of `getTasks`, in source order. */
  function ApplyFilter(s: seq<Task>, f: TaskFilter): seq<Task> {
    var s1 := Stage(s, f.status.Some?, StatusIs(f.status.GetOr(Todo)));
    var s2 := Stage(s1, f.priority.Some?, PriorityIs(f.priority.GetOr(Low)));
    var s3 := Stage(s2, f.isCompleted.Some?, CompletedIs(f.isCompleted.GetOr(false)));
    var s4 := Stage(s3, f.isUrgent.Some?, UrgentIs(f.isUrgent.GetOr(false)));
    Stage(s4, HasSearch(f), Mentions(ToLower(f.search.GetOr([]))))
  }

  /** The reference: one pass keeping the owner's tasks that match the whole filter. */
  function Selected(all: seq<Task>, uid: string, f: TaskFilter): seq<Task> {
    Keep(all, Wanted(uid, f))
  }

  /** The test of the reference pass: owned by `uid` and matching `f`. */
  function Wanted(uid: string, f: TaskFilter): Task -> bool {
    (t: Task) => t.userId == uid && Matches(f, t)
  }

  /** A stage applied to the tasks kept by `acc` keeps the tasks of `next`. */
  lemma StageStep(all: seq<Task>, acc: Task -> bool, present: bool,
                  test: Task -> bool, next: Task -> bool)
    requires forall t :: next(t) == (acc(t) && (present ==> test(t)))
    ensures Stage(Keep(all, acc), present, test) == Keep(all, next)
  {
    if present {
      KeepThenKeep(all, acc, test, next);
    } else {
      KeepAgree(all, acc, next);
    }
  }

  /** The status and priority stages, applied to the owner's tasks, keep the
      tasks of `a2`: owned and matching both fields. */
  lemma FirstStages(all: seq<Task>, uid: string, f: TaskFilter, a2: Task -> bool)
    requires forall t ::
      a2(t) == (t.userId == uid && (f.status.Some? ==> t.status == f.status.value)
                && (f.priority.Some? ==> t.priority == f.priority.value))
    ensures Stage(Stage(Keep(all, OwnedBy(uid)), f.status.Some?, StatusIs(f.status.GetOr(Todo))),
                  f.priority.Some?, PriorityIs(f.priority.GetOr(Low))) == Keep(all, a2)
  {
    var a0: Task -> bool := OwnedBy(uid);
    var a1: Task -> bool := (t: Task) => a0(t) && (f.status.Some? ==> t.status == f.status.value);
    var s1 := Stage(Keep(all, a0), f.status.Some?, StatusIs(f.status.GetOr(Todo)));
    assert s1 == Keep(all, a1) by {
      StageStep(all, a0, f.status.Some?, StatusIs(f.status.GetOr(Todo)), a1);
    }
    StageStep(all, a1, f.priority.Some?, PriorityIs(f.priority.GetOr(Low)), a2);
  }

  /** The staged pipeline keeps exactly the owner's matching tasks, in their
      stored order: the present fields are ANDed. */
  lemma PipelineIsConjunction(all: seq<Task>, uid: string, f: TaskFilter)
    ensures ApplyFilter(Keep(all, OwnedBy(uid)), f) == Selected(all, uid, f)
  {
    var a2: Task -> bool := (t: Task) => t.userId == uid
      && (f.status.Some? ==> t.status == f.status.value)
      && (f.priority.Some? ==> t.priority == f.priority.value);
    var a3: Task -> bool := (t: Task) => a2(t) && (f.isCompleted.Some? ==> t.isCompleted == f.isCompleted.value);
    var a4: Task -> bool := (t: Task) => a3(t) && (f.isUrgent.Some? ==> t.isUrgent == f.isUrgent.value);
    var a5: Task -> bool := Wanted(uid, f);
    var s0 := Keep(all, OwnedBy(uid));
    var s1 := Stage(s0, f.status.Some?, StatusIs(f.status.GetOr(Todo)));
    var s2 := Stage(s1, f.priority.Some?, PriorityIs(f.priority.GetOr(Low)));
    var s3 := Stage(s2, f.isCompleted.Some?, CompletedIs(f.isCompleted.GetOr(false)));
    var s4 := Stage(s3, f.isUrgent.Some?, UrgentIs(f.isUrgent.GetOr(false)));
    var s5 := Stage(s4, HasSearch(f), Mentions(ToLower(f.search.GetOr([]))));
    assert ApplyFilter(s0, f) == s5;
    assert s2 == Keep(all, a2) by {
      FirstStages(all, uid, f, a2);
    }
    assert s3 == Keep(all, a3) by {
      StageStep(all, a2, f.isCompleted.Some?, CompletedIs(f.isCompleted.GetOr(false)), a3);
    }
    assert s4 == Keep(all, a4) by {
      StageStep(all, a3, f.isUrgent.Some?, UrgentIs(f.isUrgent.GetOr(false)), a4);
    }
    assert s5 == Keep(all, a5) by {
      StageStep(all, a4, HasSearch(f), Mentions(ToLower(f.search.GetOr([]))), a5);
    }
  }

  /** The search is case-insensitive in the search term. */
  lemma SearchIgnoresCase(search: string, t: Task)
    ensures SearchHit(ToUpper(search), t) == SearchHit(search, t)
    ensures SearchHit(ToLower(search), t) == SearchHit(search, t)
  {
    LowerForgetsCase(search);
  }

  /** A search hit is an occurrence of the lower-cased term in the lower-cased
      title or in the lower-cased description. */
  lemma SearchHitIff(search: string, t: Task)
    ensures SearchHit(search, t) <==>
      OccursIn(ToLower(t.title), ToLower(search)) || OccursIn(ToLower(t.description), ToLower(search))
  {
    var title, description, term := ToLower(t.title), ToLower(t.description), ToLower(search);
    assert SearchHit(search, t) == (Contains(title, term) || Contains(description, term));
    ContainsIff(title, term);
    ContainsIff(description, term);
  }

  /** An empty search term would match every task, so skipping it changes nothing. */
  lemma EmptySearchMatchesAll(t: Task)
    ensures SearchHit([], t)
  {
    ContainsEmpty(ToLower(t.title));
  }

  // Sorting by updatedAt, newest first (a stable sort, as Array.prototype.sort is).

  ghost predicate NewestFirst(s: seq<Task>) {
    forall i, j :: 0 <= i < j < |s| ==> s[i].updatedAt >= s[j].updatedAt
  }

  /** The tasks of `s` with the given `updatedAt`, in order. */
  function WithTime(s: seq<Task>, time: int): seq<Task> {
    if s == [] then [] else (if s[0].updatedAt == time then [s[0]] else []) + WithTime(s[1..], time)
  }

  /** Places `t` before the first task that is not newer than it. */
  function Insert(t: Task, s: seq<Task>): (r: seq<Task>)
    requires NewestFirst(s)
    ensures |r| == |s| + 1
    ensures forall x :: x in r <==> x == t || x in s
    ensures NewestFirst(r)
  {
    if s == [] || s[0].updatedAt <= t.updatedAt then
      [t] + s
    else
      var rest := Insert(t, s[1..]);
      var r := [s[0]] + rest;
      assert s == [s[0]] + s[1..];
      forall x | x in rest ensures x.updatedAt <= s[0].updatedAt {
        if x != t {
          var k :| 0 <= k < |s[1..]| && s[1..][k] == x;
          assert x == s[k + 1];
        }
      }
      ConsNewestFirst(s[0], rest);
      r
  }

  /** A task no older than any task of a newest-first list may go in front of it. */
  lemma ConsNewestFirst(h: Task, rest: seq<Task>)
    requires NewestFirst(rest)
    requires forall x :: x in rest ==> x.updatedAt <= h.updatedAt
    ensures NewestFirst([h] + rest)
  {
    var r := [h] + rest;
    forall i, j | 0 <= i < j < |r| ensures r[i].updatedAt >= r[j].updatedAt {
      assert r[j] == rest[j - 1] && r[j] in rest;
      if i > 0 {
        assert r[i] == rest[i - 1];
      }
    }
  }

  /** Inserting adds `t` and loses nothing. */
  lemma {:induction false} InsertPermutes(t: Task, s: seq<Task>)
    requires NewestFirst(s)
    ensures multiset(Insert(t, s)) == multiset(s) + multiset{t}
    decreases |s|
  {
    if !(s == [] || s[0].updatedAt <= t.updatedAt) {
      InsertPermutes(t, s[1..]);
      assert s == [s[0]] + s[1..];
      assert Insert(t, s) == [s[0]] + Insert(t, s[1..]);
    }
  }

  /** Inserting keeps `t` ahead of every task with the same timestamp. */
  lemma {:induction false} InsertStable(t: Task, s: seq<Task>, time: int)
    requires NewestFirst(s)
    ensures WithTime(Insert(t, s), time) == (if t.updatedAt == time then [t] else []) + WithTime(s, time)
    decreases |s|
  {
    if s == [] || s[0].updatedAt <= t.updatedAt {
      assert ([t] + s)[1..] == s;
    } else {
      var rest := Insert(t, s[1..]);
      assert Insert(t, s) == [s[0]] + rest;
      assert ([s[0]] + rest)[1..] == rest;
      InsertStable(t, s[1..], time);
      if s[0].updatedAt == time {
        // `t` is strictly older than `s[0]`, so it does not share its time.
        assert WithTime(Insert(t, s), time) == [s[0]] + WithTime(rest, time);
      } else {
        assert WithTime(Insert(t, s), time) == WithTime(rest, time);
        assert WithTime(s, time) == WithTime(s[1..], time);
      }
    }
  }

  /** Insertion sort, newest first. */
  function SortNewestFirst(s: seq<Task>): (r: seq<Task>)
    ensures NewestFirst(r)
    ensures multiset(r) == multiset(s)
    ensures |r| == |s|
  {
    if s == [] then []
    else
      assert s == [s[0]] + s[1..];
      InsertPermutes(s[0], SortNewestFirst(s[1..]));
      Insert(s[0], SortNewestFirst(s[1..]))
  }

  /** The sort is stable: tasks with equal `updatedAt` keep their relative order. */
  lemma {:induction false} SortStable(s: seq<Task>, time: int)
    ensures WithTime(SortNewestFirst(s), time) == WithTime(s, time)
    decreases |s|
  {
    if s != [] {
      SortStable(s[1..], time);
      InsertStable(s[0], SortNewestFirst(s[1..]), time);
    }
  }

  // Pagination.

  /** `Math.ceil(total / limit)`. */
  function TotalPages(total: nat, limit: nat): (n: nat)
    requires limit >= 1
    ensures total <= n * limit
    ensures n > 0 ==> (n - 1) * limit < total
    ensures total == 0 <==> n == 0
  {
    var n := (total + limit - 1) / limit;
    assert (n - 1) * limit == n * limit - limit;
    n
  }

  /** `s.slice(start, start + limit)`, clamped to the length of `s` as `slice` does. */
  function Window(s: seq<Task>, start: nat, limit: nat): (r: seq<Task>)
    ensures |r| <= limit
    ensures r != [] ==> start + |r| <= |s|
    ensures r == [] <==> start >= |s| || limit == 0
    ensures start < |s| ==> |r| == (if |s| - start < limit then |s| - start else limit)
    ensures forall k :: 0 <= k < |r| ==> r[k] == s[start + k]
  {
    var end := start + limit;
    var from := if start < |s| then start else |s|;
    var to := if end < |s| then end else |s|;
    s[from..to]
  }

  /** The position of the first task of page `page`. */
  function PageStart(page: int, limit: int): nat
    requires page >= 1 && limit >= 1
  {
    (page - 1) * limit
  }

  /** The page numbered `page` (from 1): the window of `limit` tasks starting
      at `(page - 1) * limit`. */
  function PageSlice(s: seq<Task>, page: int, limit: int): (r: seq<Task>)
    requires page >= 1 && limit >= 1
    ensures |r| <= limit
    ensures r == [] <==> (page - 1) * limit >= |s|
    ensures r != [] ==> (page - 1) * limit + |r| <= |s|
    ensures (page - 1) * limit < |s| ==>
      |r| == (if |s| - (page - 1) * limit < limit then |s| - (page - 1) * limit else limit)
    ensures forall k :: 0 <= k < |r| ==> r[k] == s[PageStart(page, limit) + k]
  {
    assert (page - 1) * limit >= 0;
    Window(s, PageStart(page, limit), limit)
  }

  lemma MulMonotone(a: int, b: int, c: int)
    requires a <= b && c >= 0
    ensures a * c <= b * c
  {
  }

  /** A page has tasks exactly when its number is at most the page count. */
  lemma PageNonEmptyIff(s: seq<Task>, page: int, limit: int)
    requires page >= 1 && limit >= 1
    ensures PageSlice(s, page, limit) != [] <==> page <= TotalPages(|s|, limit)
  {
    var n := TotalPages(|s|, limit);
    if page <= n {
      MulMonotone(page - 1, n - 1, limit);
    } else {
      MulMonotone(n, page - 1, limit);
    }
  }

  /** Every task is on exactly one page: the one numbered k / limit + 1, at
      position k % limit. */
  lemma PagesCover(s: seq<Task>, k: int, limit: int)
    requires 0 <= k < |s| && limit >= 1
    ensures k / limit + 1 <= TotalPages(|s|, limit)
    ensures k % limit < |PageSlice(s, k / limit + 1, limit)|
    ensures PageSlice(s, k / limit + 1, limit)[k % limit] == s[k]
  {
    var page := k / limit + 1;
    assert (page - 1) * limit + k % limit == k;
    PageNonEmptyIff(s, page, limit);
  }

  /** A page holds tasks of `s` only, in the order `s` has them. */
  lemma PageWithin(s: seq<Task>, page: int, limit: int)
    requires page >= 1 && limit >= 1
    ensures forall t :: t in PageSlice(s, page, limit) ==> t in s
    ensures NewestFirst(s) ==> NewestFirst(PageSlice(s, page, limit))
  {
    var r := PageSlice(s, page, limit);
    forall t | t in r ensures t in s {
      var k :| 0 <= k < |r| && r[k] == t;
    }
    if NewestFirst(s) {
      forall i, j | 0 <= i < j < |r| ensures r[i].updatedAt >= r[j].updatedAt {
        assert r[i] == s[(page - 1) * limit + i] && r[j] == s[(page - 1) * limit + j];
      }
    }
  }

  /** The owner's matching tasks, newest first. */
  function Visible(all: seq<Task>, uid: string, f: TaskFilter): seq<Task> {
    SortNewestFirst(ApplyFilter(Keep(all, OwnedBy(uid)), f))
  }

  /** The sorted list holds exactly the owner's matching tasks, each as often
      as it is stored, newest first. */
  lemma VisibleExactly(all: seq<Task>, uid: string, f: TaskFilter)
    ensures multiset(Visible(all, uid, f)) == multiset(Selected(all, uid, f))
    ensures |Visible(all, uid, f)| == |Selected(all, uid, f)|
    ensures forall t :: t in Visible(all, uid, f) <==> t in all && t.userId == uid && Matches(f, t)
    ensures NewestFirst(Visible(all, uid, f))
  {
    PipelineIsConjunction(all, uid, f);
    var v := Visible(all, uid, f);
    var sel := Selected(all, uid, f);
    assert multiset(v) == multiset(sel);
    forall t ensures t in v <==> t in all && t.userId == uid && Matches(f, t) {
      assert t in v <==> t in multiset(v);
      assert t in sel <==> t in multiset(sel);
      assert t in sel <==> t in all && Wanted(uid, f)(t);
    }
  }

  /** What `getTasks` returns: one page of tasks and its metadata. */
  datatype TaskPage = TaskPage(tasks: seq<Task>, pagination: PaginationInfo)

  /** The body of `getTasks` for a signed-in user with id `uid`: the page
      holds the tasks of the owner's matching, newest-first list from position
      `(page - 1) * limit` on, `limit` of them or as many as remain. */
  function PageOf(all: seq<Task>, uid: string, f: TaskFilter, page: int, limit: int): (r: TaskPage)
    requires page >= 1 && limit >= 1
    ensures forall t :: t in r.tasks ==> t in all && t.userId == uid && Matches(f, t)
    ensures NewestFirst(r.tasks)
    ensures |r.tasks| <= limit
    ensures r.pagination.page == page && r.pagination.limit == limit
    ensures r.pagination.total == |Selected(all, uid, f)| == |Visible(all, uid, f)|
    ensures r.pagination.totalPages == TotalPages(|Selected(all, uid, f)|, limit)
    ensures r.tasks == [] <==> page > r.pagination.totalPages
    ensures page <= r.pagination.totalPages ==>
      var rest := r.pagination.total - PageStart(page, limit);
      |r.tasks| == (if rest < limit then rest else limit)
    ensures r.tasks != [] ==> PageStart(page, limit) + |r.tasks| <= |Visible(all, uid, f)|
    ensures forall k :: 0 <= k < |r.tasks| ==> r.tasks[k] == Visible(all, uid, f)[PageStart(page, limit) + k]
  {
    var sorted := Visible(all, uid, f);
    VisibleExactly(all, uid, f);
    PageWithin(sorted, page, limit);
    PageNonEmptyIff(sorted, page, limit);
    TaskPage(PageSlice(sorted, page, limit),
             PaginationInfo(page, limit, |sorted|, TotalPages(|sorted|, limit)))
  }
}
