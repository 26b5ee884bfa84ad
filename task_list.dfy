/** The task list view's state and its transitions: the filter selects, the
    search box, clearing, page size and page navigation, the status and
    priority labels, and when Previous and Next are enabled. Every transition
    is a pure update of the state React holds. */
module ListView {
  import opened Types
  import opened Text
  import opened Query

  /** The page of tasks on show, its metadata, the filter the store is
      queried with, and the text in the search box. */
  datatype ListState = ListState(
    tasks: seq<Task>,
    pagination: PaginationInfo,
    filter: TaskFilter,
    searchTerm: string)

  /** Nothing loaded yet, page 1 of size 5, no filter, empty search box. */
  const InitialState: ListState := ListState([], PaginationInfo(1, 5, 0, 0), EmptyFilter, "")

  /** A state whose page and page size the store accepts. */
  predicate Queryable(s: ListState) {
    s.pagination.page >= 1 && s.pagination.limit >= 1
  }

  /** One field of a `Partial<TaskFilter>`: left out, or given (possibly as
      `undefined`). */
  datatype Patch<T> = Unchanged | Assign(value: Option<T>)

  function Patched<T>(p: Patch<T>, current: Option<T>): Option<T> {
    match p
    case Unchanged => current
    case Assign(v) => v
  }

  datatype FilterPatch = FilterPatch(
    status: Patch<TaskStatus>,
    priority: Patch<TaskPriority>,
    isCompleted: Patch<bool>,
    isUrgent: Patch<bool>,
    search: Patch<string>)

  const NoChange: FilterPatch := FilterPatch(Unchanged, Unchanged, Unchanged, Unchanged, Unchanged)

  /** `{...prev, ...newFilter}`. */
  function MergeFilter(f: TaskFilter, p: FilterPatch): TaskFilter {
    TaskFilter(Patched(p.status, f.status), Patched(p.priority, f.priority),
               Patched(p.isCompleted, f.isCompleted), Patched(p.isUrgent, f.isUrgent),
               Patched(p.search, f.search))
  }

  /** The patch that gives every field of `g`. */
  function Overwrite(g: TaskFilter): FilterPatch {
    FilterPatch(Assign(g.status), Assign(g.priority), Assign(g.isCompleted),
                Assign(g.isUrgent), Assign(g.search))
  }

  /** Merging is idempotent, the empty patch changes nothing, and a patch
      that gives every field replaces the whole filter. */
  lemma MergeLaws(f: TaskFilter, p: FilterPatch, g: TaskFilter)
    ensures MergeFilter(MergeFilter(f, p), p) == MergeFilter(f, p)
    ensures MergeFilter(f, NoChange) == f
    ensures MergeFilter(f, Overwrite(g)) == g
  {
  }

  /** `handleFilterChange`: the patch is merged over the filter and the view
      goes back to page 1 with the same page size; the search box text and the
      tasks on show are kept until the reload. */
  function HandleFilterChange(s: ListState, p: FilterPatch): (r: ListState)
    ensures r.filter.status == (if p.status.Assign? then p.status.value else s.filter.status)
    ensures r.filter.priority == (if p.priority.Assign? then p.priority.value else s.filter.priority)
    ensures r.filter.isCompleted == (if p.isCompleted.Assign? then p.isCompleted.value else s.filter.isCompleted)
    ensures r.filter.isUrgent == (if p.isUrgent.Assign? then p.isUrgent.value else s.filter.isUrgent)
    ensures r.filter.search == (if p.search.Assign? then p.search.value else s.filter.search)
    ensures r.pagination == s.pagination.(page := 1)
    ensures r.tasks == s.tasks && r.searchTerm == s.searchTerm
  {
    s.(filter := MergeFilter(s.filter, p), pagination := s.pagination.(page := 1))
  }

  /** Applying the same filter change twice is applying it once. */
  lemma FilterChangeIdempotent(s: ListState, p: FilterPatch)
    ensures HandleFilterChange(HandleFilterChange(s, p), p) == HandleFilterChange(s, p)
  {
  }

  /** The value shown by the status select: the status, or '' for none. */
  function ShowStatusChoice(o: Option<TaskStatus>): string {
    match o
    case None => ""
    case Some(st) => StatusValue(st)
  }

  /** The status select's change handler reading its value back: '' means no
      status filter. */
  function ParseStatusChoice(v: string): (o: Option<TaskStatus>)
    ensures o.Some? ==> StatusValue(o.value) == v
    ensures v == "" ==> o.None?
  {
    if v == "todo" then Some(Todo)
    else if v == "in_progress" then Some(InProgress)
    else if v == "review" then Some(Review)
    else if v == "done" then Some(Done)
    else None
  }

  function ShowPriorityChoice(o: Option<TaskPriority>): string {
    match o
    case None => ""
    case Some(p) => PriorityValue(p)
  }

  function ParsePriorityChoice(v: string): (o: Option<TaskPriority>)
    ensures o.Some? ==> PriorityValue(o.value) == v
    ensures v == "" ==> o.None?
  {
    if v == "low" then Some(Low)
    else if v == "medium" then Some(Medium)
    else if v == "high" then Some(High)
    else if v == "critical" then Some(Critical)
    else None
  }

  /** The value shown by the completion and urgency selects. */
  function ShowBoolChoice(o: Option<bool>): string {
    match o
    case None => ""
    case Some(b) => if b then "true" else "false"
  }

  /** `value === '' ? undefined : value === 'true'`. */
  function ParseBoolChoice(v: string): (o: Option<bool>)
    ensures o.None? <==> v == ""
    ensures o == Some(true) <==> v == "true"
  {
    if v == "" then None else Some(v == "true")
  }

  /** Each select reads back exactly the choice it shows, so a filter field
      survives being displayed and re-selected. */
  lemma ChoicesRoundTrip(st: Option<TaskStatus>, p: Option<TaskPriority>, b: Option<bool>)
    ensures ParseStatusChoice(ShowStatusChoice(st)) == st
    ensures ParsePriorityChoice(ShowPriorityChoice(p)) == p
    ensures ParseBoolChoice(ShowBoolChoice(b)) == b
  {
  }

  /** The filter change each select's handler makes. */
  function StatusSelected(v: string): FilterPatch {
    NoChange.(status := Assign(ParseStatusChoice(v)))
  }

  function PrioritySelected(v: string): FilterPatch {
    NoChange.(priority := Assign(ParsePriorityChoice(v)))
  }

  function CompletionSelected(v: string): FilterPatch {
    NoChange.(isCompleted := Assign(ParseBoolChoice(v)))
  }

  function UrgencySelected(v: string): FilterPatch {
    NoChange.(isUrgent := Assign(ParseBoolChoice(v)))
  }

  /** Choosing the option a select shows for a filter value sets that filter
      field to exactly that value and leaves the other fields alone; the empty
      option ("All ...") removes the field from the filter. */
  lemma SelectingShownChoice(s: ListState, st: Option<TaskStatus>, p: Option<TaskPriority>, b: Option<bool>)
    ensures HandleFilterChange(s, StatusSelected(ShowStatusChoice(st))).filter == s.filter.(status := st)
    ensures HandleFilterChange(s, PrioritySelected(ShowPriorityChoice(p))).filter == s.filter.(priority := p)
    ensures HandleFilterChange(s, CompletionSelected(ShowBoolChoice(b))).filter == s.filter.(isCompleted := b)
    ensures HandleFilterChange(s, UrgencySelected(ShowBoolChoice(b))).filter == s.filter.(isUrgent := b)
  {
    ChoicesRoundTrip(st, p, b);
  }

  /** What the search button submits: the trimmed term, or `undefined` when
      nothing but white space was typed. */
  function SearchValue(term: string): (o: Option<string>)
    ensures o.None? <==> AllSpace(term)
    ensures o.Some? ==> o.value == Trim(term) && o.value != []
  {
    var t := Trim(term);
    if t == [] then None else Some(t)
  }

  /** `handleSearch`: only the search field changes, the view goes back to
      page 1, and a blank term clears the search. */
  function HandleSearch(s: ListState): (r: ListState)
    ensures r.filter.(search := s.filter.search) == s.filter
    ensures r.filter.search.None? <==> AllSpace(s.searchTerm)
    ensures r.filter.search.Some? ==> r.filter.search.value == Trim(s.searchTerm)
    ensures r.pagination == s.pagination.(page := 1)
    ensures r.tasks == s.tasks && r.searchTerm == s.searchTerm
  {
    HandleFilterChange(s, NoChange.(search := Assign(SearchValue(s.searchTerm))))
  }

  /** After a search the store applies a search exactly when the term was not
      blank, and then it looks for the trimmed term. */
  lemma SearchTakesEffect(s: ListState, t: Task)
    ensures HasSearch(HandleSearch(s).filter) <==> !AllSpace(s.searchTerm)
    ensures !AllSpace(s.searchTerm) ==>
      (Matches(HandleSearch(s).filter, t) <==> Matches(s.filter.(search := None), t) && SearchHit(Trim(s.searchTerm), t))
    ensures AllSpace(s.searchTerm) ==>
      (Matches(HandleSearch(s).filter, t) <==> Matches(s.filter.(search := None), t))
  {
  }

  /** Searching again with the same text changes nothing more. */
  lemma SearchIdempotent(s: ListState)
    ensures HandleSearch(HandleSearch(s)) == HandleSearch(s)
  {
  }

  /** `clearFilters`: no filter, an empty search box, page 1. */
  function ClearFilters(s: ListState): (r: ListState)
    ensures r.filter == EmptyFilter && r.searchTerm == []
    ensures r.pagination == s.pagination.(page := 1)
    ensures r.tasks == s.tasks
  {
    s.(filter := EmptyFilter, searchTerm := "", pagination := s.pagination.(page := 1))
  }

  /** After clearing, the store selects every task of the user. */
  lemma {:induction false} ClearedSelectsAllOwned(s: ListState, all: seq<Task>, uid: string)
    ensures Selected(all, uid, ClearFilters(s).filter) == Keep(all, OwnedBy(uid))
  {
    KeepAgree(all, Wanted(uid, EmptyFilter), OwnedBy(uid));
  }

  /** The "Items per page" select: the new size and page 1. */
  function ChangePageSize(s: ListState, size: int): (r: ListState)
    ensures r.pagination.limit == size && r.pagination.page == 1
    ensures r.pagination.total == s.pagination.total
    ensures r.pagination.totalPages == s.pagination.totalPages
    ensures r.filter == s.filter && r.searchTerm == s.searchTerm && r.tasks == s.tasks
  {
    s.(pagination := s.pagination.(limit := size, page := 1))
  }

  /** The page sizes the select offers. */
  const PageSizes: seq<int> := [5, 10, 20]

  /** `handlePageChange`: only the page changes. */
  function HandlePageChange(s: ListState, newPage: int): (r: ListState)
    ensures r.pagination.page == newPage
    ensures r.pagination.(page := s.pagination.page) == s.pagination
    ensures r.filter == s.filter && r.searchTerm == s.searchTerm && r.tasks == s.tasks
  {
    s.(pagination := s.pagination.(page := newPage))
  }

  /** `loadTasks`: the page the store returns for the state's filter, page
      and page size replaces the tasks and the metadata on show: the tasks
      from position `(page - 1) * limit` of the owner's matching tasks,
      newest first. */
  function Load(s: ListState, all: seq<Task>, uid: string): (r: ListState)
    requires Queryable(s)
    ensures var result := PageOf(all, uid, s.filter, s.pagination.page, s.pagination.limit);
      r == s.(tasks := result.tasks, pagination := result.pagination)
    ensures r.filter == s.filter && r.searchTerm == s.searchTerm
    ensures r.pagination.page == s.pagination.page && r.pagination.limit == s.pagination.limit
    ensures r.pagination.total == |Selected(all, uid, s.filter)|
    ensures r.pagination.totalPages == TotalPages(|Selected(all, uid, s.filter)|, s.pagination.limit)
    ensures forall t :: t in r.tasks ==> t in all && t.userId == uid && Matches(s.filter, t)
    ensures |r.tasks| <= s.pagination.limit
    ensures r.tasks == [] <==> r.pagination.page > r.pagination.totalPages
  {
    var result := PageOf(all, uid, s.filter, s.pagination.page, s.pagination.limit);
    s.(tasks := result.tasks, pagination := result.pagination)
  }

  /** Every handler keeps the page and page size acceptable to the store:
      filter changes, searches, clearing and reloads go to or keep a page of
      at least 1, and a new page size from the select is positive. */
  lemma TransitionsStayQueryable(s: ListState, p: FilterPatch, size: int, all: seq<Task>, uid: string)
    requires Queryable(s)
    ensures Queryable(HandleFilterChange(s, p))
    ensures Queryable(HandleSearch(s))
    ensures Queryable(ClearFilters(s))
    ensures size in PageSizes ==> Queryable(ChangePageSize(s, size))
    ensures Queryable(Load(s, all, uid))
  {
  }

  /** Initially the view can be queried, with no filter and page 1. */
  lemma InitialQueryable()
    ensures Queryable(InitialState)
    ensures forall t :: Matches(InitialState.filter, t)
  {
  }

  /** The label of a status. */
  function FormatStatus(st: TaskStatus): (caption: string)
    ensures caption != []
  {
    match st
    case Todo => "To Do"
    case InProgress => "In Progress"
    case Review => "Review"
    case Done => "Done"
  }

  /** The options of the status select, as (value, label) pairs. */
  const StatusOptions: seq<(string, string)> :=
    [("", "All Statuses"), ("todo", "To Do"), ("in_progress", "In Progress"),
     ("review", "Review"), ("done", "Done")]

  /** A status is labelled as the status select labels its option. */
  lemma StatusLabels(st: TaskStatus)
    ensures (StatusValue(st), FormatStatus(st)) in StatusOptions
  {
    var k := match st case Todo => 1 case InProgress => 2 case Review => 3 case Done => 4;
    assert StatusOptions[k] == (StatusValue(st), FormatStatus(st));
  }

  /** No two statuses share a label. */
  lemma StatusLabelsDistinct(a: TaskStatus, b: TaskStatus)
    ensures FormatStatus(a) == FormatStatus(b) ==> a == b
  {
  }

  /** `s.charAt(0).toUpperCase() + s.slice(1)`. */
  function Capitalize(s: string): (r: string)
    ensures |r| == |s|
    ensures s != [] ==> r[0] == UpperChar(s[0]) && r[1..] == s[1..]
  {
    if s == [] then [] else [UpperChar(s[0])] + s[1..]
  }

  /** The label of a priority: its stored value with the first letter in
      upper case, so as long as that value. */
  function FormatPriority(p: TaskPriority): (caption: string)
    ensures |caption| == |PriorityValue(p)|
    ensures caption[0] == UpperChar(PriorityValue(p)[0])
    ensures caption[1..] == PriorityValue(p)[1..]
  {
    Capitalize(PriorityValue(p))
  }

  /** The options of the priority select, as (value, label) pairs. */
  const PriorityOptions: seq<(string, string)> :=
    [("", "All Priorities"), ("low", "Low"), ("medium", "Medium"),
     ("high", "High"), ("critical", "Critical")]

  /** The priority labels are the option labels of the priority select, and
      lower-casing a label gives back the stored value. */
  lemma PriorityLabels(p: TaskPriority)
    ensures FormatPriority(p) == match p
      case Low => "Low" case Medium => "Medium" case High => "High" case Critical => "Critical"
    ensures ToLower(FormatPriority(p)) == PriorityValue(p)
  {
    var v := PriorityValue(p);
    var caption := FormatPriority(p);
    assert forall i :: 0 <= i < |v| ==> 'a' <= v[i] <= 'z' || v[i] == '_';
    assert forall i :: 0 <= i < |v| ==> LowerChar(caption[i]) == v[i];
  }

  /** A priority is labelled as the priority select labels its option. */
  lemma PriorityOptionLabels(p: TaskPriority)
    ensures (PriorityValue(p), FormatPriority(p)) in PriorityOptions
  {
    PriorityLabels(p);
    var k := match p case Low => 1 case Medium => 2 case High => 3 case Critical => 4;
    assert PriorityOptions[k] == (PriorityValue(p), FormatPriority(p));
  }

  /** Previous is disabled on the first page. */
  predicate PreviousDisabled(p: PaginationInfo) {
    p.page == 1
  }

  /** Next as written: disabled only when the page is exactly the last one. */
  predicate NextDisabled(p: PaginationInfo) {
    p.page == p.totalPages
  }

  /** Next as intended: disabled on the last page and on any page past it. */
  predicate NextDisabledFixed(p: PaginationInfo) {
    p.page >= p.totalPages
  }

  /** The navigation bar is shown only when there is more than one page. */
  predicate ShowsPagination(p: PaginationInfo) {
    p.totalPages > 1
  }

  /** The numbered page buttons: 1 through `totalPages`. */
  function PageButtons(totalPages: nat): (r: seq<int>)
    ensures |r| == totalPages
    ensures forall i :: 0 <= i < |r| ==> r[i] == i + 1
  {
    seq(totalPages, i => i + 1)
  }

  /** On a loaded page the navigation bar is shown exactly when the tasks do
      not fit on one page. */
  lemma BarShownIff(s: ListState, all: seq<Task>, uid: string)
    requires Queryable(s)
    ensures var r := Load(s, all, uid).pagination;
      ShowsPagination(r) <==> r.total > r.limit
  {
    var r := Load(s, all, uid).pagination;
    if r.totalPages > 1 {
      MulMonotone(1, r.totalPages - 1, r.limit);
    } else {
      MulMonotone(r.totalPages, 1, r.limit);
    }
  }

  /** On a loaded page within range, Previous is enabled exactly when there
      is an earlier page with tasks on it. */
  lemma PreviousEnabledIff(s: ListState, all: seq<Task>, uid: string)
    requires Queryable(s)
    requires s.pagination.page <= TotalPages(|Selected(all, uid, s.filter)|, s.pagination.limit)
    ensures var r := Load(s, all, uid).pagination;
      !PreviousDisabled(r) <==> r.page - 1 >= 1 && PageOf(all, uid, s.filter, r.page - 1, r.limit).tasks != []
  {
  }

  /** On a loaded page within range, Next is enabled exactly when the next
      page has tasks on it. */
  lemma NextEnabledIff(s: ListState, all: seq<Task>, uid: string)
    requires Queryable(s)
    requires s.pagination.page <= TotalPages(|Selected(all, uid, s.filter)|, s.pagination.limit)
    ensures var r := Load(s, all, uid).pagination;
      !NextDisabled(r) <==> PageOf(all, uid, s.filter, r.page + 1, r.limit).tasks != []
  {
  }

  /** Pressing Previous when it is enabled leads to a page the store accepts. */
  lemma PreviousStaysQueryable(s: ListState)
    requires Queryable(s) && !PreviousDisabled(s.pagination)
    ensures Queryable(HandlePageChange(s, s.pagination.page - 1))
  {
  }

  /** Every numbered button of a loaded page leads to a page with tasks on it. */
  lemma PageButtonsLeadToTasks(s: ListState, all: seq<Task>, uid: string, i: int)
    requires Queryable(s)
    requires 0 <= i < |PageButtons(Load(s, all, uid).pagination.totalPages)|
    ensures var k := PageButtons(Load(s, all, uid).pagination.totalPages)[i];
      k >= 1 && PageOf(all, uid, s.filter, k, s.pagination.limit).tasks != []
  {
  }

  /** Where a loaded page lies within range, the intended Next agrees with
      the written one. */
  lemma NextFixAgrees(p: PaginationInfo)
    requires p.page <= p.totalPages
    ensures NextDisabledFixed(p) <==> NextDisabled(p)
  {
  }

  /** With the intended test, pressing Next on a loaded page always leads to a
      page with tasks on it. */
  lemma NextFixedLeadsToTasks(s: ListState, all: seq<Task>, uid: string)
    requires Queryable(s)
    requires !NextDisabledFixed(Load(s, all, uid).pagination)
    ensures PageOf(all, uid, s.filter, s.pagination.page + 1, s.pagination.limit).tasks != []
  {
  }

  /** A reload keeps the page even when the tasks now fit on one page: past
      that page the view shows no tasks and no navigation bar at all. */
  lemma StrandedPastOnlyPage(s: ListState, all: seq<Task>, uid: string)
    requires Queryable(s)
    requires 1 >= TotalPages(|Selected(all, uid, s.filter)|, s.pagination.limit)
    requires s.pagination.page > TotalPages(|Selected(all, uid, s.filter)|, s.pagination.limit)
    ensures var r := Load(s, all, uid);
      r.tasks == [] && !ShowsPagination(r.pagination)
  {
  }

  /** The written test leaves Next enabled on a page past the last one: a
      reload keeps the page, so after deleting the only task of the last page
      the view shows an empty page with the bar still up, and Next leads to
      another empty page. */
  lemma NextEnabledPastLastPage(s: ListState, all: seq<Task>, uid: string)
    requires Queryable(s)
    requires s.pagination.page > TotalPages(|Selected(all, uid, s.filter)|, s.pagination.limit) >= 2
    ensures var r := Load(s, all, uid);
      && r.tasks == []
      && ShowsPagination(r.pagination)
      && !NextDisabled(r.pagination)
      && NextDisabledFixed(r.pagination)
      && PageOf(all, uid, s.filter, s.pagination.page + 1, s.pagination.limit).tasks == []
  {
  }
}
