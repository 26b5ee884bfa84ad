# Task manager core in Dafny

This project models the logic core of a single-session task-management web
client.

- **The task store** (`DataStore`). It keeps every user's tasks, the known users and the signed-in user. It signs users in and out. It creates, reads, updates and deletes tasks, always scoped to the signed-in user. It answers list queries: the user's own tasks, ANDed filter fields, a case-insensitive substring search, newest first, cut into pages with page metadata.
- **The task form.** It holds the field values, clears a field's error when that field is edited, validates the trimmed title and description on submit, and hands the data on only when validation passes.
- **The task list view.** It holds the filter, the search box and the pagination. Every filter change, search, clear or page-size change goes back to page 1. It also has the status and priority labels, the numbered page buttons, and the Previous/Next enablement.

## Files

- `types.dfy` (`Types`): users, tasks, the form data, partial updates, filters and page metadata.
- `text.dfy` (`Text`): `trim`, `length` in UTF-16 code units, `toLowerCase`/`toUpperCase` and `includes`.
- `query.dfy` (`Query`): the `getTasks` pipeline as pure functions.
  - The filter stages, in source order, are proved equal to one conjunctive pass.
  - The sort is an insertion sort. It is proved to order newest first, to permute its input and to be stable.
  - Pages use integer ceiling division and a slice clamped as `Array.slice` clamps.
- `store.dfy` (`Store`): `class DataStore` with fields `tasks`, `users` and `currentUser`. Its methods update those fields in place. The task ids and clock readings come in as parameters.
- `task_form.dfy` (`Form`): validation as functions, and `class TaskForm` with `HandleChange` and `HandleSubmit`.
- `task_list.dfy` (`ListView`): the list view's state and its transitions, as pure functions.
- `scenarios.dfy` (`Scenarios`): runs across the form and the store.
  - The demo account signs in.
  - A submitted form becomes a stored task that reads back unchanged.
  - An unchanged edit only refreshes `updatedAt`.

## Model

| member | source | states |
|---|---|---|
| Text.Trim | src/components/TaskForm.tsx:59-68 | no white space is left at either end, and the result is empty exactly when the input is all white space (the "required" test) |
| Text.TrimIsSlice | src/components/TaskForm.tsx:59-68 | what `trim` leaves is the slice of the input between an all-white-space prefix and an all-white-space suffix |
| Text.TrimIdempotent | src/components/TaskList.tsx:48 | trimming a trimmed term changes nothing |
| Text.TrimFixpoint | src/components/TaskForm.tsx:59-68 | a string with no white space at either end is its own trim |
| Text.ToLower | src/lib/dataStore.ts:119-122 | lower-cases each character in place, keeping the length |
| Text.LowerForgetsCase | src/lib/dataStore.ts:119-122 | lower-casing is idempotent and erases upper case, which is what makes the search case-insensitive |
| Text.Utf16Length | src/components/TaskForm.tsx:61-67 | `length` counts UTF-16 code units: at least one and at most two per character, and zero exactly for the empty string |
| Text.Utf16LengthBmp | src/components/TaskForm.tsx:61-67 | on text inside the Basic Multilingual Plane, `length` is the number of characters |
| Text.Contains | src/lib/dataStore.ts:121-122 | `includes` never finds a needle longer than the string |
| Text.ContainsHasOccurrence | src/lib/dataStore.ts:121-122 | when `includes` holds, the needle occurs at some index of the string |
| Text.OccurrenceContains | src/lib/dataStore.ts:121-122 | an occurrence of the needle at any index makes `includes` hold |
| Text.ContainsIff | src/lib/dataStore.ts:121-122 | `Text.Contains` (`includes`) holds exactly when the needle occurs at some index of the string |
| Query.Keep | src/lib/dataStore.ts:102 | `filter` keeps exactly the elements that pass and nothing else, and drops nothing only when every element passes |
| Query.KeepThenKeep | src/lib/dataStore.ts:102-124 | two filters in a row equal one filter on the conjunction |
| Query.PipelineIsConjunction | src/lib/dataStore.ts:102-125 | `Query.ApplyFilter` (the five optional stages, in source order) after owner scoping equals one pass keeping the owner's tasks that match every present field |
| Query.SearchIgnoresCase | src/lib/dataStore.ts:118-123 | the search term's case does not change which tasks match |
| Query.SearchHitIff | src/lib/dataStore.ts:118-123 | a task matches the search exactly when the lower-cased term occurs in its lower-cased title or description |
| Query.EmptySearchMatchesAll | src/lib/dataStore.ts:118 | the empty search term would match every task, so skipping it changes nothing |
| Query.Insert | src/lib/dataStore.ts:128 | inserting into a newest-first list keeps it newest first and adds exactly the new task |
| Query.InsertPermutes | src/lib/dataStore.ts:128 | an insertion adds one copy of the task to the multiset |
| Query.SortNewestFirst | src/lib/dataStore.ts:128 | the sorted list is newest first by `updatedAt` and is a permutation of the input |
| Query.SortStable | src/lib/dataStore.ts:128 | tasks with equal `updatedAt` keep their prior order |
| Query.TotalPages | src/lib/dataStore.ts:131-132 | the least page count whose pages hold `total` tasks (the ceiling), and 0 exactly when there are none |
| Query.Window | src/lib/dataStore.ts:133-135 | `slice(start, start + limit)` with clamping: at most `limit` elements, in order from `start`, empty from the end on |
| Query.PageSlice | src/lib/dataStore.ts:133-135 | the page holds the tasks from index `(page-1)*limit` on, at most `limit` of them, and is empty exactly when that index is past the end |
| Query.PageNonEmptyIff | src/lib/dataStore.ts:131-135 | a page has tasks exactly when `page <= totalPages` |
| Query.PagesCover | src/lib/dataStore.ts:131-135 | every task of the list appears on page `k / limit + 1` at position `k % limit` |
| Query.PageWithin | src/lib/dataStore.ts:133-135 | a page holds only tasks of the list and keeps its order |
| Query.VisibleExactly | src/lib/dataStore.ts:102-128 | the sorted selection holds exactly the user's matching tasks, as a multiset, newest first |
| Query.PageOf | src/lib/dataStore.ts:97-146 | the page holds the tasks of the user's matching, newest-first list from position `(page-1)*limit` on, `limit` of them or as many as remain when `page <= totalPages`; each is the user's and matches the filter; `page` and `limit` are echoed; `total` and `totalPages` count the whole selection; the page is empty exactly when `page > totalPages` |
| Store.FindUser | src/lib/dataStore.ts:54 | the first user whose username and password both match exactly, or none when no user matches |
| Store.FindOwned | src/lib/dataStore.ts:152 | the first task with this id owned by this user, or none when there is none |
| Store.NewTask | src/lib/dataStore.ts:84-90 | a created task carries the client's fields, the fresh id, the two clock readings and the signed-in user as owner |
| Store.Merge | src/lib/dataStore.ts:165-169 | an update never changes `id`, `createdAt` or `userId`, and always stamps `updatedAt` with the current time |
| Store.MergeFields | src/lib/dataStore.ts:165-169 | every field the update gives is replaced, and every field it leaves out is kept |
| Store.MergeFormData | src/lib/dataStore.ts:165-169 | saving the whole form replaces exactly the client fields |
| Store.MergeEmptyAndTwice | src/lib/dataStore.ts:165-169 | an empty update only refreshes `updatedAt`, and applying an update twice at the same time equals applying it once |
| Store.Remove | src/lib/dataStore.ts:181 | the deletion keeps every task except the user's tasks with this id, and shrinks the list exactly when such a task exists |
| Store.KeepUnique | src/lib/dataStore.ts:181 | filtering keeps task ids unique |
| Store.RemoveAtMostOne | src/lib/dataStore.ts:180-187 | with unique ids, a deletion removes at most one task |
| Store.DemoBatch | src/lib/dataStore.ts:191-241 | the demo batch is the five fixtures in order, each owned by the signed-in user and carrying its fresh id |
| Store.DemoCoversAll | src/lib/dataStore.ts:196-237 | the fixtures cover every status and every priority |
| Store.DataStore.constructor | src/lib/dataStore.ts:13-42 | stored tasks, users and session are restored; without stored users the demo user is seeded |
| Store.DataStore.Login | src/lib/dataStore.ts:53-61 | signs in a user exactly when one has these exact credentials, and then the first such user in the list; on no match the session is unchanged and none is returned |
| Store.DataStore.Logout | src/lib/dataStore.ts:63-68 | clears the session |
| Store.DataStore.GetCurrentUser | src/lib/dataStore.ts:70-72 | returns the session's user, which is present exactly when the store is authenticated |
| Store.DataStore.IsAuthenticated | src/lib/dataStore.ts:74-76 | true exactly when someone is signed in |
| Store.DataStore.CreateTask | src/lib/dataStore.ts:79-95 | fails with the not-signed-in error without a session; otherwise appends the new task owned by the user and returns it; ids stay unique given a fresh id |
| Store.DataStore.GetTasks | src/lib/dataStore.ts:97-146 | fails without a session; otherwise returns the page of the user's matching tasks |
| Store.DataStore.GetTaskById | src/lib/dataStore.ts:148-153 | fails without a session; finds a task exactly when the user owns one with this id, and then returns the first such task in the list; another user's task is never returned |
| Store.DataStore.UpdateTask | src/lib/dataStore.ts:155-173 | fails without a session; returns none and changes nothing when the user owns no such task; otherwise merges the update into the first such task and into no other, and returns it; other users' tasks and id uniqueness are kept |
| Store.DataStore.DeleteTask | src/lib/dataStore.ts:175-188 | fails without a session; otherwise removes the user's task with this id and returns whether the list shrank; other users' tasks stay |
| Store.DataStore.GenerateDemoData | src/lib/dataStore.ts:191-242 | fails without a session; otherwise appends the five fixtures in order, through `CreateTask` |
| Form.TitleError | src/components/TaskForm.tsx:59-63 | "Title is required" exactly for a blank title, "at least 3 characters" exactly for a trimmed `length` of 1 or 2 UTF-16 code units, and no error otherwise |
| Form.DescriptionError | src/components/TaskForm.tsx:65-69 | "Description is required" exactly for a blank description, "at least 10 characters" exactly for a trimmed `length` of 1 to 9 UTF-16 code units, and no error otherwise |
| Form.Validate | src/components/TaskForm.tsx:56-71 | the error map has an entry for the title or the description exactly when that field fails, holding that field's message |
| Form.ValidateForm | src/components/TaskForm.tsx:56-73 | the form is valid exactly when the trimmed title is at least 3 and the trimmed description at least 10 UTF-16 code units long |
| Form.AstralTitleAccepted | src/components/TaskForm.tsx:61 | a title of one character outside the Basic Multilingual Plane and one other character is two characters long but passes the length test |
| Form.ErrorsIndependent | src/components/TaskForm.tsx:59-69 | each field's error depends on that field alone |
| Form.ApplyEdit | src/components/TaskForm.tsx:38-45 | the named field takes the event's value (the checked state for a checkbox) and every other field is kept |
| Form.ApplyEditNoChange | src/components/TaskForm.tsx:42-45 | an edit to the value a field already holds changes nothing |
| Form.BothBlankBothRequired | src/components/TaskForm.tsx:56-73 | a blank title and a blank description fail with exactly the two "required" messages |
| Form.BlankFormRejected | src/components/TaskForm.tsx:14-21 | the initial empty form fails with both "required" messages |
| Form.TaskForm.constructor | src/components/TaskForm.tsx:14-36 | the form starts blank with defaults todo and medium, or filled from the task being edited, with no errors |
| Form.TaskForm.HandleChange | src/components/TaskForm.tsx:38-54 | the field is updated and only that field's error is cleared |
| Form.TaskForm.HandleSubmit | src/components/TaskForm.tsx:75-80 | the errors shown are the validation errors; the data is handed on exactly when it validates |
| ListView.MergeLaws | src/components/TaskList.tsx:42-43 | merging a filter change is idempotent, the empty change is the identity, and a change that gives every field replaces the filter |
| ListView.HandleFilterChange | src/components/TaskList.tsx:42-45 | each field given is replaced (with none for `undefined`) and the rest kept; the pagination is kept except that the page goes back to 1 |
| ListView.FilterChangeIdempotent | src/components/TaskList.tsx:42-45 | repeating a filter change has no further effect |
| ListView.ParseStatusChoice | src/components/TaskList.tsx:166-167 | the chosen status is the one with that value, and '' means no status filter |
| ListView.ParsePriorityChoice | src/components/TaskList.tsx:185-186 | the chosen priority is the one with that value, and '' means no priority filter |
| ListView.ParseBoolChoice | src/components/TaskList.tsx:204-208 | '' means no filter, "true" means true, and anything else means false |
| ListView.ChoicesRoundTrip | src/components/TaskList.tsx:166-230 | each select reads back exactly the filter value it displays |
| ListView.SelectingShownChoice | src/components/TaskList.tsx:164-238 | choosing the option a select shows for a filter value sets exactly that filter field to that value, and the empty option removes the field |
| ListView.SearchValue | src/components/TaskList.tsx:48 | the submitted term is the trimmed text, or none exactly when the text is blank |
| ListView.HandleSearch | src/components/TaskList.tsx:47-49 | only the search field changes: the trimmed term, or none for a blank one; back to page 1 |
| ListView.SearchTakesEffect | src/components/TaskList.tsx:47-49 | after a search the store searches exactly when the term was not blank, and then for the trimmed term |
| ListView.SearchIdempotent | src/components/TaskList.tsx:47-49 | searching again with the same text changes nothing |
| ListView.ClearFilters | src/components/TaskList.tsx:57-61 | empty filter, empty search box, page 1 |
| ListView.ClearedSelectsAllOwned | src/components/TaskList.tsx:57-61 | after clearing, the store selects every task of the user |
| ListView.ChangePageSize | src/components/TaskList.tsx:264-265 | the new page size and page 1, the rest kept |
| ListView.HandlePageChange | src/components/TaskList.tsx:63-65 | only the page changes |
| ListView.Load | src/components/TaskList.tsx:25-36 | the new state is the old one with the tasks and the metadata replaced by the store's page for the view's filter, page and size; `totalPages` counts the whole selection |
| ListView.TransitionsStayQueryable | src/components/TaskList.tsx:42-61 | filter changes, searches, clears, page-size choices and reloads keep page and size at least 1 |
| ListView.InitialQueryable | src/components/TaskList.tsx:14-23 | the view starts on page 1 of size 5 with a filter that matches everything |
| ListView.FormatStatus | src/components/TaskList.tsx:97-110 | every status has a non-empty label |
| ListView.StatusLabels | src/components/TaskList.tsx:170-174 | each status is labelled as the status select labels the option with that status's value: To Do, In Progress, Review, Done |
| ListView.StatusLabelsDistinct | src/components/TaskList.tsx:97-110 | no two statuses share a label |
| ListView.Capitalize | src/components/TaskList.tsx:113 | upper-cases the first character, keeps the rest and the length |
| ListView.FormatPriority | src/components/TaskList.tsx:112-114 | the priority's value with its first letter upper-cased, and as long as that value |
| ListView.PriorityLabels | src/components/TaskList.tsx:112-114 | the labels are Low, Medium, High and Critical, and lower-casing a label gives back the stored value |
| ListView.PriorityOptionLabels | src/components/TaskList.tsx:189-193 | each priority is labelled as the priority select labels the option with that priority's value |
| ListView.PageButtons | src/components/TaskList.tsx:346 | the buttons are numbered 1 through `totalPages` |
| ListView.BarShownIff | src/components/TaskList.tsx:336 | on a loaded page the bar (`ShowsPagination`) is shown exactly when the tasks do not fit on one page |
| ListView.PreviousEnabledIff | src/components/TaskList.tsx:338-340 | on a loaded page within range, Previous (`PreviousDisabled`) is enabled exactly when there is an earlier page with tasks |
| ListView.NextEnabledIff | src/components/TaskList.tsx:360-362 | on a loaded page within range, Next (`NextDisabled`) is enabled exactly when the next page has tasks |
| ListView.PreviousStaysQueryable | src/components/TaskList.tsx:338-340 | Previous is enabled only off page 1, so pressing it never leaves page 1 behind |
| ListView.PageButtonsLeadToTasks | src/components/TaskList.tsx:346-349 | every numbered button leads to a page with tasks on it |
| ListView.NextFixAgrees | src/components/TaskList.tsx:360-362 | on a page within range, the corrected Next test agrees with the written one |
| ListView.NextFixedLeadsToTasks | src/components/TaskList.tsx:360-362 | with the corrected test, an enabled Next always leads to a page with tasks |
| ListView.NextEnabledPastLastPage | src/components/TaskList.tsx:336-362 | on a page past the last one, the bar is shown and Next stays enabled yet leads to another empty page |
| ListView.StrandedPastOnlyPage | src/components/TaskList.tsx:25-40 | when the tasks fit on one page and the view is past it, a reload shows no tasks and no navigation bar |
| Scenarios.DemoSession | src/lib/dataStore.ts:53-68 | on a fresh store the demo credentials sign in, a wrong password does not, and after sign-out creating a task fails |
| Scenarios.FillInAndSubmit | src/components/TaskForm.tsx:38-80 | a form filled in with some data hands over that data exactly when it validates |
| Scenarios.CreateAndReadBack | src/lib/dataStore.ts:79-153 | in the demo user's session a created task carries the given values, is owned by the demo user and reads back by its id |
| Scenarios.SubmitAndCreate | src/lib/dataStore.ts:79-95 | data from the form becomes a task owned by the signed-in user that reads back by its id with the same fields |
| Scenarios.OpenAndSubmit | src/components/TaskForm.tsx:25-36 | a form opened on a task and submitted untouched hands over that task's fields |
| Scenarios.SaveAsOwner | src/lib/dataStore.ts:155-173 | the owner of a task, signed in to a store holding it, saves form data: the saved task is the task merged with that data |
| Scenarios.SaveUnchanged | src/lib/dataStore.ts:155-173 | saving an edited task unchanged only refreshes its `updatedAt` |

## Findings

| source | as written | input that shows it | evidently intended | confidence | as-written member | corrected member |
|---|---|---|---|---|---|---|
| src/components/TaskList.tsx:362 | Next is disabled only when `page === totalPages` | with 11 matching tasks and page size 5, page 3 holds one task. Deleting it reloads page 3 with `totalPages` 2. The list is empty, the bar is still shown, and Next leads to page 4, which is empty too | Next disabled whenever `page >= totalPages` | medium, not executed | ListView.NextEnabledPastLastPage | ListView.NextFixedLeadsToTasks |

A reload keeps the current page, and a deletion does not reset it, so the page can end up past the last one. The corrected test, `NextDisabledFixed`, agrees with the written one on every page within range (`ListView.NextFixAgrees`).

When the deletion leaves a single page instead (6 tasks at size 5, on page 2), the bar is hidden as well, so the empty page has no navigation at all (`ListView.StrandedPastOnlyPage`). Several things take the user off that page. A filter change, a search, clearing or a page-size change goes back to page 1. Creating a task, saving an edit or generating the demo data on the dashboard reloads the same page, which may then hold tasks (an edit can make a task match the filter). Going to the separate create page and coming back mounts the list afresh on page 1; editing happens on the dashboard itself, so the list stays mounted and keeps its page.

## Left out

- Persistence: `localStorage` and `saveToStorage` are not modelled. The constructor takes the stored tasks, users and session as already-parsed optional values. JSON parsing and the browser check are not modelled.
- Store.DataStore.CreateTask: `uuidv4()` and the two clock reads are parameters. Uniqueness of ids is proved only for a caller-supplied fresh id.
- Store.DataStore.UpdateTask: the clock is a parameter. Timestamps are integers rather than ISO-8601 strings, and the sort compares them directly.
- Store.DataStore.GenerateDemoData: takes the five ids and ten clock readings as parameters. It requires at least that many.
- Store.DataStore.GetTasks: requires `page >= 1` and `limit >= 1`. `Math.ceil` over floating division and `slice` with negative indices are not modelled for other values. The default arguments (`page = 1`, `limit = 10`) are not modelled, because every caller passes both.
- The thrown error's message text is not modelled: every store operation fails with the one error value `Unauthenticated`.
- Store.Merge: an update key that is present but `undefined` is treated as absent, so it does not blank the field.
- Text.ToLower: maps ASCII letters only. Full Unicode case mapping is not modelled.
- Text.ToUpper: maps ASCII letters only, as above.
- ListView.Capitalize: maps ASCII letters only, as above.
- Form: the form's `isLoading` flag, the cancel button and the markup are not modelled. The `task` effect is modelled as the constructor's initial values.
- Form.TaskForm.HandleChange: an error entry is removed rather than set to `undefined`. Both look the same on screen.
- ListView: the `isLoading` flag, the console error on a failed load and the colour helpers (`getPriorityColor`, `getStatusColor`) are presentation and are not modelled.
- ListView.ChangePageSize: accepts any size. Only the sizes the select offers (5, 10, 20) are proved to keep the view queryable.
- ListView.ParseStatusChoice: a select value other than the four statuses cannot come from the select. It is read as no filter.
- ListView.ParsePriorityChoice: the same holds for a priority value outside the four.
- Navigation, authentication context and page components: these are presentation and routing glue and are not part of this model.
- React's asynchronous state updates and re-render scheduling are not modelled. Each handler is one atomic state change.
