# To-do widget task store, in Dafny

This project models the in-memory task store behind a browser to-do widget (`js/script.js`).
The page keeps a list of task records `{id, title, category, completed}` and a fixed registry
of two categories (Business and Personal). It also keeps the current filter value and the
visibility of the filter pop-up menu. From these it derives two views:

- the category cards: per-category task totals and a completion bar;
- the task rows: the tasks that pass the current filter.

User clicks change the state in three ways:

- clicking a task row flips that task's completion flag;
- choosing a menu option sets the filter, or deletes every task;
- clicking the filter button shows or hides the menu.

Everything is modelled as pure functions over immutable sequences:

- `tasks.dfy` (module `Tasks`): the task record, the completion flip and the seed list.
- `categories.dfy` (`Categories`): the registry as an ordered sequence of entries, following the
  iteration order of a JavaScript object with string keys. It also holds the lookup
  `categories[key]`.
- `filter.dfy` (`TaskFilter`): the "open"/"closed"/anything-else filter. An independent index
  characterisation (`MatchingIndices`) pins down exactly which tasks are kept and in which order.
- `summary.dfy` (`CategorySummary`): the `reduce` that builds per-category counts (`Tally`), which
  is proved equal to plain counting. Also the registry walk (`Summary`) and the percentage.
- `toggle.dfy` (`TaskToggle`): `tasks.find` by id and the flip of the first match, with how a
  toggle moves the summary.
- `menu.dfy` (`FilterMenu`): the state record `{tasks, filter, menuHidden}` and the menu handlers.
- `view.dfy` (`View`): the rendered sections as data: one card per registered category, one row
  per filtered task.

The functions take the registry as a parameter, so the properties hold for any registry.
`Categories.Registry` is the one the page ships with.

Two behaviours of the code worth knowing:

- "delete-all" clears the list and resets the filter only when the list is non-empty
  (js/script.js:160). On an empty list it leaves the filter as it was.
- The filter value is any string. Values other than "open" and "closed" show the whole list
  (js/script.js:75-81).

## Model

| member | source | states |
|---|---|---|
| Tasks.Flip | js/script.js:139 | the flipped task keeps id, title and category and has the opposite completion flag |
| TaskFilter.MatchingIndices | js/script.js:77-80 | the indices kept for a completion value are increasing, in range, all matching, and include every matching index |
| TaskFilter.Keep | js/script.js:78-80 | `Array.filter` on the completion flag yields exactly the tasks at the matching indices, in list order; a task is in the result iff it is in the list with that flag |
| TaskFilter.FilterTasks | js/script.js:75-81 | "open" gives exactly the incomplete tasks and "closed" exactly the completed ones, each in original order; any other value gives the list unchanged |
| TaskFilter.OpenClosedPartition | js/script.js:77-80 | every index is kept by exactly one of "open"/"closed"; the two views' lengths sum to the list length, share no task and together contain every task |
| TaskFilter.EmptyFiltersToEmpty | js/script.js:75-81 | an empty list filters to an empty list under every filter value |
| Categories.Lookup | js/script.js:84 | `categories[key]` yields an entry of the registry carrying that key, and nothing exactly when the key is unregistered |
| Categories.LookupFindsEntry | js/script.js:16-19 | with distinct keys, looking up entry i's key yields entry i |
| Categories.RegistryDistinct | js/script.js:16-19 | the shipped registry's keys are distinct, as object keys are |
| CategorySummary.NumDone | js/script.js:48-50 | a category never has more completed tasks than tasks |
| CategorySummary.Contribution | js/script.js:47-50 | one task adds 1 to its own category's total, and 1 to its completed count iff it is completed; it adds nothing to other categories |
| CategorySummary.NumAppend | js/script.js:43-52 | one more task at the end of the list adds exactly its contribution to each category's counts |
| CategorySummary.NumConcat | js/script.js:43-52 | the counts of a concatenation are the sums of the counts of its parts |
| CategorySummary.Tally | js/script.js:43-52 | the reduce's map has a key exactly for the categories that occur in the list, holding each one's task count and completed count |
| CategorySummary.CountsFor | js/script.js:56 | a category missing from the reduce's map gets {0, 0}; any category gets its true task count and completed count, completed at most total |
| CategorySummary.Summary | js/script.js:54-56 | one entry per registered category in registry order, each with that category's task total and completed count over the whole list, completed at most total |
| CategorySummary.Percent | js/script.js:57 | the percentage is 0 for an empty category and otherwise completed*100/total, hence within [0, 100] |
| CategorySummary.UnregisteredTaskIgnored | js/script.js:43-56 | inserting a task of an unregistered category anywhere in the list changes no summary entry |
| CategorySummary.EmptySummary | js/script.js:56-57 | with no tasks every registered category gets {0, 0} and a 0% bar |
| CategorySummary.InitialSummary | js/script.js:3-19 | on the seed data Business has 5 tasks with 1 completed and Personal 5 with 2 completed |
| CategorySummary.InitialPercentages | js/script.js:57 | the seed cards' bars are 20% (1 of 5) and 40% (2 of 5) |
| TaskToggle.FindFrom | js/script.js:137 | the search returns the first index from the start point whose id matches, or none when no later task has that id |
| TaskToggle.FindById | js/script.js:137 | `tasks.find` by id returns the first index with that id, and none exactly when no task has it |
| TaskToggle.ToggleById | js/script.js:136-143 | the list keeps its length; only the first task with the id has its flag flipped, every other task is unchanged; an absent id leaves the list unchanged |
| TaskToggle.ToggleKeepsFields | js/script.js:139 | a toggle changes no id, title or category |
| TaskToggle.ToggleTwice | js/script.js:137-139 | toggling the same id twice restores the original list |
| TaskToggle.NumUpdate | js/script.js:43-52 | replacing one task moves each category's counts by the difference of the old and new task's contributions |
| TaskToggle.ToggleCounts | js/script.js:137-139 | a successful toggle keeps every category's task count and moves the toggled task's category's completed count by +1 (it was open) or -1 (it was done); other categories are unchanged |
| TaskToggle.ToggleSummary | js/script.js:137-141 | after a successful toggle each card keeps its total, and only the toggled task's category's card moves its completed count, by exactly one |
| FilterMenu.ToggleMenu | js/script.js:147-149 | the filter button flips menu visibility and changes neither tasks nor filter |
| FilterMenu.SelectOption | js/script.js:156-173 | the menu is hidden after every option; "delete-all" empties a non-empty list and resets the filter to "all", leaves an empty list and its filter alone; other options set the filter and keep the tasks |
| FilterMenu.SelectOptionIdempotent | js/script.js:156-173 | choosing the same option twice equals choosing it once |
| FilterMenu.DeleteAllShowsNothing | js/script.js:159-168 | after "delete-all" the list is empty, the task view shows nothing and every category card counts {0, 0} |
| FilterMenu.FilterSelectionKeepsSummary | js/script.js:169-172 | choosing a filter leaves the category summary unchanged and the view shows the list filtered by the chosen value |
| View.CategoryCards | js/script.js:54-69 | one card per registry entry in registry order, with its name, colour, task total and a percentage within [0, 100] |
| View.TaskRows | js/script.js:83-100 | one row per filtered task in filtered order, carrying its id and title, checked iff completed, in its category's colour |
| View.RowColorOfEntry | js/script.js:84 | with distinct keys a row's colour is that of the registry entry keyed by the task's category |
| View.OpenClosedRows | js/script.js:77-99 | under "open" no row is checked, under "closed" every row is, and the two views together draw one row per task |
| View.UnfilteredRowsFollowList | js/script.js:75-99 | under any other filter value the rows follow the task list one to one, in order, with the same id and title, checked iff the task is completed |

## Left out

- DOM access, HTML templating, CSS class tokens, `updateFilterButtons` and `renderUser` are presentation only. The views are modelled as card and row records.
- Event plumbing: `closest`, the document-level outside-click listener and `parseInt` of `data-id`. The toggle takes the already-parsed integer id.
- The sidebar open/close with its `setTimeout` delays, and the logout `console.log`. These are timing and cosmetic side effects.
- CategorySummary.Percent: stated over mathematical reals, not IEEE doubles, so rounding of the division is not modelled.
- View.TaskRows: requires every shown task's category to be registered. For an unregistered category the page throws a TypeError on that row (line 84); that crash is not modelled.
- CategorySummary.Tally: uses a map keyed by category. It does not model the inherited `Object.prototype` properties of `{}`: a category named like `constructor` would find a truthy entry before any task of that category.
- Categories.Lookup: does not model the inherited `Object.prototype` properties either. For a key such as `constructor` or `toString`, `categories[key]` finds an inherited value, so the row renders with an undefined colour instead of throwing; `Lookup` returns `None`. The seed tasks use only registered categories.
- The initial visibility of the filter menu is set in the page markup, which is not part of this model. So no initial state record is given; only the seed tasks are (`Tasks.InitialTasks`).
