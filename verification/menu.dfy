/** The widget's transient state and the filter pop-up menu handlers. */
module FilterMenu {
  import opened Tasks
  import opened Categories
  import opened TaskFilter
  import opened CategorySummary

  /** The task list, the current filter value and whether the filter menu is hidden. */
  datatype AppState = AppState(tasks: seq<Task>, filter: string, menuHidden: bool)

  const DeleteAll: string := "delete-all"
  const AllFilter: string := "all"

  /** The filter-button click: shows the menu when hidden and hides it when shown. */
  function ToggleMenu(st: AppState): (r: AppState)
    ensures r.menuHidden != st.menuHidden
    ensures r.tasks == st.tasks && r.filter == st.filter
  {
    st.(menuHidden := !st.menuHidden)
  }

  /** A click on a menu option: the menu is hidden first; "delete-all" empties a non-empty
      list and resets the filter to "all" (an empty list is left alone, filter included);
      every other option becomes the current filter. */
  function SelectOption(st: AppState, option: string): (r: AppState)
    ensures r.menuHidden
    ensures option == DeleteAll && st.tasks != [] ==> r.tasks == [] && r.filter == AllFilter
    ensures option == DeleteAll && st.tasks == [] ==> r.tasks == st.tasks && r.filter == st.filter
    ensures option != DeleteAll ==> r.tasks == st.tasks && r.filter == option
  {
    var hidden := st.(menuHidden := true);
    if option == DeleteAll then
      if |hidden.tasks| > 0 then hidden.(tasks := [], filter := AllFilter) else hidden
    else hidden.(filter := option)
  }

  /** Choosing the same option twice in a row has the effect of choosing it once. */
  lemma SelectOptionIdempotent(st: AppState, option: string)
    ensures SelectOption(SelectOption(st, option), option) == SelectOption(st, option)
  {
  }

  /** After "delete-all" the task view is empty under the resulting filter and every
      category card shows `{0, 0}`, whatever the state was before. */
  lemma DeleteAllShowsNothing(reg: seq<CategoryDef>, st: AppState)
    ensures var r := SelectOption(st, DeleteAll);
      && r.tasks == []
      && FilterTasks(r.tasks, r.filter) == []
      && forall k :: 0 <= k < |reg| ==> Summary(reg, r.tasks)[k] == Entry(reg[k].key, 0, 0)
  {
  }

  /** Picking a filter changes what the task view shows but never the category summary,
      which is computed from the whole list. */
  lemma FilterSelectionKeepsSummary(reg: seq<CategoryDef>, st: AppState, option: string)
    requires option != DeleteAll
    ensures Summary(reg, SelectOption(st, option).tasks) == Summary(reg, st.tasks)
    ensures FilterTasks(SelectOption(st, option).tasks, SelectOption(st, option).filter)
         == FilterTasks(st.tasks, option)
  {
  }
}
