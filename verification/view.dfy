/** What the two render functions put on the page, without the markup: one card per
    registered category and one row per task that passes the filter. */
module View {
  import opened Wrappers
  import opened Tasks
  import opened Categories
  import opened TaskFilter
  import opened CategorySummary
  import opened FilterMenu

  /** A category card: name, colour, task count and width of the progress bar in percent. */
  datatype Card = Card(name: string, color: string, total: nat, percent: real)

  /** A task row: the id it carries, its title, the colour of its category and whether it is
      drawn checked and struck through. */
  datatype Row = Row(id: int, title: string, color: string, checked: bool)

  /** The category section: one card per registry entry, in registry order, counting the
      whole task list. */
  function CategoryCards(reg: seq<CategoryDef>, s: seq<Task>): (r: seq<Card>)
    ensures |r| == |reg|
    ensures forall i :: 0 <= i < |r| ==>
      && r[i].name == reg[i].name
      && r[i].color == reg[i].color
      && r[i].total == NumIn(s, reg[i].key)
      && r[i].percent == Percent(NumDone(s, reg[i].key), NumIn(s, reg[i].key))
      && 0.0 <= r[i].percent <= 100.0
  {
    var summary := Summary(reg, s);
    seq(|reg|, i requires 0 <= i < |reg| =>
      Card(reg[i].name, reg[i].color, summary[i].total, Percent(summary[i].completed, summary[i].total)))
  }

  /** Every task the view shows belongs to a registered category; the page fails on a row
      whose category has no registry entry. */
  predicate RowsRenderable(reg: seq<CategoryDef>, st: AppState)
  {
    forall t :: t in FilterTasks(st.tasks, st.filter) ==> Registered(reg, t.category)
  }

  /** The task section: one row per filtered task, in filtered order. */
  function TaskRows(reg: seq<CategoryDef>, st: AppState): (r: seq<Row>)
    requires RowsRenderable(reg, st)
    ensures var f := FilterTasks(st.tasks, st.filter);
      && |r| == |f|
      && forall k :: 0 <= k < |r| ==>
        && r[k].id == f[k].id
        && r[k].title == f[k].title
        && r[k].checked == f[k].completed
        && Lookup(reg, f[k].category) != None
        && r[k].color == Lookup(reg, f[k].category).value.color
  {
    var f := FilterTasks(st.tasks, st.filter);
    seq(|f|, k requires 0 <= k < |f| =>
      assert f[k] in f;
      Row(f[k].id, f[k].title, Lookup(reg, f[k].category).value.color, f[k].completed))
  }

  /** With distinct registry keys a row takes the colour of the one entry whose key is the
      task's category. */
  lemma RowColorOfEntry(reg: seq<CategoryDef>, st: AppState, k: nat, j: nat)
    requires DistinctKeys(reg) && RowsRenderable(reg, st)
    requires k < |FilterTasks(st.tasks, st.filter)| && j < |reg|
    requires reg[j].key == FilterTasks(st.tasks, st.filter)[k].category
    ensures TaskRows(reg, st)[k].color == reg[j].color
  {
  }

  /** Under the "open" filter no row is drawn checked, under "closed" every row is, and
      together the two views draw one row per task. */
  lemma OpenClosedRows(reg: seq<CategoryDef>, s: seq<Task>, hidden: bool)
    requires forall t :: t in s ==> Registered(reg, t.category)
    ensures RowsRenderable(reg, AppState(s, Open, hidden))
    ensures RowsRenderable(reg, AppState(s, Closed, hidden))
    ensures forall k :: 0 <= k < |TaskRows(reg, AppState(s, Open, hidden))| ==>
      !TaskRows(reg, AppState(s, Open, hidden))[k].checked
    ensures forall k :: 0 <= k < |TaskRows(reg, AppState(s, Closed, hidden))| ==>
      TaskRows(reg, AppState(s, Closed, hidden))[k].checked
    ensures |TaskRows(reg, AppState(s, Open, hidden))| + |TaskRows(reg, AppState(s, Closed, hidden))| == |s|
  {
    OpenClosedPartition(s);
    var o, c := FilterTasks(s, Open), FilterTasks(s, Closed);
    forall k | 0 <= k < |o| ensures !o[k].completed { assert o[k] in o; }
    forall k | 0 <= k < |c| ensures c[k].completed { assert c[k] in c; }
  }

  /** Under any filter value other than "open" and "closed" every task gets its row, in list order. */
  lemma UnfilteredRowsFollowList(reg: seq<CategoryDef>, st: AppState)
    requires st.filter != Open && st.filter != Closed
    requires forall t :: t in st.tasks ==> Registered(reg, t.category)
    ensures RowsRenderable(reg, st)
    ensures |TaskRows(reg, st)| == |st.tasks|
    ensures forall k :: 0 <= k < |st.tasks| ==>
      var row := TaskRows(reg, st)[k];
      row.id == st.tasks[k].id && row.title == st.tasks[k].title && row.checked == st.tasks[k].completed
  {
  }
}
