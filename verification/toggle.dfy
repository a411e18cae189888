/** The task-list click handler: flip the completion flag of the task with a given id. */
module TaskToggle {
  import opened Wrappers
  import opened Tasks
  import opened Categories
  import opened CategorySummary

  /** `j` is the first index whose task carries id `id`. */
  ghost predicate IsFirstWithId(s: seq<Task>, id: int, j: int)
  {
    0 <= j < |s| && s[j].id == id && forall k :: 0 <= k < j ==> s[k].id != id
  }

  /** `tasks.find(t => t.id === id)`, searching from index `from` on: the index of the first
      match, or `None` when no task from `from` on has that id. */
  function FindFrom(s: seq<Task>, id: int, from: nat): (r: Option<nat>)
    requires from <= |s|
    ensures r.Some? ==> from <= r.value < |s| && s[r.value].id == id
    ensures r.Some? ==> forall k :: from <= k < r.value ==> s[k].id != id
    ensures r.None? ==> forall k :: from <= k < |s| ==> s[k].id != id
    decreases |s| - from
  {
    if from == |s| then None
    else if s[from].id == id then Some(from)
    else FindFrom(s, id, from + 1)
  }

  /** The search over the whole list finds exactly the first index with that id. */
  function FindById(s: seq<Task>, id: int): (r: Option<nat>)
    ensures r.Some? ==> IsFirstWithId(s, id, r.value)
    ensures r.None? <==> forall k :: 0 <= k < |s| ==> s[k].id != id
  {
    FindFrom(s, id, 0)
  }

  /** Clicking the row of task `id`: the first task with that id has its completion flag
      flipped; an unknown id leaves the list as it is. */
  function ToggleById(s: seq<Task>, id: int): (r: seq<Task>)
    ensures |r| == |s|
    ensures forall j :: 0 <= j < |s| ==> r[j] == if IsFirstWithId(s, id, j) then Flip(s[j]) else s[j]
    ensures (forall j :: 0 <= j < |s| ==> s[j].id != id) ==> r == s
  {
    match FindById(s, id)
    case None => s
    case Some(i) => s[i := Flip(s[i])]
  }

  /** Toggling only touches completion flags, so ids, titles and categories stay put. */
  lemma ToggleKeepsFields(s: seq<Task>, id: int)
    ensures forall j :: 0 <= j < |s| ==>
      var u := ToggleById(s, id)[j];
      u.id == s[j].id && u.title == s[j].title && u.category == s[j].category
  {
  }

  /** Toggling the same id twice restores the original list. */
  lemma ToggleTwice(s: seq<Task>, id: int)
    ensures ToggleById(ToggleById(s, id), id) == s
  {
  }

  /** Replacing one task changes the counts of category `c` by the difference of the two
      tasks' contributions. */
  lemma NumUpdate(s: seq<Task>, i: nat, u: Task, c: string)
    requires i < |s|
    ensures NumIn(s[i := u], c) == NumIn(s, c) - Contribution(s[i], c).total + Contribution(u, c).total
    ensures NumDone(s[i := u], c) == NumDone(s, c) - Contribution(s[i], c).completed + Contribution(u, c).completed
  {
    var a, b := s[..i], s[i + 1..];
    assert s == a + [s[i]] + b;
    assert s[i := u] == a + [u] + b;
    NumConcat(a + [s[i]], b, c);
    NumConcat(a + [u], b, c);
    NumAppend(a, s[i], c);
    NumAppend(a, u, c);
  }

  /** A toggle that finds its task keeps the task count of every category and moves the
      completed count of that task's category by exactly one: up when the task was open,
      down when it was done. Other categories are untouched. */
  lemma ToggleCounts(s: seq<Task>, id: int, c: string)
    requires FindById(s, id).Some?
    ensures NumIn(ToggleById(s, id), c) == NumIn(s, c)
    ensures NumDone(ToggleById(s, id), c) == NumDone(s, c)
      + (if c != s[FindById(s, id).value].category then 0
         else if s[FindById(s, id).value].completed then -1 else 1)
  {
    var i := FindById(s, id).value;
    assert ToggleById(s, id) == s[i := Flip(s[i])];
    NumUpdate(s, i, Flip(s[i]), c);
  }

  /** The same fact on the category cards: after a successful toggle card `k` keeps its total,
      and its completed count moves by one exactly when it is the card of the toggled task. */
  lemma ToggleSummary(reg: seq<CategoryDef>, s: seq<Task>, id: int, k: nat)
    requires FindById(s, id).Some? && k < |reg|
    ensures Summary(reg, ToggleById(s, id))[k].total == Summary(reg, s)[k].total
    ensures Summary(reg, ToggleById(s, id))[k].completed == Summary(reg, s)[k].completed
      + (if reg[k].key != s[FindById(s, id).value].category then 0
         else if s[FindById(s, id).value].completed then -1 else 1)
  {
    ToggleCounts(s, id, reg[k].key);
  }
}
