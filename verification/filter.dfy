/** The task filter applied before the task list is rendered. */
module TaskFilter {
  import opened Tasks

  const Open: string := "open"
  const Closed: string := "closed"

  /** Index `i` holds a task whose completion flag equals `done`. */
  predicate Kept(s: seq<Task>, done: bool, i: int)
  {
    0 <= i < |s| && s[i].completed == done
  }

  /** Indices of the tasks whose completion flag equals `done`, in increasing order:
      the reference description of which tasks a filter keeps. */
  function MatchingIndices(s: seq<Task>, done: bool): (idx: seq<nat>)
    ensures forall k :: 0 <= k < |idx| ==> idx[k] < |s| && s[idx[k]].completed == done
    ensures forall k, l :: 0 <= k < l < |idx| ==> idx[k] < idx[l]
    ensures forall i {:trigger Kept(s, done, i)} :: Kept(s, done, i) ==> i in idx
  {
    if s == [] then []
    else
      var n := |s| - 1;
      var prefix := MatchingIndices(s[..n], done);
      assert forall i {:trigger Kept(s, done, i)} :: Kept(s, done, i) && i < n ==> Kept(s[..n], done, i);
      if s[n].completed == done then prefix + [n] else prefix
  }

  /** `r` consists of exactly the tasks of `s` at the indices `MatchingIndices(s, done)`,
      in that order. Together with the contract of `MatchingIndices` this fixes `r`. */
  ghost predicate IsOrderedSelection(s: seq<Task>, done: bool, r: seq<Task>)
  {
    var idx := MatchingIndices(s, done);
    |r| == |idx| && forall k :: 0 <= k < |r| ==> r[k] == s[idx[k]]
  }

  /** `Array.prototype.filter` with the predicate `completed == done`: walks the list front to
      back and keeps the matching tasks. */
  function Keep(s: seq<Task>, done: bool): (r: seq<Task>)
    ensures IsOrderedSelection(s, done, r)
    ensures forall t :: t in r <==> t in s && t.completed == done
  {
    if s == [] then []
    else
      var n := |s| - 1;
      var prefix := Keep(s[..n], done);
      var r := if s[n].completed == done then prefix + [s[n]] else prefix;
      assert IsOrderedSelection(s, done, r) by {
        var pidx := MatchingIndices(s[..n], done);
        var idx := MatchingIndices(s, done);
        assert idx == if s[n].completed == done then pidx + [n] else pidx;
        assert |prefix| == |pidx|;
        forall k | 0 <= k < |prefix|
          ensures r[k] == s[idx[k]]
        {
          assert r[k] == prefix[k] == s[..n][pidx[k]];
        }
      }
      assert forall t :: t in s <==> t in s[..n] || t == s[n] by {
        assert s == s[..n] + [s[n]];
      }
      r
  }

  /** The list the task view shows for the filter value `f`: the incomplete tasks for
      "open", the completed ones for "closed", the whole list for any other value. */
  function FilterTasks(s: seq<Task>, f: string): (r: seq<Task>)
    ensures f == Open ==> IsOrderedSelection(s, false, r)
    ensures f == Closed ==> IsOrderedSelection(s, true, r)
    ensures f == Open ==> forall t :: t in r <==> t in s && !t.completed
    ensures f == Closed ==> forall t :: t in r <==> t in s && t.completed
    ensures f != Open && f != Closed ==> r == s
  {
    if f == Open then Keep(s, false)
    else if f == Closed then Keep(s, true)
    else s
  }

  /** The "open" and "closed" views split the list: every index lands in exactly one of them,
      so their lengths add up to the length of the list, and no task appears in both. */
  lemma {:induction false} OpenClosedPartition(s: seq<Task>)
    ensures forall i :: 0 <= i < |s| ==> (i in MatchingIndices(s, false) <==> i !in MatchingIndices(s, true))
    ensures |FilterTasks(s, Open)| + |FilterTasks(s, Closed)| == |s|
    ensures forall t :: !(t in FilterTasks(s, Open) && t in FilterTasks(s, Closed))
    ensures forall t :: t in s ==> t in FilterTasks(s, Open) || t in FilterTasks(s, Closed)
  {
    forall i | 0 <= i < |s|
      ensures i in MatchingIndices(s, false) <==> i !in MatchingIndices(s, true)
    {
      assert Kept(s, false, i) || Kept(s, true, i);
    }
    KeepLengths(s);
  }

  /** Each task is kept by exactly one of the two completion values. */
  lemma {:induction false} KeepLengths(s: seq<Task>)
    ensures |Keep(s, false)| + |Keep(s, true)| == |s|
  {
    if s != [] {
      KeepLengths(s[..|s| - 1]);
    }
  }

  /** Filtering an empty list yields an empty list, whatever the filter value. */
  lemma EmptyFiltersToEmpty(f: string)
    ensures FilterTasks([], f) == []
  {
  }
}
