/** Per-category task counts and completion percentages shown on the category cards. */
module CategorySummary {
  import opened Tasks
  import opened Categories

  /** Number of tasks whose category is `c`. */
  function NumIn(s: seq<Task>, c: string): nat
  {
    if s == [] then 0 else (if s[0].category == c then 1 else 0) + NumIn(s[1..], c)
  }

  /** Number of completed tasks whose category is `c`; never more than `NumIn(s, c)`. */
  function NumDone(s: seq<Task>, c: string): (r: nat)
    ensures r <= NumIn(s, c)
  {
    if s == [] then 0
    else (if s[0].category == c && s[0].completed then 1 else 0) + NumDone(s[1..], c)
  }

  /** The `{total, completed}` pair kept per category. */
  datatype Counts = Counts(total: nat, completed: nat)

  /** The counts a single task contributes to category `c`. */
  function Contribution(t: Task, c: string): (r: Counts)
    ensures r.completed <= r.total <= 1
    ensures r.total == 1 <==> t.category == c
    ensures r.completed == 1 <==> t.category == c && t.completed
  {
    if t.category != c then Counts(0, 0)
    else Counts(1, if t.completed then 1 else 0)
  }

  /** Counting the category of one more task at the end of the list. */
  lemma {:induction false} NumAppend(s: seq<Task>, t: Task, c: string)
    ensures NumIn(s + [t], c) == NumIn(s, c) + Contribution(t, c).total
    ensures NumDone(s + [t], c) == NumDone(s, c) + Contribution(t, c).completed
  {
    if s != [] {
      assert (s + [t])[1..] == s[1..] + [t];
      NumAppend(s[1..], t, c);
    }
  }

  /** The counts are additive over concatenation. */
  lemma {:induction false} NumConcat(a: seq<Task>, b: seq<Task>, c: string)
    ensures NumIn(a + b, c) == NumIn(a, c) + NumIn(b, c)
    ensures NumDone(a + b, c) == NumDone(a, c) + NumDone(b, c)
  {
    if a != [] {
      assert (a + b)[1..] == a[1..] + b;
      NumConcat(a[1..], b, c);
    } else {
      assert a + b == b;
    }
  }

  /** The `reduce` over the task list: a left fold that creates `{0, 0}` the first time a
      category is met, then bumps its total and, for a completed task, its completed count.
      The resulting map holds an entry exactly for the categories that occur in the list, and
      that entry is the number of tasks and of completed tasks of the category. */
  function Tally(s: seq<Task>): (acc: map<string, Counts>)
    ensures forall c {:trigger c in acc} :: c in acc <==> NumIn(s, c) > 0
    ensures forall c {:trigger acc[c]} :: c in acc ==> acc[c] == Counts(NumIn(s, c), NumDone(s, c))
  {
    if s == [] then map[]
    else
      var n := |s| - 1;
      var prev := Tally(s[..n]);
      var t := s[n];
      var old_ := if t.category in prev then prev[t.category] else Counts(0, 0);
      var acc := prev[t.category := Counts(old_.total + 1, old_.completed + (if t.completed then 1 else 0))];
      assert s == s[..n] + [t];
      assert forall c ::
          (c in acc <==> NumIn(s, c) > 0) && (c in acc ==> acc[c] == Counts(NumIn(s, c), NumDone(s, c))) by {
        forall c
          ensures c in acc <==> NumIn(s, c) > 0
          ensures c in acc ==> acc[c] == Counts(NumIn(s, c), NumDone(s, c))
        {
          NumAppend(s[..n], t, c);
        }
      }
      acc
  }

  /** `categoryCounts[c] || {total: 0, completed: 0}`: the counts of category `c`. */
  function CountsFor(s: seq<Task>, c: string): (r: Counts)
    ensures r.total == NumIn(s, c) && r.completed == NumDone(s, c)
    ensures r.completed <= r.total
  {
    if c in Tally(s) then Tally(s)[c] else Counts(0, 0)
  }

  /** One summary entry per registered category. */
  datatype Entry = Entry(key: string, total: nat, completed: nat)

  /** The registry walk: one entry per registered category, in registry order, with the
      counts of that category over the whole task list. */
  function Summary(reg: seq<CategoryDef>, s: seq<Task>): (r: seq<Entry>)
    ensures |r| == |reg|
    ensures forall i :: 0 <= i < |r| ==>
      && r[i].key == reg[i].key
      && r[i].total == NumIn(s, reg[i].key)
      && r[i].completed == NumDone(s, reg[i].key)
      && r[i].completed <= r[i].total
  {
    seq(|reg|, i requires 0 <= i < |reg| =>
      var k := CountsFor(s, reg[i].key); Entry(reg[i].key, k.total, k.completed))
  }

  /** The completion percentage `completed / total * 100`, or 0 for an empty category. */
  function Percent(completed: nat, total: nat): (p: real)
    ensures total == 0 ==> p == 0.0
    ensures total > 0 ==> p * (total as real) == (completed as real) * 100.0
    ensures completed <= total ==> 0.0 <= p <= 100.0
  {
    if total > 0 then (completed as real) / (total as real) * 100.0 else 0.0
  }

  /** A task whose category is not registered changes no entry of the summary,
      wherever it sits in the list. */
  lemma UnregisteredTaskIgnored(reg: seq<CategoryDef>, a: seq<Task>, t: Task, b: seq<Task>)
    requires !Registered(reg, t.category)
    ensures Summary(reg, a + [t] + b) == Summary(reg, a + b)
  {
    var r1, r2 := Summary(reg, a + [t] + b), Summary(reg, a + b);
    forall i | 0 <= i < |reg|
      ensures r1[i] == r2[i]
    {
      var c := reg[i].key;
      NumConcat(a + [t], b, c);
      NumConcat(a, b, c);
      NumAppend(a, t, c);
    }
  }

  /** With no tasks every registered category shows `{0, 0}` and a 0% bar. */
  lemma EmptySummary(reg: seq<CategoryDef>)
    ensures forall i :: 0 <= i < |reg| ==> Summary(reg, [])[i] == Entry(reg[i].key, 0, 0)
    ensures Percent(0, 0) == 0.0
  {
    var r := Summary(reg, []);
    forall i | 0 <= i < |reg|
      ensures r[i] == Entry(reg[i].key, 0, 0)
    {
      assert r[i].total == 0;
    }
  }

  /** The page's initial data: five Business tasks with one completed, five Personal tasks
      with two completed. */
  lemma InitialSummary()
    ensures Summary(Registry, InitialTasks) == [Entry("Business", 5, 1), Entry("Personal", 5, 2)]
  {
    var r := Summary(Registry, InitialTasks);
    assert Registry[0].key == "Business" && Registry[1].key == "Personal";
    assert r[0] == Entry("Business", 5, 1) by { SeedBusiness(); }
    assert r[1] == Entry("Personal", 5, 2) by { SeedPersonal(); }
  }

  /** The bars of the initial cards: one of five tasks done is 20%, two of five is 40%. */
  lemma InitialPercentages()
    ensures Percent(1, 5) == 20.0 && Percent(2, 5) == 40.0
  {
  }

  /** The seed list holds five Business tasks, one of them completed. */
  lemma SeedBusiness()
    ensures NumIn(InitialTasks, "Business") == 5 && NumDone(InitialTasks, "Business") == 1
  {
    var s := InitialTasks;
    assert s[0..] == s;
    SeedCounts(s, "Business");
  }

  /** The seed list holds five Personal tasks, two of them completed. */
  lemma SeedPersonal()
    ensures NumIn(InitialTasks, "Personal") == 5 && NumDone(InitialTasks, "Personal") == 2
  {
    var s := InitialTasks;
    assert s[0..] == s;
    SeedCounts(s, "Personal");
  }

  /** Unfolds the count of the seed list of ten tasks into its ten steps. */
  lemma SeedCounts(s: seq<Task>, c: string)
    requires |s| == 10
    ensures NumIn(s[0..], c) == Contribution(s[0], c).total + Contribution(s[1], c).total
      + Contribution(s[2], c).total + Contribution(s[3], c).total + Contribution(s[4], c).total
      + Contribution(s[5], c).total + Contribution(s[6], c).total + Contribution(s[7], c).total
      + Contribution(s[8], c).total + Contribution(s[9], c).total
    ensures NumDone(s[0..], c) == Contribution(s[0], c).completed + Contribution(s[1], c).completed
      + Contribution(s[2], c).completed + Contribution(s[3], c).completed + Contribution(s[4], c).completed
      + Contribution(s[5], c).completed + Contribution(s[6], c).completed + Contribution(s[7], c).completed
      + Contribution(s[8], c).completed + Contribution(s[9], c).completed
  {
    assert s[10..] == [];
    NumStep(s, 0, c); NumStep(s, 1, c); NumStep(s, 2, c); NumStep(s, 3, c); NumStep(s, 4, c);
    NumStep(s, 5, c); NumStep(s, 6, c); NumStep(s, 7, c); NumStep(s, 8, c); NumStep(s, 9, c);
  }

  /** Counting the suffix from `i`: the task at `i` plus the suffix after it. */
  lemma NumStep(s: seq<Task>, i: nat, c: string)
    requires i < |s|
    ensures NumIn(s[i..], c) == Contribution(s[i], c).total + NumIn(s[i + 1..], c)
    ensures NumDone(s[i..], c) == Contribution(s[i], c).completed + NumDone(s[i + 1..], c)
  {
  }
}
