/** The "Progress by Goal" table of the Dashboard page:
      logs_df.merge(goals_df[["Goal", "Category"]], on="Goal", how="left")
             .groupby(["Goal", "Category"]).agg(Entries=..., Last_Activity=...)
             .sort_values(["Category", "Goal"])
    A log whose goal name matches no goal gets no category in the merge, and
    pandas' groupby drops rows with a missing key, so such a log is in no row.
    A log whose name matches several goals is merged once per matching goal. */
module Dashboard {
  import opened Records
  import opened Ordering
  import opened Grouping

  /** A row of the merged table: a log with the category it was joined to. */
  datatype Merged = Merged(log: Log, category: Option<string>)

  /** What a left merge may pair a log of goal `name` with: the category of a
      goal of that name, or no category when there is no such goal. */
  ghost predicate Joinable(goals: seq<Goal>, name: string, category: Option<string>)
  {
    match category
    case None => !HasGoal(goals, name)
    case Some(c) => exists g :: g in goals && g.name == name && g.category == c
  }

  /** The rows the inner part of the merge produces for `l`: one per goal named
      like its goal, in goal order. */
  function JoinMatches(l: Log, goals: seq<Goal>): (m: seq<Merged>)
    ensures forall x :: x in m <==>
              x.log == l && x.category.Some? &&
              exists g :: g in goals && g.name == l.goal && g.category == x.category.value
  {
    if goals == [] then []
    else
      var rest := JoinMatches(l, goals[1..]);
      assert forall g :: g in goals <==> g == goals[0] || g in goals[1..];
      (if goals[0].name == l.goal then [Merged(l, Some(goals[0].category))] else []) + rest
  }

  /** The rows of the left merge for one log: its matches, or the log alone
      with no category. */
  function JoinOne(l: Log, goals: seq<Goal>): (m: seq<Merged>)
    ensures forall x :: x in m <==> x.log == l && Joinable(goals, l.goal, x.category)
  {
    var matches := JoinMatches(l, goals);
    assert !HasGoal(goals, l.goal) ==> matches == [] by {
      assert matches != [] ==> matches[0] in matches;
    }
    assert HasGoal(goals, l.goal) ==> matches != [] by {
      if HasGoal(goals, l.goal) {
        var g :| g in goals && g.name == l.goal;
        assert Merged(l, Some(g.category)) in matches;
      }
    }
    if matches == [] then [Merged(l, None)] else matches
  }

  /** The left merge of the logs with the goals' categories, in log order. */
  function LeftMerge(logs: seq<Log>, goals: seq<Goal>): (rows: seq<Merged>)
    ensures forall x :: x in rows <==> x.log in logs && Joinable(goals, x.log.goal, x.category)
  {
    if logs == [] then []
    else
      var rest := LeftMerge(logs[1..], goals);
      assert forall l :: l in logs <==> l == logs[0] || l in logs[1..];
      JoinOne(logs[0], goals) + rest
  }

  /** A group of the summary: a goal name and one of its categories. */
  datatype GoalKey = GoalKey(goal: string, category: string)

  /** The summary's order: by category, then by goal name. */
  predicate KeyLess(a: GoalKey, b: GoalKey)
  {
    TextLess(a.category, b.category) || (a.category == b.category && TextLess(a.goal, b.goal))
  }

  lemma KeyLessIsStrictTotal()
    ensures StrictTotalOrder(KeyLess)
  {
    TextLessIsStrictTotal();
  }

  /** The grouping key of a merged row; missing when it has no category. */
  function MergedKey(x: Merged): Option<GoalKey>
  {
    match x.category
    case None => None
    case Some(c) => Some(GoalKey(x.log.goal, c))
  }

  function MergedDate(x: Merged): Day
  {
    x.log.date
  }

  /** A goal's own (name, category) pair. */
  function KeyOfGoal(g: Goal): Option<GoalKey>
  {
    Some(GoalKey(g.name, g.category))
  }

  /** Number of logs of goal `name`. */
  function CountLogs(logs: seq<Log>, name: string): nat
  {
    |Matching(logs, GoalOfLog, name)|
  }

  /** Number of goals with the name and category of `k`. */
  function CountGoals(goals: seq<Goal>, k: GoalKey): nat
  {
    |Matching(goals, KeyOfGoal, k)|
  }

  /** The per-goal summary table. */
  function GoalSummary(goals: seq<Goal>, logs: seq<Log>): (r: seq<Summary<GoalKey>>)
    ensures Increasing(KeysOf(r), KeyLess)
  {
    KeyLessIsStrictTotal();
    Summarise(LeftMerge(logs, goals), MergedKey, MergedDate, KeyLess)
  }

  /** The table has a row for (goal, category) exactly when a goal with that
      name and category exists and some log names that goal; rows come in
      (Category, Goal) order with no key twice. */
  lemma GoalSummaryKeys(goals: seq<Goal>, logs: seq<Log>)
    ensures Increasing(KeysOf(GoalSummary(goals, logs)), KeyLess)
    ensures forall k :: k in KeysOf(GoalSummary(goals, logs)) <==>
              (exists g :: g in goals && g.name == k.goal && g.category == k.category) &&
              (exists l :: l in logs && l.goal == k.goal)
  {
    KeyLessIsStrictTotal();
    var merged := LeftMerge(logs, goals);
    forall k ensures (exists x :: x in merged && MergedKey(x) == Some(k)) <==>
                     (exists g :: g in goals && g.name == k.goal && g.category == k.category) &&
                     (exists l :: l in logs && l.goal == k.goal)
    {
      if l :| l in logs && l.goal == k.goal {
        if exists g :: g in goals && g.name == k.goal && g.category == k.category {
          assert Merged(l, Some(k.category)) in merged;
        }
      }
    }
  }

  /** A log whose goal name matches no goal (its goal was deleted) is counted
      in no row of the table. */
  lemma OrphanLogsDropped(goals: seq<Goal>, logs: seq<Log>, name: string)
    requires !HasGoal(goals, name)
    ensures forall i :: 0 <= i < |GoalSummary(goals, logs)| ==> GoalSummary(goals, logs)[i].key.goal != name
  {
    GoalSummaryKeys(goals, logs);
    var r := GoalSummary(goals, logs);
    forall i | 0 <= i < |r| ensures r[i].key.goal != name {
      assert r[i].key in KeysOf(r);
    }
  }

  /** The merged rows of one log for key `k`: as many as there are goals with
      that name and category, when the log belongs to that goal. */
  lemma {:induction false} JoinMatchesCount(l: Log, goals: seq<Goal>, k: GoalKey)
    ensures |Matching(JoinMatches(l, goals), MergedKey, k)| ==
            if l.goal == k.goal then CountGoals(goals, k) else 0
  {
    if goals != [] {
      var head := if goals[0].name == l.goal then [Merged(l, Some(goals[0].category))] else [];
      assert JoinMatches(l, goals) == head + JoinMatches(l, goals[1..]);
      MatchingAppend(head, JoinMatches(l, goals[1..]), MergedKey, k);
      JoinMatchesCount(l, goals[1..], k);
    }
  }

  lemma JoinOneCount(l: Log, goals: seq<Goal>, k: GoalKey)
    ensures |Matching(JoinOne(l, goals), MergedKey, k)| ==
            if l.goal == k.goal then CountGoals(goals, k) else 0
  {
    JoinMatchesCount(l, goals, k);
  }

  /** The group (name, category) of the merged table has
      (logs of that name) * (goals of that name and category) rows. */
  lemma {:induction false} MergedCount(logs: seq<Log>, goals: seq<Goal>, k: GoalKey)
    ensures |Matching(LeftMerge(logs, goals), MergedKey, k)| == CountLogs(logs, k.goal) * CountGoals(goals, k)
  {
    if logs != [] {
      var one := JoinOne(logs[0], goals);
      var rest := LeftMerge(logs[1..], goals);
      assert LeftMerge(logs, goals) == one + rest;
      MatchingAppend(one, rest, MergedKey, k);
      JoinOneCount(logs[0], goals, k);
      MergedCount(logs[1..], goals, k);
      var g := CountGoals(goals, k);
      var n := CountLogs(logs[1..], k.goal);
      var total := |Matching(LeftMerge(logs, goals), MergedKey, k)|;
      assert total == |Matching(one, MergedKey, k)| + n * g;
      assert Matching(logs, GoalOfLog, k.goal) ==
             (if GoalOfLog(logs[0]) == Some(k.goal) then [logs[0]] else []) + Matching(logs[1..], GoalOfLog, k.goal);
      if logs[0].goal == k.goal {
        assert CountLogs(logs, k.goal) == 1 + n;
        ProductStep(1, n, g);
      } else {
        assert CountLogs(logs, k.goal) == n;
      }
    }
  }

  /** Distributes a product over one more log; kept apart so that the
      nonlinear step is proved away from the large context of `MergedCount`. */
  lemma ProductStep(a: nat, n: nat, g: nat)
    requires a <= 1
    ensures (a + n) * g == a * g + n * g
  {
  }

  /** Entries of a row: the number of logs of its goal, times the number of
      goals sharing that name and category (the merge repeats a log once per
      matching goal). */
  lemma GoalSummaryEntries(goals: seq<Goal>, logs: seq<Log>)
    ensures forall i :: 0 <= i < |GoalSummary(goals, logs)| ==>
              GoalSummary(goals, logs)[i].entries ==
              CountLogs(logs, GoalSummary(goals, logs)[i].key.goal) * CountGoals(goals, GoalSummary(goals, logs)[i].key)
  {
    var r := GoalSummary(goals, logs);
    forall i | 0 <= i < |r| ensures r[i].entries == CountLogs(logs, r[i].key.goal) * CountGoals(goals, r[i].key) {
      MergedCount(logs, goals, r[i].key);
    }
  }

  /** Last_Activity of a row: the latest date among the logs of its goal. */
  lemma GoalSummaryLastActivity(goals: seq<Goal>, logs: seq<Log>)
    ensures forall i :: 0 <= i < |GoalSummary(goals, logs)| ==>
              IsLatest(GoalSummary(goals, logs)[i].lastActivity,
                       Matching(logs, GoalOfLog, GoalSummary(goals, logs)[i].key.goal), DateOfLog)
  {
    KeyLessIsStrictTotal();
    GoalSummaryKeys(goals, logs);
    var r := GoalSummary(goals, logs);
    forall i | 0 <= i < |r|
      ensures IsLatest(r[i].lastActivity, Matching(logs, GoalOfLog, r[i].key.goal), DateOfLog)
    {
      assert r[i].key in KeysOf(r);
      GroupLatest(goals, logs, r[i].key, r[i].lastActivity);
    }
  }

  /** The latest date of the merged group (name, category) of an existing goal
      is the latest date of the logs of that name. */
  lemma GroupLatest(goals: seq<Goal>, logs: seq<Log>, k: GoalKey, d: Day)
    requires exists g :: g in goals && g.name == k.goal && g.category == k.category
    requires IsLatest(d, Matching(LeftMerge(logs, goals), MergedKey, k), MergedDate)
    ensures IsLatest(d, Matching(logs, GoalOfLog, k.goal), DateOfLog)
  {
    var merged := LeftMerge(logs, goals);
    var group := Matching(merged, MergedKey, k);
    var own := Matching(logs, GoalOfLog, k.goal);
    var x :| x in group && MergedDate(x) == d;
    OwnOfMerged(goals, logs, k, x);
    forall l | l in own ensures l.date <= d {
      MergedOfOwn(goals, logs, k, l);
    }
  }

  /** The log of a row of the merged group `k` is a log of goal `k.goal`. */
  lemma OwnOfMerged(goals: seq<Goal>, logs: seq<Log>, k: GoalKey, x: Merged)
    requires x in Matching(LeftMerge(logs, goals), MergedKey, k)
    ensures x.log in Matching(logs, GoalOfLog, k.goal)
  {
    assert x in LeftMerge(logs, goals) && MergedKey(x) == Some(k);
  }

  /** A log of goal `k.goal` is in the merged group `k` of an existing goal. */
  lemma MergedOfOwn(goals: seq<Goal>, logs: seq<Log>, k: GoalKey, l: Log)
    requires exists g :: g in goals && g.name == k.goal && g.category == k.category
    requires l in Matching(logs, GoalOfLog, k.goal)
    ensures Merged(l, Some(k.category)) in Matching(LeftMerge(logs, goals), MergedKey, k)
  {
    assert l in logs && l.goal == k.goal;
    assert Joinable(goals, l.goal, Some(k.category));
  }

  /** With one goal of the name and category, exactly one. */
  lemma {:induction false} CountGoalsUnique(goals: seq<Goal>, k: GoalKey)
    requires UniqueNames(goals)
    requires exists g :: g in goals && g.name == k.goal && g.category == k.category
    ensures CountGoals(goals, k) == 1
  {
    var rest := goals[1..];
    assert UniqueNames(rest);
    assert Matching(goals, KeyOfGoal, k) ==
           (if KeyOfGoal(goals[0]) == Some(k) then [goals[0]] else []) + Matching(rest, KeyOfGoal, k);
    if KeyOfGoal(goals[0]) == Some(k) {
      assert forall g :: g in rest ==> g.name != goals[0].name;
      MatchingNone(rest, KeyOfGoal, k);
    } else {
      var g :| g in goals && g.name == k.goal && g.category == k.category;
      assert g in rest;
      CountGoalsUnique(rest, k);
    }
  }

  /** When goal names are unique, Entries is the number of logs of the goal. */
  lemma GoalSummaryEntriesUnique(goals: seq<Goal>, logs: seq<Log>)
    requires UniqueNames(goals)
    ensures forall i :: 0 <= i < |GoalSummary(goals, logs)| ==>
              GoalSummary(goals, logs)[i].entries == CountLogs(logs, GoalSummary(goals, logs)[i].key.goal)
  {
    GoalSummaryKeys(goals, logs);
    GoalSummaryEntries(goals, logs);
    var r := GoalSummary(goals, logs);
    forall i | 0 <= i < |r| ensures r[i].entries == CountLogs(logs, r[i].key.goal) {
      var k := r[i].key;
      var n := CountLogs(logs, k.goal);
      assert k in KeysOf(r);
      CountGoalsUnique(goals, k);
      assert r[i].entries == n * CountGoals(goals, k) == n * 1 == n;
    }
  }
}
