/** The text summaries the "Chat with Future You" page builds for the prompt:
    the logs of the last 30 days grouped by goal, `goals_text` and
    `progress_text`. */
module FutureChat {
  import opened Records
  import opened Ordering
  import opened Grouping
  import opened Text

  /** Width of the recent-activity window, in days. */
  const WindowDays: int := 30

  /** A log is recent when its day is no earlier than `today - 30` days. */
  predicate IsRecent(l: Log, today: Day)
  {
    l.date >= today - WindowDays
  }

  /** `logs_df[logs_df["Date"].dt.date >= cutoff]`: the recent logs, each as
      often as it was logged, in log order. */
  function RecentLogs(logs: seq<Log>, today: Day): (r: seq<Log>)
    ensures forall l :: multiset(r)[l] == if IsRecent(l, today) then multiset(logs)[l] else 0
  {
    if logs == [] then []
    else
      assert logs == [logs[0]] + logs[1..];
      (if IsRecent(logs[0], today) then [logs[0]] else []) + RecentLogs(logs[1..], today)
  }

  /** `recent_logs.groupby("Goal").agg(Entries=..., Last_Activity=...)`: one
      row per goal with a recent log, in goal-name order; each row counts the
      recent logs of its goal and carries the latest of their dates; the table
      is empty exactly when nothing is recent. */
  function RecentSummary(logs: seq<Log>, today: Day): (r: seq<Summary<string>>)
    ensures Increasing(KeysOf(r), TextLess)
    ensures forall n :: n in KeysOf(r) <==> exists l :: l in logs && l.goal == n && IsRecent(l, today)
    ensures forall i :: 0 <= i < |r| ==>
              r[i].entries == |Matching(RecentLogs(logs, today), GoalOfLog, r[i].key)| &&
              IsLatest(r[i].lastActivity, Matching(RecentLogs(logs, today), GoalOfLog, r[i].key), DateOfLog)
    ensures r == [] <==> forall l :: l in logs ==> !IsRecent(l, today)
  {
    TextLessIsStrictTotal();
    var recent := RecentLogs(logs, today);
    assert forall l :: l in recent <==> l in logs && IsRecent(l, today) by {
      forall l ensures l in recent <==> l in logs && IsRecent(l, today) {
        assert l in recent <==> multiset(recent)[l] > 0;
        assert l in logs <==> multiset(logs)[l] > 0;
      }
    }
    SummariseEmpty(recent, GoalOfLog, DateOfLog, TextLess);
    Summarise(recent, GoalOfLog, DateOfLog, TextLess)
  }

  /** One line of `goals_text`: `- {Goal} (Category: {Category})`, followed by
      ` — {Description}` exactly when the description is not empty. */
  function GoalLine(g: Goal): (line: string)
    ensures "- " + g.name + " (Category: " + g.category + ")" <= line
    ensures g.description == [] ==> line[|line| - 1] == ')'
    ensures |line| == 15 + |g.name| + |g.category| + (if g.description == [] then 0 else 3 + |g.description|)
    ensures g.description != [] ==> line[|line| - |g.description| - 3..] == " \U{2014} " + g.description
  {
    "- " + g.name + " (Category: " + g.category + ")" +
    (if g.description != [] then " \U{2014} " + g.description else "")
  }

  function GoalLines(goals: seq<Goal>): (lines: seq<string>)
    ensures |lines| == |goals|
    ensures forall i :: 0 <= i < |goals| ==> lines[i] == GoalLine(goals[i])
  {
    seq(|goals|, i requires 0 <= i < |goals| => GoalLine(goals[i]))
  }

  /** `goals_text`: the goal lines joined by newlines; empty exactly when there
      are no goals. The page stops before building it when there are no goals
      (app.py:359-361), so its "No goals." fallback (app.py:431) is never shown. */
  function GoalsText(goals: seq<Goal>): (text: string)
    ensures text == [] <==> goals == []
  {
    Join(GoalLines(goals), "\n")
  }

  /** No field of the goal holds a line break (the goal form's inputs are
      single-line). */
  predicate SingleLine(g: Goal)
  {
    '\n' !in g.name && '\n' !in g.category && '\n' !in g.description
  }

  /** `goals_text` holds one line per goal, in goal order. */
  lemma GoalsTextLines(goals: seq<Goal>)
    requires goals != []
    requires forall i :: 0 <= i < |goals| ==> SingleLine(goals[i])
    ensures Split(GoalsText(goals), '\n') == GoalLines(goals)
    ensures |Split(GoalsText(goals), '\n')| == |goals|
  {
    var lines := GoalLines(goals);
    forall i | 0 <= i < |lines| ensures '\n' !in lines[i] {
      assert SingleLine(goals[i]);
    }
    SplitJoin(lines, '\n');
  }

  /** One line of `progress_text`:
      `- {Goal}: {Entries} log(s), last activity {Last_Activity}.`; it holds no
      line break when the goal name and the rendered date hold none. The entry
      count is rendered right after `- {Goal}: `, and the line ends with the
      rendered last-activity day and a full stop. */
  function ProgressLine(s: Summary<string>, dateText: Day -> string): (line: string)
    ensures "- " + s.key + ": " <= line
    ensures |line| == 28 + |s.key| + |Decimal(s.entries)| + |dateText(s.lastActivity)|
    ensures line[|s.key| + 4..|s.key| + 4 + |Decimal(s.entries)|] == Decimal(s.entries)
    ensures line[|s.key| + 4 + |Decimal(s.entries)|..] ==
            " log(s), last activity " + dateText(s.lastActivity) + "."
    ensures '\n' !in s.key && '\n' !in dateText(s.lastActivity) ==> '\n' !in line
  {
    var digits := Decimal(s.entries);
    assert '\n' !in digits by {
      assert forall k :: 0 <= k < |digits| ==> digits[k] != '\n';
    }
    "- " + s.key + ": " + digits + " log(s), last activity " + dateText(s.lastActivity) + "."
  }

  /** The count written into a progress line reads back as the row's number of
      entries, and the day written into it is the row's last activity. */
  lemma ProgressLineFields(s: Summary<string>, dateText: Day -> string)
    ensures var line := ProgressLine(s, dateText);
            var start := |s.key| + 4;
            var digits := line[start..start + |Decimal(s.entries)|];
            AllDigits(digits) && DecimalValue(digits) == s.entries &&
            line[|line| - |dateText(s.lastActivity)| - 1..|line| - 1] == dateText(s.lastActivity)
  {
    DecimalRoundTrip(s.entries);
  }

  /** The fixed text used when nothing was logged in the window. */
  const NoRecentActivity: string := "No activity logged in the last 30 days."

  function ProgressLines(summary: seq<Summary<string>>, dateText: Day -> string): (lines: seq<string>)
    ensures |lines| == |summary|
    ensures forall i :: 0 <= i < |summary| ==> lines[i] == ProgressLine(summary[i], dateText)
  {
    seq(|summary|, i requires 0 <= i < |summary| => ProgressLine(summary[i], dateText))
  }

  /** `progress_text`; `dateText` renders a day as `%Y-%m-%d`. It is the fixed
      fallback exactly when no log falls in the last 30 days. */
  function ProgressText(logs: seq<Log>, today: Day, dateText: Day -> string): (text: string)
    ensures text == NoRecentActivity <==> forall l :: l in logs ==> !IsRecent(l, today)
  {
    var summary := RecentSummary(logs, today);
    if summary == [] then NoRecentActivity
    else
      var lines := ProgressLines(summary, dateText);
      var text := Join(lines, "\n");
      assert lines[0] <= text;
      assert text[0] == '-' != NoRecentActivity[0];
      text
  }

  /** With some recent log, `progress_text` holds one line per goal with recent
      logs, in goal-name order (goal names and rendered dates being single-line). */
  lemma ProgressTextLines(logs: seq<Log>, today: Day, dateText: Day -> string)
    requires exists l :: l in logs && IsRecent(l, today)
    requires forall l :: l in logs ==> '\n' !in l.goal
    requires forall d :: '\n' !in dateText(d)
    ensures Split(ProgressText(logs, today, dateText), '\n') ==
            ProgressLines(RecentSummary(logs, today), dateText)
  {
    var summary := RecentSummary(logs, today);
    var lines := ProgressLines(summary, dateText);
    forall i | 0 <= i < |lines| ensures '\n' !in lines[i] {
      assert summary[i].key in KeysOf(summary);
    }
    SplitJoin(lines, '\n');
  }
}
