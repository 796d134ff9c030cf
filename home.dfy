/** The "Today at a glance" figures of the Home page, and the distinct-day count
    and goal areas the Dashboard page shows beside them. */
module Home {
  import opened Records
  import opened Ordering
  import opened Grouping

  /** The categories of the goals, in goal order, repeats included. */
  function CategoryColumn(goals: seq<Goal>): (cs: seq<string>)
    ensures forall c :: c in cs <==> exists g :: g in goals && g.category == c
    ensures |cs| == |goals|
  {
    if goals == [] then []
    else
      var rest := CategoryColumn(goals[1..]);
      assert forall g :: g in goals <==> g == goals[0] || g in goals[1..];
      [goals[0].category] + rest
  }

  /** `sorted({g["Category"] for g in goals})`, also `sorted(goals_df["Category"].unique())`:
      each category of some goal once, in increasing string order. */
  function Categories(goals: seq<Goal>): (cats: seq<string>)
    ensures Increasing(cats, TextLess)
    ensures forall c :: c in cats <==> exists g :: g in goals && g.category == c
    ensures |cats| <= |goals|
  {
    TextLessIsStrictTotal();
    SortedDistinct(CategoryColumn(goals), TextLess)
  }

  /** Any increasing listing of the goal areas is the one `Categories` gives:
      the goal-area caption does not depend on how the sort is done. */
  lemma CategoriesUnique(goals: seq<Goal>, listing: seq<string>)
    requires Increasing(listing, TextLess)
    requires forall c :: c in listing <==> exists g :: g in goals && g.category == c
    ensures listing == Categories(goals)
  {
    TextLessIsStrictTotal();
    IncreasingUnique(listing, Categories(goals), TextLess);
  }

  /** The "Last logged day" figure: the latest log date, or the
      "No logs yet" placeholder when there are no logs. */
  datatype LastLogged = NoLogsYet | LastDay(day: Day)

  function LastLoggedOf(logs: seq<Log>): (r: LastLogged)
    ensures r == NoLogsYet <==> logs == []
    ensures r.LastDay? ==> IsLatest(r.day, logs, DateOfLog)
  {
    if logs == [] then NoLogsYet
    else
      var ds := DatesOf(logs, DateOfLog);
      var d := Latest(ds);
      assert forall l :: l in logs ==> l.date in ds by {
        forall l | l in logs ensures l.date in ds {
          var i :| 0 <= i < |logs| && logs[i] == l;
          assert ds[i] == l.date;
        }
      }
      LastDay(d)
  }

  /** The placeholder shown before anything is logged. */
  const NoLogsYetText: string := "No logs yet"

  /** The figure as displayed; `dateText` renders a day as `%Y-%m-%d`, which
      never spells the placeholder. The placeholder is shown exactly when there
      are no logs, and otherwise the rendering of the last day. */
  function LastLoggedText(last: LastLogged, dateText: Day -> string): (t: string)
    requires forall d :: dateText(d) != NoLogsYetText
    ensures t == NoLogsYetText <==> last == NoLogsYet
    ensures last.LastDay? ==> t == dateText(last.day)
  {
    match last
    case NoLogsYet => NoLogsYetText
    case LastDay(d) => dateText(d)
  }

  /** The Home page summary: number of goals and of log entries, the goal
      areas, and the last logged day. */
  datatype HomeStats = HomeStats(activeGoals: nat, totalLogs: nat,
                                 categories: seq<string>, lastLogged: LastLogged)

  function Glance(goals: seq<Goal>, logs: seq<Log>): (h: HomeStats)
    ensures h.activeGoals == |goals| && h.totalLogs == |logs|
    ensures h.categories == [] <==> goals == []
    ensures h.lastLogged == NoLogsYet <==> logs == []
    ensures h.lastLogged.LastDay? ==> IsLatest(h.lastLogged.day, logs, DateOfLog)
    ensures h.categories == Categories(goals) && h.lastLogged == LastLoggedOf(logs)
  {
    var cats := Categories(goals);
    assert goals != [] ==> goals[0].category in cats;
    HomeStats(|goals|, |logs|, cats, LastLoggedOf(logs))
  }

  /** The calendar days on which something was logged. */
  function DaySet(logs: seq<Log>): (days: set<Day>)
    ensures forall d :: d in days <==> exists l :: l in logs && l.date == d
    ensures |days| <= |logs|
  {
    if logs == [] then {}
    else
      var rest := DaySet(logs[1..]);
      assert forall l :: l in logs <==> l == logs[0] || l in logs[1..];
      {logs[0].date} + rest
  }

  /** "Days with activity": `logs_df["Date"].dt.date.nunique()`, the number of
      distinct log dates. At least one day once anything is logged, and never
      more days than entries. */
  function DistinctDays(logs: seq<Log>): (n: nat)
    ensures n == |set l | l in logs :: l.date|
    ensures n <= |logs|
    ensures n == 0 <==> logs == []
  {
    var days := DaySet(logs);
    assert logs != [] ==> logs[0].date in days;
    assert days == set l | l in logs :: l.date;
    |days|
  }
}
