/** The three record shapes the app keeps in its session state and on disk. */
module Records {

  datatype Option<T> = None | Some(value: T)

  /** A calendar date, as a day number (days since a fixed epoch). The app
      stores ISO `YYYY-MM-DD` strings and parses them with `datetime`/pandas;
      day numbers order and subtract as those dates do. */
  type Day = int

  /** A goal: its name, one of the category options, and an optional reason
      ("" when none was given). */
  datatype Goal = Goal(name: string, category: string, description: string)

  /** A progress entry, referring to its goal by name. */
  datatype Log = Log(goal: string, date: Day, note: string)

  datatype Role = User | Assistant

  datatype Message = Message(role: Role, content: string)

  /** The choices of the "Category" select box on the goal form. */
  const CategoryOptions: seq<string> :=
    ["Career", "Education", "Finance", "Health", "Hobbies", "Relationships"]

  /** The goal names offered by the select box of the log form. */
  function GoalNames(goals: seq<Goal>): (names: seq<string>)
    ensures |names| == |goals|
    ensures forall i :: 0 <= i < |goals| ==> names[i] == goals[i].name
  {
    seq(|goals|, i requires 0 <= i < |goals| => goals[i].name)
  }

  /** No two goals share a name. The app does not enforce this. */
  predicate UniqueNames(goals: seq<Goal>)
  {
    forall i, j :: 0 <= i < j < |goals| ==> goals[i].name != goals[j].name
  }

  /** The goal a log belongs to, as a grouping key (never missing). */
  function GoalOfLog(l: Log): Option<string>
  {
    Some(l.goal)
  }

  function DateOfLog(l: Log): Day
  {
    l.date
  }

  /** Some goal is called `name`. */
  ghost predicate HasGoal(goals: seq<Goal>, name: string)
  {
    exists g :: g in goals && g.name == name
  }
}
