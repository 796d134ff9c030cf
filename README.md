# Life Progress Dashboard — a verified model of its data core

The Life Progress Dashboard is a single-script Streamlit app (`app.py`). It
keeps three lists in its session state and treats them as its database:

- the user's goals (name, category, description);
- their progress logs (goal name, date, note);
- the history of a chat with "future you".

The app loads these lists from JSON files once per browser session. The
forms and buttons append to them or remove from them. Four pages summarise
them:

- the Home page's "Today at a glance";
- the Log Today page's recent entries;
- the Dashboard page's per-goal table and distinct-day count;
- the 30-day activity text that the chat page puts into its prompt.

This project models that core in Dafny and proves what each piece promises.

- `records.dfy` (`Records`): goals, logs, chat messages, and the category
  options of the goal form. A date is a day number (`Day`).
- `session.dfy` (`Session`): the session state is a class with the three
  lists and the `initialized_from_disk` flag. Its methods are the load-once
  initialisation and the handlers of the "Add Goal", "Delete", "Save Log",
  "Clear conversation" and "Talk to Future Me" controls. Each method states
  its whole new state.
- `text.dfy` (`Text`): Python's `str.strip` over the characters
  `str.isspace` accepts, `"\n".join` and the split that inverts it, and the
  decimal rendering of a count.
- `ordering.dfy` (`Ordering`): strict total orders, and Python's code-point
  order on strings. It also holds a sorted, duplicate-free insertion that
  models `sorted(set(...))`, `unique()` and pandas' key sort. Any two
  increasing lists with the same members are equal, so the result does not
  depend on how the sort is done.
- `grouping.dfy` (`Grouping`): pandas'
  `groupby(key).agg(count, max date)` by its plain meaning. Rows whose key is
  missing are dropped. There is one row per present key, in key order. Each
  row holds the size of its group and the latest date in it.
- `home.dfy` (`Home`): the Home page figures and the Dashboard's "Days with
  activity" and goal areas.
- `logtoday.dfy` (`LogToday`): the "Recent Entries" table.
- `dashboard.dfy` (`Dashboard`): the "Progress by Goal" table. This is the
  left merge of the logs with the goals' categories, grouped on
  (Goal, Category) and sorted by (Category, Goal).
- `futurechat.dfy` (`FutureChat`): the 30-day window, its per-goal summary,
  and the `goals_text` and `progress_text` blocks of the prompt.

Modelling choices:

- Inputs from outside are parameters:
  - "today" (`datetime.now().date()`);
  - the rendering of a day as `%Y-%m-%d` (`dateText`);
  - the contents of the files at load time;
  - the model's answer (`None` when the API call raised).
- The dashboard is modelled without assuming that goal names are unique:
  - A log whose goal was deleted gets no category in the left merge.
    pandas' `groupby` drops rows with a missing key, so such a log is counted
    in no row.
  - A log whose name matches k goals of one category is merged k times.
  - So the app's Entries is "logs of the goal × goals with that name and
    category". With unique names this is the number of logs of the goal.
- The question typed into the chat is stored as typed. Only the blank check
  strips it. Goal names, descriptions and notes are stored stripped.

## Model

| member | source | states |
|---|---|---|
| Session.SessionState.constructor | app.py:59-60 | a fresh browser session: no goals, no logs, no chat, not yet loaded |
| Session.SessionState.InitFromDisk | app.py:35-44 | the first call installs the three loaded lists and sets the flag; once the flag is set, a call changes nothing |
| Session.ReloadIsIdempotent | app.py:59-60 | the script reruns the initialisation on every rerun, yet the state stays what the first load read, whatever the files hold later |
| Session.SessionState.AddGoal | app.py:162-173 | a goal is added exactly when the name is not blank after stripping; then exactly one goal with stripped name and description is appended after the untouched earlier goals; otherwise the goals are unchanged; logs and chat are never touched |
| Session.SessionState.DeleteGoal | app.py:195-197 | exactly the goal at the index is removed and the others keep their order; logs (including that goal's logs) and chat are unchanged |
| Session.SessionState.SaveLog | app.py:238-245 | exactly one entry (chosen goal, date, stripped note) is appended at the end of the logs; goals and chat are unchanged |
| Session.SessionState.ClearChat | app.py:449-452 | the history becomes empty; goals and logs are unchanged |
| Session.SessionState.Ask | app.py:454-503 | a blank question appends nothing; otherwise the question as typed is appended as one user message, followed by one assistant message when a reply came back |
| Text.Strip | app.py:163-167 | the result is empty exactly when the input is all whitespace, and otherwise starts and ends with a non-whitespace character |
| Text.StripMargins | app.py:163-167 | what `strip` removes is a whitespace prefix and a whitespace suffix of the input |
| Text.StripPadded | app.py:163-167 | `strip` removes exactly the whitespace margins: padding a string whose ends are not whitespace and stripping it gives that string back |
| Text.IsBlank | app.py:163 | `not s.strip()` holds exactly when every character of the input is whitespace (also the chat's blank check, app.py:455) |
| Text.Join | app.py:388-392 | `"\n".join` of no parts is empty, and otherwise starts with the first part; `SplitJoin` is its inverse |
| Text.SplitJoin | app.py:388-400 | splitting a newline-joined list of newline-free lines gives the lines back |
| Text.Decimal | app.py:396 | the rendering of a count is a non-empty string of digits with no leading zero |
| Text.DecimalRoundTrip | app.py:396 | reading the rendered count back gives the count |
| Ordering.SortedDistinct | app.py:82 | the result is strictly increasing and has exactly the members of the input, each once |
| Ordering.IncreasingUnique | app.py:82 | two strictly increasing lists with the same members are equal: the sorted key list is determined by the key set |
| Ordering.TextLessMeaning | app.py:82 | Python's `<` on `str`: `a < b` exactly when `a` is a proper prefix of `b` or has the smaller code point where they first differ |
| Ordering.TextLessIsStrictTotal | app.py:316 | Python's string order is irreflexive, transitive and total |
| Grouping.Matching | app.py:308-311 | a group holds exactly the rows whose key is the group's key |
| Grouping.Latest | app.py:311 | `max` of a non-empty list of dates is one of them and is at least every one of them |
| Grouping.Summarise | app.py:306-313 | one row per present key, keys strictly increasing; a key is listed exactly when some row has it; each row counts its group, which is never empty, and carries its group's latest date |
| Grouping.SummariseEmpty | app.py:375-386 | the grouped table is empty exactly when no row has a key |
| Home.Categories | app.py:82 | the goal areas are strictly increasing, and a category is listed exactly when some goal has it; never more areas than goals |
| Home.CategoriesUnique | app.py:289 | any increasing listing of the goals' categories equals the one shown, so the Home and Dashboard captions agree |
| Home.LastLoggedOf | app.py:84-93 | "No logs yet" exactly when there are no logs; otherwise the latest log date |
| Home.LastLoggedText | app.py:89-93 | the figure reads "No logs yet" exactly when there are no logs, and otherwise is the `%Y-%m-%d` rendering of the last day |
| Home.Glance | app.py:80-93 | the counts are the numbers of goals and logs; the goal areas are `Categories(goals)`, empty exactly when there are no goals; the last-logged figure is `LastLoggedOf(logs)` |
| Home.DaySet | app.py:288 | a day is in the set exactly when some log has that date; never more days than logs |
| Home.DistinctDays | app.py:288 | days with activity is the number of distinct log dates; at most the number of logs, and zero exactly when there are no logs |
| LogToday.InsertByDate | app.py:257 | inserting into a newest-first list keeps it newest first and adds exactly the one entry |
| LogToday.SortNewestFirst | app.py:257 | the result is newest first and a permutation of the logs |
| LogToday.RecentEntries | app.py:255-257 | min(number of logs, 20) rows, newest first, each a logged entry (as often as logged at most), and no entry left out is newer than one shown |
| LogToday.NewestFirstPrefix | app.py:257 | `head(n)` of a newest-first list is newest first, part of the list, and leaves out nothing newer than what it keeps |
| Dashboard.JoinOne | app.py:283 | the left merge pairs a log with the category of each goal of its name, or with no category when no goal has that name |
| Dashboard.LeftMerge | app.py:283 | a merged row is a log paired with a category the left merge allows for it, and every such pairing occurs |
| Dashboard.GoalSummary | app.py:306-316 | the rows are in strictly increasing (Category, Goal) order |
| Dashboard.GoalSummaryKeys | app.py:283-316 | there is a row for (goal, category) exactly when a goal with that name and category exists and some log names it; (Category, Goal) order with no key twice |
| Dashboard.OrphanLogsDropped | app.py:283-313 | a log whose goal name matches no goal appears in no row |
| Dashboard.MergedCount | app.py:283-310 | the merged group (name, category) has (logs of the name) × (goals of that name and category) rows |
| Dashboard.GoalSummaryEntries | app.py:306-313 | Entries = (logs of the goal) × (goals sharing its name and category) |
| Dashboard.CountGoalsUnique | app.py:280-283 | with unique goal names, exactly one goal matches an existing (name, category) |
| Dashboard.GoalSummaryEntriesUnique | app.py:306-313 | with unique goal names, Entries is the number of logs of the goal |
| Dashboard.GoalSummaryLastActivity | app.py:306-313 | Last_Activity is the latest date among the logs of the goal |
| Dashboard.GroupLatest | app.py:311 | the latest date of a merged group is the latest date of the logs of its goal |
| FutureChat.RecentLogs | app.py:372-373 | the window keeps exactly the logs dated no earlier than today − 30 days, each as often as it was logged |
| FutureChat.RecentSummary | app.py:375-386 | one row per goal with a recent log, in goal-name order; each row counts that goal's recent logs and carries their latest date; the table is empty exactly when nothing is recent |
| FutureChat.GoalLine | app.py:389-390 | a goal line starts with `- name (Category: category)`; the ` — description` suffix ends the line when the description is not empty, and otherwise the line ends at `)` |
| FutureChat.GoalLines | app.py:388-392 | one line per goal, in goal order |
| FutureChat.GoalsText | app.py:388-392 | `goals_text` is empty exactly when there are no goals; the page stops at app.py:359-361 when there are none, so the "No goals." fallback at app.py:431 is never shown |
| FutureChat.GoalsTextLines | app.py:388-392 | `goals_text` splits back into exactly one line per goal, in goal order |
| FutureChat.ProgressLine | app.py:396 | a progress line is `- goal: `, then the rendered entry count, then ` log(s), last activity `, the rendered last-activity day and a full stop; it holds no line break when the goal name and rendered date hold none |
| FutureChat.ProgressLineFields | app.py:396 | the count written into a progress line is all digits and reads back as the row's number of entries, and the day written before the final full stop is the row's last activity |
| FutureChat.ProgressLines | app.py:395-398 | one line per summary row, in row order |
| FutureChat.ProgressText | app.py:394-400 | `progress_text` is "No activity logged in the last 30 days." exactly when no log falls in the window |
| FutureChat.ProgressTextLines | app.py:394-398 | with some recent log, `progress_text` splits back into one line per goal with recent logs, in goal-name order |

## Left out

- Streamlit rendering, widgets, layout, metrics and the bar chart. This is
  UI.
- The `st.rerun` / `st.stop` control flow, and the page guards that show a
  notice instead of a page when there are no goals or no logs. These are UI.
  The summaries are defined for empty lists too.
- The widgets enter the model only as the preconditions of the handlers:
  - the category comes from the six options;
  - the logged goal is one of the goal names;
  - a delete button exists only for an existing index.
- `load_json` / `save_json` and the `save_*_to_disk` helpers. This is file
  I/O. Loaded lists are inputs to `InitFromDisk`, and saves are not
  modelled.
- The OpenAI client, the API key lookup, the prompt template and the call
  itself. This is a network call. Its answer is an input of `Ask`.
- Date parsing and formatting, and the "Unknown" branch taken when a stored
  date fails to parse. This is library code. Dates are day numbers, and the
  `%Y-%m-%d` rendering is a parameter.
- The order among log entries of the same day in the recent entries.
  pandas' default sort is not stable, so `app.py` does not fix it. The model
  keeps log order, and no property proved depends on it.
- Text.Strip: its contract characterises the result through the lemmas
  `StripMargins` and `StripPadded` rather than in one clause.
- Session.SessionState.Ask: the reply is a string. The API may return a
  message whose content is `None`, which the app appends as is (app.py:494-498).
  The model does not represent that case.
- Python strings holding lone surrogates. A `str` is modelled as a string of
  Unicode scalar values.
- Home.LastLoggedText: it requires that the rendering of a day never spells
  "No logs yet", which holds for `%Y-%m-%d`.
