/** The "Recent Entries" table of the Log Today page:
    `logs_df.sort_values("Date", ascending=False).head(20)`. */
module LogToday {
  import opened Records

  /** How many entries the table shows. */
  const RecentEntriesShown: nat := 20

  /** Dates never increase along the sequence. */
  predicate NewestFirst(s: seq<Log>)
  {
    forall i, j :: 0 <= i < j < |s| ==> s[i].date >= s[j].date
  }

  /** Puts `l` into a newest-first sequence, ahead of the entries of the same day. */
  function InsertByDate(l: Log, s: seq<Log>): (r: seq<Log>)
    requires NewestFirst(s)
    ensures NewestFirst(r)
    ensures multiset(r) == multiset(s) + multiset{l}
    ensures |r| == |s| + 1 && (r[0] == l || (s != [] && r[0] == s[0]))
  {
    if s == [] || l.date >= s[0].date then
      NewestFirstCons(l, s);
      [l] + s
    else
      assert s == [s[0]] + s[1..];
      var rest := InsertByDate(l, s[1..]);
      NewestFirstCons(s[0], rest);
      [s[0]] + rest
  }

  /** Putting an entry no older than the head in front keeps the order. */
  lemma NewestFirstCons(x: Log, t: seq<Log>)
    requires NewestFirst(t) && (t != [] ==> x.date >= t[0].date)
    ensures NewestFirst([x] + t)
  {
    forall i, j | 0 <= i < j < |[x] + t| ensures ([x] + t)[i].date >= ([x] + t)[j].date {
      if i > 0 {
        assert ([x] + t)[i] == t[i - 1];
      }
      assert ([x] + t)[j] == t[j - 1];
    }
  }

  /** The entries, newest first. pandas' default sort is not stable, so the
      order among entries of one day is not fixed by the app; this one keeps
      them in log order. */
  function SortNewestFirst(logs: seq<Log>): (r: seq<Log>)
    ensures NewestFirst(r)
    ensures multiset(r) == multiset(logs)
  {
    if logs == [] then []
    else
      assert logs == [logs[0]] + logs[1..];
      InsertByDate(logs[0], SortNewestFirst(logs[1..]))
  }

  /** The recent-entries table: at most 20 entries, newest first, each one a
      logged entry (as often as it was logged at most), and no entry left out
      is newer than one shown. */
  function RecentEntries(logs: seq<Log>): (r: seq<Log>)
    ensures |r| == if |logs| < RecentEntriesShown then |logs| else RecentEntriesShown
    ensures NewestFirst(r)
    ensures multiset(r) <= multiset(logs)
    ensures forall x, y :: x in multiset(logs) - multiset(r) && y in r ==> x.date <= y.date
  {
    var s := SortNewestFirst(logs);
    var n := if |s| < RecentEntriesShown then |s| else RecentEntriesShown;
    NewestFirstPrefix(s, n);
    s[..n]
  }

  /** A prefix of a newest-first sequence is newest first, is part of it, and
      nothing it leaves out is newer than anything it keeps. */
  lemma NewestFirstPrefix(s: seq<Log>, n: nat)
    requires NewestFirst(s) && n <= |s|
    ensures NewestFirst(s[..n])
    ensures multiset(s[..n]) <= multiset(s)
    ensures forall x, y :: x in multiset(s) - multiset(s[..n]) && y in s[..n] ==> x.date <= y.date
  {
    var kept := s[..n];
    assert NewestFirst(kept) by {
      assert forall i :: 0 <= i < n ==> kept[i] == s[i];
    }
    PrefixRest(s, n);
    RestNotNewer(s, n);
  }

  lemma PrefixRest(s: seq<Log>, n: nat)
    requires n <= |s|
    ensures multiset(s) == multiset(s[..n]) + multiset(s[n..])
  {
    assert s == s[..n] + s[n..];
  }

  lemma RestNotNewer(s: seq<Log>, n: nat)
    requires NewestFirst(s) && n <= |s|
    ensures forall x, y :: x in s[n..] && y in s[..n] ==> x.date <= y.date
  {
    forall x, y | x in s[n..] && y in s[..n] ensures x.date <= y.date {
      var j :| n <= j < |s| && s[j] == x;
      var i :| 0 <= i < n && s[i] == y;
    }
  }
}
