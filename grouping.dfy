/** The meaning of the app's pandas aggregation
      `df.groupby(keys).agg(Entries=("Note", "count"), Last_Activity=("Date", "max"))`
    over a sequence of rows: one summary per distinct key, rows whose key is
    missing (NaN) dropped, keys in increasing order. */
module Grouping {
  import opened Records
  import opened Ordering

  /** One output row of the aggregation. */
  datatype Summary<K> = Summary(key: K, entries: nat, lastActivity: Day)

  /** The rows whose key is `k`, in their original order. */
  function Matching<R(==,!new), K(==,!new)>(rows: seq<R>, keyOf: R -> Option<K>, k: K): (m: seq<R>)
    ensures forall x :: x in m <==> x in rows && keyOf(x) == Some(k)
    ensures |m| <= |rows|
  {
    if rows == [] then []
    else (if keyOf(rows[0]) == Some(k) then [rows[0]] else []) + Matching(rows[1..], keyOf, k)
  }

  /** Filtering distributes over concatenation. */
  lemma {:induction false} MatchingAppend<R(!new), K(!new)>(a: seq<R>, b: seq<R>, keyOf: R -> Option<K>, k: K)
    ensures Matching(a + b, keyOf, k) == Matching(a, keyOf, k) + Matching(b, keyOf, k)
  {
    if a == [] {
      assert a + b == b;
    } else {
      assert (a + b)[0] == a[0] && (a + b)[1..] == a[1..] + b;
      MatchingAppend(a[1..], b, keyOf, k);
    }
  }

  /** No row has key `k`, so its group is empty. */
  lemma {:induction false} MatchingNone<R(!new), K(!new)>(rows: seq<R>, keyOf: R -> Option<K>, k: K)
    requires forall x :: x in rows ==> keyOf(x) != Some(k)
    ensures Matching(rows, keyOf, k) == []
  {
    if rows != [] {
      assert rows[0] in rows;
      MatchingNone(rows[1..], keyOf, k);
    }
  }

  /** The keys present among the rows, in row order, repeats included. */
  function PresentKeys<R(!new), K(!new)>(rows: seq<R>, keyOf: R -> Option<K>): (ks: seq<K>)
    ensures forall k :: k in ks <==> exists x :: x in rows && keyOf(x) == Some(k)
  {
    if rows == [] then []
    else
      var rest := PresentKeys(rows[1..], keyOf);
      assert forall x :: x in rows <==> x == rows[0] || x in rows[1..];
      match keyOf(rows[0])
      case None => rest
      case Some(k) => [k] + rest
  }

  /** The latest of a non-empty collection of dates (pandas' "max"). */
  function Latest(dates: seq<Day>): (d: Day)
    requires dates != []
    ensures d in dates
    ensures forall e :: e in dates ==> e <= d
  {
    if |dates| == 1 then dates[0]
    else
      var rest := Latest(dates[1..]);
      assert forall e :: e in dates ==> e == dates[0] || e in dates[1..];
      if dates[0] >= rest then dates[0] else rest
  }

  function DatesOf<R>(rows: seq<R>, dateOf: R -> Day): (ds: seq<Day>)
    ensures |ds| == |rows|
    ensures forall i :: 0 <= i < |rows| ==> ds[i] == dateOf(rows[i])
  {
    seq(|rows|, i requires 0 <= i < |rows| => dateOf(rows[i]))
  }

  /** `d` is the date of one of the rows and no row is later. */
  ghost predicate IsLatest<R(!new)>(d: Day, rows: seq<R>, dateOf: R -> Day)
  {
    (exists x :: x in rows && dateOf(x) == d) &&
    (forall x :: x in rows ==> dateOf(x) <= d)
  }

  /** The aggregate of one group: its size and its latest date. */
  function SummaryOf<R(==,!new), K(==,!new)>(rows: seq<R>, keyOf: R -> Option<K>, dateOf: R -> Day, k: K): (s: Summary<K>)
    requires exists x :: x in rows && keyOf(x) == Some(k)
    ensures s.key == k && s.entries == |Matching(rows, keyOf, k)| && s.entries > 0
    ensures IsLatest(s.lastActivity, Matching(rows, keyOf, k), dateOf)
  {
    var m := Matching(rows, keyOf, k);
    var ds := DatesOf(m, dateOf);
    var d := Latest(ds);
    assert forall x :: x in m ==> dateOf(x) in ds by {
      forall x | x in m ensures dateOf(x) in ds {
        var i :| 0 <= i < |m| && m[i] == x;
        assert ds[i] == dateOf(x);
      }
    }
    Summary(k, |m|, d)
  }

  function KeysOf<K>(s: seq<Summary<K>>): (ks: seq<K>)
    ensures |ks| == |s|
    ensures forall i :: 0 <= i < |s| ==> ks[i] == s[i].key
  {
    seq(|s|, i requires 0 <= i < |s| => s[i].key)
  }

  /** The grouped aggregation: exactly one summary per key present among the
      rows, in increasing key order, each counting the rows with that key and
      carrying the latest of their dates. */
  function Summarise<R(==,!new), K(==,!new)>(rows: seq<R>, keyOf: R -> Option<K>, dateOf: R -> Day,
                                       less: (K, K) -> bool): (r: seq<Summary<K>>)
    requires StrictTotalOrder(less)
    ensures Increasing(KeysOf(r), less)
    ensures forall k :: k in KeysOf(r) <==> exists x :: x in rows && keyOf(x) == Some(k)
    ensures forall i :: 0 <= i < |r| ==>
              r[i].entries == |Matching(rows, keyOf, r[i].key)| && r[i].entries > 0 &&
              IsLatest(r[i].lastActivity, Matching(rows, keyOf, r[i].key), dateOf)
  {
    var ks := SortedDistinct(PresentKeys(rows, keyOf), less);
    var r := seq(|ks|, i requires 0 <= i < |ks| => SummaryOf(rows, keyOf, dateOf, ks[i]));
    assert KeysOf(r) == ks;
    r
  }

  /** No rows, no summaries; some keyed row, some summary. */
  lemma SummariseEmpty<R(!new), K(!new)>(rows: seq<R>, keyOf: R -> Option<K>, dateOf: R -> Day,
                                         less: (K, K) -> bool)
    requires StrictTotalOrder(less)
    ensures Summarise(rows, keyOf, dateOf, less) == [] <==>
            forall x :: x in rows ==> keyOf(x) == None
  {
    var r := Summarise(rows, keyOf, dateOf, less);
    if r != [] {
      assert r[0].key in KeysOf(r);
    }
    if x :| x in rows && keyOf(x) != None {
      assert keyOf(x).value in KeysOf(r);
    }
  }
}
