/** The `Collection` of cgls_land.py:126-292: the observation table of one
    product, the getters that cache what they compute, and `download`, which
    de-duplicates real-time rows, resolves a date selector to rows of the
    table by a floor lookup, and fetches the chosen files. */
module Catalog {
  import opened Wrappers
  import opened Text
  import opened Manifest
  import opened Fetch

  /** Why a call on a collection raises. */
  datatype CatalogError =
    | MissingColumn(column: string)  // KeyError: the table has no such column
    | NoRtAttribute                  // AttributeError: the table has no attribute `RT`
    | NotUniqueIndex                 // get_indexer on a date index holding a date twice
    | DateOutOfRange                 // 'Date are out of the valid range'
    | EndBeforeStart                 // 'End date is before the start date'
    | DatesCoincide                  // 'Dates coincide, please use only one date'
    | NoItemMethod                   // AttributeError: a DataFrame has no method `item`
    | NoTaskForDefaultDir            // IndexError: download_list[0] on an empty list
    | NoFilesDownloaded              // '0 files downloaded'

  // ---------------------------------------------------------------------------
  // Distinct values

  /** `Series.unique()`: the distinct values, in order of first appearance. */
  function Distinct<T(==)>(s: seq<T>): (r: seq<T>)
    ensures forall i :: 0 <= i < |r| ==> r[i] in s
    ensures forall i :: 0 <= i < |s| ==> s[i] in r
    ensures forall i, j :: 0 <= i < j < |r| ==> r[i] != r[j]
  {
    if |s| == 0 then []
    else
      var init := Distinct(s[..|s| - 1]);
      var x := s[|s| - 1];
      assert forall i :: 0 <= i < |s| - 1 ==> s[i] == s[..|s| - 1][i];
      if x in init then init else init + [x]
  }

  /** Appending a value extends the distinct values, or leaves them as they are. */
  lemma {:induction false} DistinctStep<T>(s: seq<T>)
    requires |s| > 0
    ensures Distinct(s[..|s| - 1]) <= Distinct(s)
  {
  }

  lemma {:induction false} PrefixTrans<T>(a: seq<T>, b: seq<T>, c: seq<T>)
    requires a <= b && b <= c
    ensures a <= c
  {
    assert b[..|a|] == a;
  }

  /** The distinct values come in the order in which they first appear: the
      distinct values of any prefix are a prefix of the distinct values. */
  lemma {:induction false} DistinctOfPrefix<T>(s: seq<T>, k: nat)
    requires k <= |s|
    ensures Distinct(s[..k]) <= Distinct(s)
    decreases |s| - k
  {
    if k < |s| {
      var n := |s|;
      var init := s[..n - 1];
      assert init[..k] == s[..k];
      DistinctOfPrefix(init, k);
      DistinctStep(s);
      PrefixTrans(Distinct(s[..k]), Distinct(init), Distinct(s));
    } else {
      assert s[..k] == s;
    }
  }

  function Versions(t: seq<Record>): (r: seq<string>)
    ensures |r| == |t| && forall i :: 0 <= i < |t| ==> r[i] == t[i].version
  {
    seq(|t|, i requires 0 <= i < |t| => t[i].version)
  }

  function Sensors(t: seq<Record>): (r: seq<string>)
    ensures |r| == |t| && forall i :: 0 <= i < |t| ==> r[i] == t[i].sensor
  {
    seq(|t|, i requires 0 <= i < |t| => t[i].sensor)
  }

  function RtTags(t: seq<Record>): (r: seq<Option<string>>)
    ensures |r| == |t| && forall i :: 0 <= i < |t| ==> r[i] == t[i].rt
  {
    seq(|t|, i requires 0 <= i < |t| => t[i].rt)
  }

  // ---------------------------------------------------------------------------
  // Real-time de-duplication

  /** A later row of `t` has date `d`. */
  predicate DateLater(t: seq<Record>, i: nat, d: int)
  {
    exists j :: i < j < |t| && t[j].date == d
  }

  /** The dates of the rows. */
  function DateSet(t: seq<Record>): set<int>
  {
    set i | 0 <= i < |t| :: t[i].date
  }

  /** No date occurs twice. */
  predicate UniqueDates(t: seq<Record>)
  {
    forall i, j :: 0 <= i < j < |t| ==> t[i].date != t[j].date
  }

  /** `drop_duplicates(subset=['date'], keep='last')`: a row stays exactly when
      no later row has its date. */
  function DedupKeepLast(t: seq<Record>): (r: seq<Record>)
    ensures |r| <= |t|
    ensures |t| > 0 ==> |r| > 0 && r[|r| - 1] == t[|t| - 1]
  {
    if |t| == 0 then []
    else if DateLater(t, 0, t[0].date) then DedupKeepLast(t[1..])
    else [t[0]] + DedupKeepLast(t[1..])
  }

  lemma {:induction false} DatesOfCons(t: seq<Record>)
    requires |t| > 0
    ensures DateSet(t) == {t[0].date} + DateSet(t[1..])
  {
    forall d | d in DateSet(t) ensures d in {t[0].date} + DateSet(t[1..]) {
      var i :| 0 <= i < |t| && t[i].date == d;
      if i > 0 { assert t[1..][i - 1].date == d; }
    }
    forall d | d in DateSet(t[1..]) ensures d in DateSet(t) {
      var i :| 0 <= i < |t[1..]| && t[1..][i].date == d;
      assert t[i + 1].date == d;
    }
  }

  /** The de-duplication keeps the set of dates. */
  lemma {:induction false} DedupKeepsDates(t: seq<Record>)
    ensures DateSet(DedupKeepLast(t)) == DateSet(t)
    decreases |t|
  {
    if |t| > 0 {
      var rest := t[1..];
      DedupKeepsDates(rest);
      DatesOfCons(t);
      if DateLater(t, 0, t[0].date) {
        var j :| 0 < j < |t| && t[j].date == t[0].date;
        assert rest[j - 1].date == t[0].date;
      } else {
        DatesOfCons([t[0]] + DedupKeepLast(rest));
        assert ([t[0]] + DedupKeepLast(rest))[1..] == DedupKeepLast(rest);
      }
    }
  }

  /** After the de-duplication no date occurs twice. */
  lemma {:induction false} DedupUnique(t: seq<Record>)
    ensures UniqueDates(DedupKeepLast(t))
    decreases |t|
  {
    if |t| > 0 {
      var rest := t[1..];
      DedupUnique(rest);
      if !DateLater(t, 0, t[0].date) {
        var rr := DedupKeepLast(rest);
        DedupKeepsDates(rest);
        forall k | 0 <= k < |rr|
          ensures rr[k].date != t[0].date
        {
          assert rr[k].date in DateSet(rr);
          var j :| 0 <= j < |rest| && rest[j].date == rr[k].date;
          assert t[j + 1].date == rr[k].date;
        }
      }
    }
  }

  /** `x` is a row of `t` that no later row shares its date with. */
  predicate LastOfItsDate(t: seq<Record>, x: Record)
  {
    exists i :: 0 <= i < |t| && x == t[i] && !DateLater(t, i, t[i].date)
  }

  /** Every row kept is a row of the table that no later row shares its date with. */
  lemma {:induction false} DedupKeepsLast(t: seq<Record>)
    ensures forall x :: x in DedupKeepLast(t) ==> LastOfItsDate(t, x)
    decreases |t|
  {
    if |t| > 0 {
      var rest := t[1..];
      DedupKeepsLast(rest);
      forall x | x in DedupKeepLast(rest)
        ensures LastOfItsDate(t, x)
      {
        var i :| 0 <= i < |rest| && x == rest[i] && !DateLater(rest, i, rest[i].date);
        assert t[i + 1] == rest[i];
      }
      if !DateLater(t, 0, t[0].date) {
        assert LastOfItsDate(t, t[0]);
      }
    }
  }

  /** One row per date, the same dates as before, and every row kept is the
      last of its date in the table. */
  lemma {:induction false} DedupKeepsLastOfEachDate(t: seq<Record>)
    ensures var r := DedupKeepLast(t);
      && UniqueDates(r)
      && DateSet(r) == DateSet(t)
      && (forall x :: x in r ==> LastOfItsDate(t, x))
  {
    DedupUnique(t);
    DedupKeepsDates(t);
    DedupKeepsLast(t);
  }

  /** A first row whose date comes again is dropped, and the de-duplicated
      rest starts no later than its date. */
  lemma {:induction false} DedupRepeatedHead(t: seq<Record>)
    requires |t| > 0 && DateLater(t, 0, t[0].date)
    requires SortedBy(DedupKeepLast(t[1..]), ByDate)
    ensures |DedupKeepLast(t[1..])| > 0 && DedupKeepLast(t[1..])[0].date <= t[0].date
  {
    var rest := t[1..];
    var rr := DedupKeepLast(rest);
    var j :| 0 < j < |t| && t[j].date == t[0].date;
    assert t[0].date == rest[j - 1].date;
    DedupKeepsLastOfEachDate(rest);
    assert rest[j - 1].date in DateSet(rest);
    assert rest[j - 1].date in DateSet(rr);
    var m :| 0 <= m < |rr| && rr[m].date == rest[j - 1].date;
    if m > 0 {
      assert KeyLe(rr[0], rr[m], ByDate);
    }
  }

  /** In a table sorted by date, the first row comes no later than any kept row of the rest. */
  lemma {:induction false} HeadBeforeDedupRest(t: seq<Record>)
    requires |t| > 0 && SortedBy(t, ByDate)
    ensures forall k :: 0 <= k < |DedupKeepLast(t[1..])| ==> KeyLe(t[0], DedupKeepLast(t[1..])[k], ByDate)
  {
    var rest := t[1..];
    var rr := DedupKeepLast(rest);
    DedupSubset(rest);
    forall k | 0 <= k < |rr|
      ensures KeyLe(t[0], rr[k], ByDate)
    {
      assert rr[k] in rr;
      var i :| 0 <= i < |rest| && rr[k] == rest[i];
      assert t[i + 1] == rest[i];
    }
  }

  /** Without a real-time column the de-duplication is not applied; with one, it
      keeps the rows of `t` in their order, so a table sorted by date stays
      sorted, and its first date and its last row do not change. */
  lemma {:induction false} DedupKeepsOrder(t: seq<Record>)
    requires SortedBy(t, ByDate)
    ensures var r := DedupKeepLast(t);
      && SortedBy(r, ByDate)
      && (|t| > 0 ==> |r| > 0 && r[0].date == t[0].date && r[|r| - 1] == t[|t| - 1])
    decreases |t|
  {
    if |t| > 0 {
      var rest := t[1..];
      DedupKeepsOrder(rest);
      var rr := DedupKeepLast(rest);
      if DateLater(t, 0, t[0].date) {
        DedupRepeatedHead(t);
        assert KeyLe(t[0], t[1], ByDate);
      } else {
        HeadBeforeDedupRest(t);
        assert DedupKeepLast(t) == [t[0]] + rr;
      }
    }
  }

  /** Every row kept is a row of the table. */
  lemma {:induction false} DedupSubset(t: seq<Record>)
    ensures forall x :: x in DedupKeepLast(t) ==> x in t
    decreases |t|
  {
    if |t| > 0 {
      DedupSubset(t[1..]);
    }
  }

  // ---------------------------------------------------------------------------
  // Floor lookup

  /** `index.get_indexer([q], method='ffill')[0]`: the greatest position whose
      date is at most `q`, or -1 when there is none. */
  function Floor(t: seq<Record>, q: int): (r: int)
    ensures -1 <= r < |t|
    ensures r >= 0 ==> t[r].date <= q
    ensures forall j :: r < j < |t| ==> q < t[j].date
  {
    if |t| == 0 then -1
    else if t[|t| - 1].date <= q then |t| - 1
    else Floor(t[..|t| - 1], q)
  }

  /** On a table sorted by date: every row up to the floor has a date at most
      `q`, every later row a greater date; a date of the table is found exactly
      when the dates are unique; a date between two consecutive dates gives the
      earlier one. */
  lemma {:induction false} FloorOfSorted(t: seq<Record>, q: int)
    requires SortedBy(t, ByDate)
    ensures forall j :: 0 <= j <= Floor(t, q) ==> t[j].date <= q
    ensures Floor(t, q) == -1 <==> (|t| == 0 || q < t[0].date)
    ensures UniqueDates(t) ==> forall i :: 0 <= i < |t| && t[i].date == q ==> Floor(t, q) == i
    ensures forall i :: 0 <= i < |t| - 1 && t[i].date <= q < t[i + 1].date ==> Floor(t, q) == i
  {
    var r := Floor(t, q);
    forall j | 0 <= j <= r ensures t[j].date <= q {
      if j < r { assert KeyLe(t[j], t[r], ByDate); }
    }
    if r == -1 && |t| > 0 {
      assert q < t[0].date;
    }
  }

  /** `iloc[i]` for -|t| <= i < |t|: a negative position counts from the end. */
  function Row(t: seq<Record>, i: int): Record
    requires -|t| <= i < |t|
  {
    if i >= 0 then t[i] else t[|t| + i]
  }

  /** `s[lo:hi]` in Python: both bounds are clamped, negative ones count from the end. */
  function PySlice<T>(s: seq<T>, lo: int, hi: int): (r: seq<T>)
    ensures |r| <= |s|
    ensures 0 <= lo <= hi <= |s| ==> r == s[lo..hi]
    ensures -|s| <= lo < 0 && 0 <= hi && |s| + lo <= hi ==> r == s[|s| + lo..if hi > |s| then |s| else hi]
    ensures hi <= lo && (0 <= hi || lo < 0) ==> r == []
    ensures -|s| <= lo < 0 && 0 <= hi < |s| + lo ==> r == []
  {
    var a := if lo < 0 then (if lo + |s| < 0 then 0 else lo + |s|) else (if lo > |s| then |s| else lo);
    var b := if hi < 0 then (if hi + |s| < 0 then 0 else hi + |s|) else (if hi > |s| then |s| else hi);
    if a < b then s[a..b] else []
  }

  // ---------------------------------------------------------------------------
  // Selectors

  /** The `date` argument of `download`. */
  datatype Selector =
    | Latest                   // None
    | OnDate(q: int)           // a str
    | OnDates(qs: seq<int>)    // a list
    | Between(a: int, b: int)  // a slice
    | Unrecognized             // anything else: no file is selected

  function TaskOf(rec: Record): Task
  {
    Task(rec.url, rec.fileName, rec.intPath)
  }

  function Tasks(t: seq<Record>): (r: seq<Task>)
    ensures |r| == |t| && forall i :: 0 <= i < |t| ==> r[i] == TaskOf(t[i])
  {
    seq(|t|, i requires 0 <= i < |t| => TaskOf(t[i]))
  }

  /** The "latest" branch as written: `tail(1).item()` on a DataFrame raises. */
  function LatestAsWritten(t: seq<Record>): (r: Result<seq<Task>, CatalogError>)
    ensures r == Err(NoItemMethod)
  {
    Err(NoItemMethod)
  }

  /** The "latest" branch as intended: the last row of the table. */
  function LatestRow(t: seq<Record>): (r: Result<seq<Task>, CatalogError>)
    requires |t| > 0
    ensures r.Ok? && |r.value| == 1
  {
    Ok([TaskOf(t[|t| - 1])])
  }

  /** On a table sorted by date the last row holds the latest date. */
  lemma {:induction false} LatestRowHasLatestDate(t: seq<Record>)
    requires SortedBy(t, ByDate) && |t| > 0
    ensures LatestRow(t).value == [TaskOf(t[|t| - 1])]
    ensures forall i :: 0 <= i < |t| ==> t[i].date <= t[|t| - 1].date
  {
    forall i | 0 <= i < |t| - 1 ensures t[i].date <= t[|t| - 1].date {
      assert KeyLe(t[i], t[|t| - 1], ByDate);
    }
  }

  /** One requested date (cgls_land.py:200-206, and each turn of 209-216). */
  function ResolveOne(t: seq<Record>, start: int, end: int, q: int): (r: Result<Task, CatalogError>)
    requires |t| > 0
    ensures !(start <= q <= end) ==> r == Err(DateOutOfRange)
    ensures start <= q <= end && !UniqueDates(t) ==> r == Err(NotUniqueIndex)
    ensures r.Ok? ==> start <= q <= end && UniqueDates(t) && r.value == TaskOf(Row(t, Floor(t, q)))
  {
    if !(start <= q <= end) then Err(DateOutOfRange)
    else if !UniqueDates(t) then Err(NotUniqueIndex)
    else Ok(TaskOf(Row(t, Floor(t, q))))
  }

  /** A list of dates: one task per date, in the order asked; the first date
      that fails decides the error. */
  function ResolveMany(t: seq<Record>, start: int, end: int, qs: seq<int>): (r: Result<seq<Task>, CatalogError>)
    requires |t| > 0
    ensures r.Ok? ==> |r.value| == |qs|
  {
    if |qs| == 0 then Ok([])
    else
      var init := qs[..|qs| - 1];
      match ResolveMany(t, start, end, init)
      case Err(e) => Err(e)
      case Ok(ts) =>
        match ResolveOne(t, start, end, qs[|qs| - 1])
        case Err(e) => Err(e)
        case Ok(x) => Ok(ts + [x])
  }

  /** The list succeeds exactly when every date does, and then holds the task
      of each date at its position. */
  lemma {:induction false} ResolveManyOk(t: seq<Record>, start: int, end: int, qs: seq<int>)
    requires |t| > 0
    ensures ResolveMany(t, start, end, qs).Ok? <==> forall k :: 0 <= k < |qs| ==> ResolveOne(t, start, end, qs[k]).Ok?
    ensures ResolveMany(t, start, end, qs).Ok? ==>
              forall k :: 0 <= k < |qs| ==> ResolveMany(t, start, end, qs).value[k] == ResolveOne(t, start, end, qs[k]).value
    decreases |qs|
  {
    if |qs| > 0 {
      var n := |qs|;
      var init := qs[..n - 1];
      ResolveManyOk(t, start, end, init);
      assert forall k :: 0 <= k < n - 1 ==> init[k] == qs[k];
      var prev, one := ResolveMany(t, start, end, init), ResolveOne(t, start, end, qs[n - 1]);
      if prev.Err? {
        assert ResolveMany(t, start, end, qs) == Err(prev.error);
      } else if one.Err? {
        assert ResolveMany(t, start, end, qs) == Err(one.error);
      } else {
        var ts := prev.value + [one.value];
        assert ResolveMany(t, start, end, qs) == Ok(ts);
        forall k | 0 <= k < n
          ensures ts[k] == ResolveOne(t, start, end, qs[k]).value
        {
          if k < n - 1 {
            assert ts[k] == prev.value[k];
          }
        }
      }
    }
  }

  /** A failing list fails with the error of its first failing date: any
      date out of range aborts the whole call. */
  lemma {:induction false} ResolveManyFirstError(t: seq<Record>, start: int, end: int, qs: seq<int>, k: nat)
    requires |t| > 0 && k < |qs| && ResolveOne(t, start, end, qs[k]).Err?
    requires forall i :: 0 <= i < k ==> ResolveOne(t, start, end, qs[i]).Ok?
    ensures ResolveMany(t, start, end, qs) == Err(ResolveOne(t, start, end, qs[k]).error)
    decreases |qs|
  {
    var n := |qs|;
    var init := qs[..n - 1];
    if k < n - 1 {
      ResolveManyFirstError(t, start, end, init, k);
    } else {
      ResolveManyOk(t, start, end, init);
      assert forall i :: 0 <= i < n - 1 ==> init[i] == qs[i];
    }
  }

  /** An interval (cgls_land.py:217-228): the three assertions, in this order,
      then the rows from the floor of the start to the floor of the stop,
      inclusive, as a Python slice. */
  function Interval(t: seq<Record>, start: int, end: int, a: int, b: int): (r: Result<seq<Task>, CatalogError>)
    ensures !(start <= a <= end || start <= b <= end) ==> r == Err(DateOutOfRange)
    ensures (start <= a <= end || start <= b <= end) && b < a ==> r == Err(EndBeforeStart)
    ensures (start <= a <= end || start <= b <= end) && a == b ==> r == Err(DatesCoincide)
    ensures r.Ok? ==> (start <= a <= end || start <= b <= end) && a < b && UniqueDates(t)
    ensures (start <= a <= end || start <= b <= end) && a < b ==>
              (r.Ok? <==> UniqueDates(t)) && (r.Err? ==> r.error == NotUniqueIndex)
  {
    if !(start <= a <= end || start <= b <= end) then Err(DateOutOfRange)
    else if !(a <= b) then Err(EndBeforeStart)
    else if a == b then Err(DatesCoincide)
    else if !UniqueDates(t) then Err(NotUniqueIndex)
    else Ok(Tasks(PySlice(t, Floor(t, a), Floor(t, b) + 1)))
  }

  /** When the interval starts on or after the first date of a sorted table,
      it yields the contiguous run of rows from the floor of its start to the
      floor of its stop, in table order, and every row dated within the
      interval is in that run. */
  lemma {:induction false} IntervalIsRun(t: seq<Record>, start: int, end: int, a: int, b: int)
    requires SortedBy(t, ByDate) && |t| > 0
    requires Interval(t, start, end, a, b).Ok? && t[0].date <= a
    ensures var lo, hi := Floor(t, a), Floor(t, b);
      && 0 <= lo <= hi < |t|
      && Interval(t, start, end, a, b).value == Tasks(t[lo..hi + 1])
      && forall k :: 0 <= k < |t| && a <= t[k].date <= b ==> lo <= k <= hi
  {
    FloorOfSorted(t, a);
    FloorOfSorted(t, b);
  }

  /** When the interval starts before the first date, the floor of its start
      is -1, and `iloc[-1:k]` keeps at most the last row: the rows from the
      first date to the stop are not selected. */
  lemma {:induction false} IntervalBeforeFirstDate(t: seq<Record>, start: int, end: int, a: int, b: int)
    requires SortedBy(t, ByDate) && |t| > 0
    requires Interval(t, start, end, a, b).Ok? && a < t[0].date
    ensures Interval(t, start, end, a, b).value ==
              if Floor(t, b) == |t| - 1 then [TaskOf(t[|t| - 1])] else []
  {
    FloorOfSorted(t, a);
  }

  /** A table of two days, asked for the interval from the day before the first
      to the first: nothing is selected, although the first day lies in it. */
  lemma ExampleIntervalBeforeFirstDate(x: Record, y: Record)
    requires x.date == 20200101 && y.date == 20200102
    ensures Interval([x, y], 20200101, 20200102, 20191231, 20200101) == Ok([])
  {
    var t := [x, y];
    assert Floor(t, 20191231) == -1;
    assert Floor(t, 20200101) == 0;
  }

  /** What `download` selects (cgls_land.py:195-228), with the "latest" branch
      as intended. */
  function Resolve(t: seq<Record>, start: int, end: int, sel: Selector): (r: Result<seq<Task>, CatalogError>)
    requires |t| > 0
    ensures r.Ok? && (sel.Latest? || sel.OnDate?) ==> |r.value| == 1
    ensures r.Ok? && sel.OnDates? ==> |r.value| == |sel.qs|
    ensures sel.Latest? || sel.Unrecognized? ==> r.Ok?
    ensures sel.Unrecognized? ==> r.value == []
  {
    match sel
    case Latest => LatestRow(t)
    case OnDate(q) =>
      (match ResolveOne(t, start, end, q)
       case Ok(task) => Ok([task])
       case Err(e) => Err(e))
    case OnDates(qs) => ResolveMany(t, start, end, qs)
    case Between(a, b) => Interval(t, start, end, a, b)
    case Unrecognized => Ok([])
  }

  /** A date of a sorted table with unique dates, asked for alone, gives the row of that date. */
  lemma {:induction false} ExactDateGivesItsRow(t: seq<Record>, i: nat)
    requires SortedBy(t, ByDate) && UniqueDates(t) && i < |t|
    ensures Resolve(t, t[0].date, t[|t| - 1].date, OnDate(t[i].date)) == Ok([TaskOf(t[i])])
  {
    FloorOfSorted(t, t[i].date);
    if 0 < i { assert KeyLe(t[0], t[i], ByDate); }
    if i < |t| - 1 { assert KeyLe(t[i], t[|t| - 1], ByDate); }
  }

  /** A date in the range of a sorted table with unique dates gives the row
      with the greatest date not after it. */
  lemma {:induction false} InRangeDateGivesFloorRow(t: seq<Record>, q: int)
    requires SortedBy(t, ByDate) && UniqueDates(t) && |t| > 0
    requires t[0].date <= q <= t[|t| - 1].date
    ensures var i := Floor(t, q);
      && 0 <= i < |t| && t[i].date <= q
      && (i < |t| - 1 ==> q < t[i + 1].date)
      && Resolve(t, t[0].date, t[|t| - 1].date, OnDate(q)) == Ok([TaskOf(t[i])])
  {
    FloorOfSorted(t, q);
  }

  // ---------------------------------------------------------------------------
  // The destination directory

  /** `os.path.abspath(p)` for a relative `p`, taken in the working directory `cwd`. */
  function AbsPath(cwd: string, p: string): string
  {
    PosixJoin([cwd, p])
  }

  /** `self.path` as computed at cgls_land.py:231-236: the given path made
      absolute, or `./data/<int_path of the first task>`. */
  function DestDir(path: Option<string>, cwd: string, tasks: seq<Task>): (r: Result<string, CatalogError>)
    ensures path.Some? && |path.value| > 0 && path.value[0] == '/' ==> r == Ok(path.value)
    ensures path.None? ==> (r.Err? <==> |tasks| == 0)
    ensures path.None? && |tasks| > 0 ==> EndsWith(r.value, tasks[0].intPath)
    ensures path.None? && |tasks| > 0 && (|tasks[0].intPath| == 0 || tasks[0].intPath[0] != '/') ==>
              r == Ok("./data/" + tasks[0].intPath)
    ensures path.Some? && (|path.value| == 0 || path.value[0] != '/') ==>
              r == Ok(if |cwd| == 0 || cwd[|cwd| - 1] == '/' then cwd + path.value else cwd + "/" + path.value)
    ensures path.Some? ==> r.Ok?
  {
    match path
    case Some(p) =>
      if |p| > 0 && p[0] == '/' then Ok(p)
      else
        PosixJoinTwo(cwd, p);
        Ok(AbsPath(cwd, p))
    case None =>
      if |tasks| == 0 then Err(NoTaskForDefaultDir)
      else
        var ip := tasks[0].intPath;
        PosixJoinEndsWithLast([".", "data", ip]);
        PosixJoinThree(".", "data", ip);
        assert JoinStep(".", "data") == "./data";
        assert "./data" + "/" + ip == "./data/" + ip;
        Ok(PosixJoin([".", "data", ip]))
  }

  // ---------------------------------------------------------------------------
  // The steps of a download

  /** The table `download` selects from (cgls_land.py:181-193): with an `rt`
      column, a tag raises (the attribute `RT` does not exist) and otherwise
      the table is de-duplicated; a table without rows, or whose date column
      has already gone into the index, has no `date` column. */
  function Prepared(t: seq<Record>, rtColumn: bool, dateIndexed: bool, rtTag: Option<string>): (r: Result<seq<Record>, CatalogError>)
    ensures r.Ok? ==> |r.value| > 0
  {
    if rtColumn && rtTag.Some? then Err(NoRtAttribute)
    else if dateIndexed then Err(MissingColumn("date"))
    else
      var u := if rtColumn then DedupKeepLast(t) else t;
      if |t| == 0 then Err(MissingColumn("date")) else Ok(u)
  }

  /** The prepared table is the table, or its de-duplication when there is an
      `rt` column; it stays sorted, keeps its first date and its last row,
      and has unique dates when it was de-duplicated. */
  lemma {:induction false} PreparedTable(t: seq<Record>, rtColumn: bool, dateIndexed: bool, rtTag: Option<string>)
    requires SortedBy(t, ByDate)
    ensures var r := Prepared(t, rtColumn, dateIndexed, rtTag);
      && (r.Ok? <==> !(rtColumn && rtTag.Some?) && !dateIndexed && |t| > 0)
      && (r.Ok? ==> SortedBy(r.value, ByDate) && r.value[0].date == t[0].date &&
                    r.value[|r.value| - 1] == t[|t| - 1])
      && (r.Ok? && rtColumn ==> UniqueDates(r.value) && DateSet(r.value) == DateSet(t))
      && (r.Ok? && !rtColumn ==> r.value == t)
  {
    DedupKeepsOrder(t);
    DedupUnique(t);
    DedupKeepsDates(t);
  }

  /** The tasks the selector picks and the directory they go to (cgls_land.py:195-236). */
  function Plan(t: seq<Record>, sel: Selector, path: Option<string>, cwd: string): (r: Result<(seq<Task>, string), CatalogError>)
    requires |t| > 0
    ensures r.Ok? ==> Resolve(t, t[0].date, t[|t| - 1].date, sel) == Ok(r.value.0)
  {
    match Resolve(t, t[0].date, t[|t| - 1].date, sel)
    case Err(e) => Err(e)
    case Ok(tasks) =>
      match DestDir(path, cwd, tasks)
      case Err(e) => Err(e)
      case Ok(dir) => Ok((tasks, dir))
  }

  /** The end of `download` for a prepared table `t`: when the plan fails, its
      error is raised before any file is touched, and `self.path` is still
      `pathBefore` if the selector raised and is the `path` argument if only
      the destination failed (`self.path = path` comes first); otherwise every
      task's file is fetched into the planned directory, which `self.path`
      then names, and what came back is gathered. */
  ghost predicate FetchedAsPlanned(t: seq<Record>, sel: Selector, path: Option<string>, cwd: string,
                                   server: string -> Reply, before: map<string, seq<bv8>>,
                                   after: map<string, seq<bv8>>, pathBefore: Option<string>,
                                   pathAfter: Option<string>, r: Result<seq<Value>, CatalogError>)
    requires |t| > 0
  {
    var plan := Plan(t, sel, path, cwd);
    && (plan.Err? ==>
          && r == Err(plan.error)
          && after == before
          && pathAfter == if Resolve(t, t[0].date, t[|t| - 1].date, sel).Err? then pathBefore else path)
    && (plan.Ok? ==>
          var run := RunAll(before, plan.value.1, plan.value.0, server);
          && pathAfter == Some(plan.value.1)
          && after == run.files
          && r == Gathered(run))
  }

  /** What `download` returns once every file has been fetched (cgls_land.py:257-260). */
  function Gathered(run: Run): (r: Result<seq<Value>, CatalogError>)
    ensures r.Err? <==> forall i :: 0 <= i < |run.outcomes| ==> run.outcomes[i] == Raised
  {
    KeptEmpty(run.outcomes);
    if |Kept(run.outcomes)| == 0 then Err(NoFilesDownloaded) else Ok(Kept(run.outcomes))
  }

  /** The end of `download` (cgls_land.py:238-260): every task's file is
      fetched into `dir`, and the values that came back are returned, unless
      there are none. */
  method Deliver(disk: Disk, dir: string, tasks: seq<Task>, server: string -> Reply)
    returns (r: Result<seq<Value>, CatalogError>)
    modifies disk
    ensures var run := RunAll(old(disk.files), dir, tasks, server);
      disk.files == run.files && r == Gathered(run)
  {
    var downloaded := RunTasks(disk, dir, tasks, server);
    if |downloaded| == 0 {
      return Err(NoFilesDownloaded);
    }
    r := Ok(downloaded);
  }

  /** The part of `download` after the date column went into the index
      (cgls_land.py:195-260), on the prepared table `t`: the selector picks the
      tasks between its first and last dates, the directory is fixed, and every
      task's file is fetched. `pathAfter` is what `self.path` then holds; it
      keeps `pathBefore` when no task could be picked. */
  method FetchSelected(disk: Disk, t: seq<Record>, sel: Selector, path: Option<string>, cwd: string,
                       server: string -> Reply, pathBefore: Option<string>)
    returns (r: Result<seq<Value>, CatalogError>, pathAfter: Option<string>)
    requires |t| > 0
    modifies disk
    ensures FetchedAsPlanned(t, sel, path, cwd, server, old(disk.files), disk.files, pathBefore, pathAfter, r)
  {
    pathAfter := pathBefore;
    var chosen := Resolve(t, t[0].date, t[|t| - 1].date, sel);
    if chosen.Err? {
      assert Plan(t, sel, path, cwd) == Err(chosen.error);
      return Err(chosen.error), pathAfter;
    }
    pathAfter := path;
    var dir := DestDir(path, cwd, chosen.value);
    if dir.Err? {
      assert Plan(t, sel, path, cwd) == Err(dir.error);
      return Err(dir.error), pathAfter;
    }
    pathAfter := Some(dir.value);
    assert Plan(t, sel, path, cwd) == Ok((chosen.value, dir.value));
    r := Deliver(disk, dir.value, chosen.value, server);
  }

  // ---------------------------------------------------------------------------
  // The collection

  class Collection {
    const name: string
    /** The observation table; its row index is 0..n-1. */
    var table: seq<Record>
    /** The table has an `rt` column: some line of the manifest was real-time. */
    const rtColumn: bool
    /** `set_index(['date'])` has moved the date column into the index. */
    var dateIndexed: bool
    var sensors: Option<seq<string>>
    var startDate: Option<int>
    var endDate: Option<int>
    var algVersionList: Option<seq<string>>
    var rt: Option<seq<Option<string>>>
    var path: Option<string>

    /** The table stays sorted by date; the cached dates are those of its first and last rows. */
    ghost predicate Valid()
      reads this
    {
      && SortedBy(table, ByDate)
      && (startDate.Some? <==> endDate.Some?)
      && (startDate.Some? ==> |table| > 0 && startDate.value == table[0].date &&
                               endDate.value == table[|table| - 1].date)
      && (dateIndexed ==> startDate.Some?)
      && (rtColumn ==> |table| > 0)
    }

    /** `Collection(name, observation_table, session)` as `load_collection` calls it. */
    constructor(name: string, table: seq<Record>)
      requires SortedBy(table, ByDate)
      ensures Valid()
      ensures this.name == name && this.table == table
      ensures rtColumn <==> exists i :: 0 <= i < |table| && table[i].rt.Some?
      ensures !dateIndexed && sensors.None? && startDate.None? && endDate.None?
      ensures algVersionList.None? && rt.None? && path.None?
    {
      this.name := name;
      this.table := table;
      this.rtColumn := exists i :: 0 <= i < |table| && table[i].rt.Some?;
      this.dateIndexed := false;
      this.sensors := None;
      this.startDate := None;
      this.endDate := None;
      this.algVersionList := None;
      this.rt := None;
      this.path := None;
    }

    /** `get_date_range`: the first and the last date of the table, cached. */
    method GetDateRange() returns (r: Result<(int, int), CatalogError>)
      requires Valid()
      modifies this
      ensures Valid()
      ensures |table| == 0 || dateIndexed ==> r == Err(MissingColumn("date"))
      ensures |table| > 0 && !dateIndexed ==> r.Ok?
      ensures r.Ok? ==> |table| > 0 && r.value == (table[0].date, table[|table| - 1].date)
      ensures r.Ok? ==> forall i :: 0 <= i < |table| ==> r.value.0 <= table[i].date <= r.value.1
      ensures r.Ok? ==> startDate == Some(r.value.0) && endDate == Some(r.value.1)
      ensures r.Err? ==> startDate == old(startDate) && endDate == old(endDate)
      ensures unchanged(this`table, this`dateIndexed, this`sensors, this`algVersionList, this`rt, this`path)
    {
      if |table| == 0 || dateIndexed {
        return Err(MissingColumn("date"));
      }
      var n := |table|;
      forall i | 0 <= i < n
        ensures table[0].date <= table[i].date <= table[n - 1].date
      {
        if 0 < i { assert KeyLe(table[0], table[i], ByDate); }
        if i < n - 1 { assert KeyLe(table[i], table[n - 1], ByDate); }
      }
      startDate := Some(table[0].date);
      endDate := Some(table[n - 1].date);
      r := Ok((table[0].date, table[n - 1].date));
    }

    /** `get_alg_version_list`: the distinct versions, cached. */
    method GetAlgVersionList() returns (r: Result<seq<string>, CatalogError>)
      requires Valid()
      modifies this
      ensures Valid()
      ensures |table| == 0 ==> r == Err(MissingColumn("version"))
      ensures |table| > 0 ==> r == Ok(Distinct(Versions(table)))
      ensures r.Ok? ==> algVersionList == Some(r.value)
      ensures r.Err? ==> algVersionList == old(algVersionList)
      ensures unchanged(this`table, this`dateIndexed, this`sensors, this`startDate, this`endDate, this`rt, this`path)
    {
      if |table| == 0 {
        return Err(MissingColumn("version"));
      }
      algVersionList := Some(Distinct(Versions(table)));
      r := Ok(Distinct(Versions(table)));
    }

    /** `get_sensors`: the distinct sensors, cached. */
    method GetSensors() returns (r: Result<seq<string>, CatalogError>)
      requires Valid()
      modifies this
      ensures Valid()
      ensures |table| == 0 ==> r == Err(MissingColumn("sensor"))
      ensures |table| > 0 ==> r == Ok(Distinct(Sensors(table)))
      ensures r.Ok? ==> sensors == Some(r.value)
      ensures r.Err? ==> sensors == old(sensors)
      ensures unchanged(this`table, this`dateIndexed, this`algVersionList, this`startDate, this`endDate, this`rt, this`path)
    {
      if |table| == 0 {
        return Err(MissingColumn("sensor"));
      }
      sensors := Some(Distinct(Sensors(table)));
      r := Ok(Distinct(Sensors(table)));
    }

    /** `get_rt`: the distinct real-time tags (NaN included), cached, when the
        table has an `rt` column; None otherwise. */
    method GetRt() returns (r: Option<seq<Option<string>>>)
      requires Valid()
      modifies this
      ensures Valid()
      ensures rtColumn ==> r == Some(Distinct(RtTags(table))) && rt == r
      ensures !rtColumn ==> r.None? && rt == old(rt)
      ensures unchanged(this`table, this`dateIndexed, this`algVersionList, this`startDate, this`endDate, this`sensors, this`path)
    {
      if rtColumn {
        rt := Some(Distinct(RtTags(table)));
        r := rt;
      } else {
        r := None;
      }
    }

    /** `download(date, path, rt=...)`: the table is prepared, the date range
        cached, the date column moved into the index, the selector picks the
        tasks, the destination directory is fixed, and every task's file is
        fetched; what the file downloads return is gathered. */
    method Download(disk: Disk, sel: Selector, path: Option<string>, rtTag: Option<string>, cwd: string,
                    server: string -> Reply) returns (r: Result<seq<Value>, CatalogError>)
      requires Valid()
      modifies this`table, this`startDate, this`endDate, this`dateIndexed, this`path, disk
      ensures Valid()
      ensures sensors == old(sensors) && algVersionList == old(algVersionList) && rt == old(rt)
      ensures Prepared(old(table), rtColumn, old(dateIndexed), rtTag).Err? ==>
                && r == Err(Prepared(old(table), rtColumn, old(dateIndexed), rtTag).error)
                && disk.files == old(disk.files) && table == old(table) && dateIndexed == old(dateIndexed)
                && this.path == old(this.path) && startDate == old(startDate) && endDate == old(endDate)
      ensures Prepared(old(table), rtColumn, old(dateIndexed), rtTag).Ok? ==>
                && table == Prepared(old(table), rtColumn, old(dateIndexed), rtTag).value && dateIndexed
                && FetchedAsPlanned(table, sel, path, cwd, server, old(disk.files), disk.files,
                                    old(this.path), this.path, r)
    {
      ghost var prep := Prepared(table, rtColumn, dateIndexed, rtTag);
      var e := Prepare(rtTag);
      if e.Some? {
        assert prep.Err?;
        return Err(e.value);
      }
      assert prep.Ok? && table == prep.value && this.path == old(this.path);
      var pathAfter;
      r, pathAfter := FetchSelected(disk, table, sel, path, cwd, server, this.path);
      assert table == prep.value && dateIndexed;
      this.path := pathAfter;
    }

    /** The start of `download` (cgls_land.py:181-193): the table is
        de-duplicated when it has an `rt` column, the date range is cached, and
        the date column goes into the index. */
    method Prepare(rtTag: Option<string>) returns (e: Option<CatalogError>)
      requires Valid()
      modifies this`table, this`startDate, this`endDate, this`dateIndexed
      ensures Valid()
      ensures var prep := Prepared(old(table), rtColumn, old(dateIndexed), rtTag);
        && (prep.Err? ==> && e == Some(prep.error) && table == old(table) && dateIndexed == old(dateIndexed)
                          && startDate == old(startDate) && endDate == old(endDate))
        && (prep.Ok? ==> e.None? && table == prep.value && dateIndexed &&
                         startDate == Some(table[0].date) && endDate == Some(table[|table| - 1].date))
    {
      PreparedTable(table, rtColumn, dateIndexed, rtTag);
      ghost var prep := Prepared(table, rtColumn, dateIndexed, rtTag);
      if rtColumn {
        if rtTag.Some? {
          return Some(NoRtAttribute);
        }
        if dateIndexed {
          return Some(MissingColumn("date"));
        }
        table := DedupKeepLast(table);
      }
      if startDate.None? || endDate.None? {
        if |table| == 0 {
          return Some(MissingColumn("date"));
        }
        startDate := Some(table[0].date);
        endDate := Some(table[|table| - 1].date);
      }
      if dateIndexed {
        return Some(MissingColumn("date"));
      }
      dateIndexed := true;
      assert table == prep.value;
      e := None;
    }

  }

  /** The download is proved against the "latest" branch as intended: as
      written, that branch raises on every table, where the intended one gives
      the last row. */
  lemma {:induction false} LatestAsWrittenAlwaysFails(t: seq<Record>)
    requires |t| > 0
    ensures LatestAsWritten(t).Err? && LatestRow(t).Ok?
    ensures Resolve(t, t[0].date, t[|t| - 1].date, Latest) == Ok([TaskOf(t[|t| - 1])])
  {
  }
}
