/** `moodsByDayOfYear` and `MoodGroupEntry`: the periods' average moods
    collected per calendar day with the year set aside, one row per day that
    occurs, rows in calendar order. Moving a date to the reference year 1970 and
    reading the key back are date-fns work; the model takes the resulting month
    and day of a period as a parameter. */
module DayOfYear {

  import opened Results
  import Seqs
  import opened Grouping
  import Aggregates

  datatype MonthDay = MonthDay(month: int, day: int)

  /** Calendar order within one year (the order of the 1970 timestamps). */
  predicate Before(a: MonthDay, b: MonthDay) {
    a.month < b.month || (a.month == b.month && a.day < b.day)
  }

  /** A row: the day and the average moods of the periods falling on it, in
      period order. */
  datatype MoodGroupEntry = MoodGroupEntry(date: MonthDay, moods: seq<Option<real>>)

  predicate Ascending(rows: seq<MoodGroupEntry>) {
    forall i, j :: 0 <= i < j < |rows| ==> Before(rows[i].date, rows[j].date)
  }

  function Dates(rows: seq<MoodGroupEntry>): (r: seq<MonthDay>)
    ensures |r| == |rows|
    ensures forall i :: 0 <= i < |rows| ==> r[i] == rows[i].date
  {
    Seqs.Map(rows, (e: MoodGroupEntry) => e.date)
  }

  function TotalMoods(rows: seq<MoodGroupEntry>): nat {
    if |rows| == 0 then 0 else |rows[0].moods| + TotalMoods(rows[1..])
  }

  /** One step of the sort: x placed before the first row it precedes. */
  function Insert(x: MoodGroupEntry, rows: seq<MoodGroupEntry>): (r: seq<MoodGroupEntry>)
    ensures |r| == |rows| + 1
  {
    if |rows| == 0 then [x]
    else if Before(x.date, rows[0].date) then [x] + rows
    else [rows[0]] + Insert(x, rows[1..])
  }

  lemma {:induction false} InsertPermutes(x: MoodGroupEntry, rows: seq<MoodGroupEntry>)
    ensures multiset(Insert(x, rows)) == multiset(rows) + multiset{x}
    ensures TotalMoods(Insert(x, rows)) == TotalMoods(rows) + |x.moods|
  {
    if |rows| > 0 && !Before(x.date, rows[0].date) {
      InsertPermutes(x, rows[1..]);
      assert rows == [rows[0]] + rows[1..];
    }
  }

  lemma {:induction false} InsertAscending(x: MoodGroupEntry, rows: seq<MoodGroupEntry>)
    requires Ascending(rows)
    requires x.date !in Dates(rows)
    ensures Ascending(Insert(x, rows))
  {
    if |rows| > 0 && !Before(x.date, rows[0].date) {
      assert Dates(rows[1..]) == Dates(rows)[1..];
      InsertAscending(x, rows[1..]);
      assert x.date != rows[0].date;
      HeadBeforeInserted(x, rows);
      ConsAscending(rows[0], Insert(x, rows[1..]));
    }
  }

  /** The head of ascending rows precedes x and every later row, hence every
      row of the tail with x inserted. */
  lemma HeadBeforeInserted(x: MoodGroupEntry, rows: seq<MoodGroupEntry>)
    requires Ascending(rows) && |rows| > 0
    requires Before(rows[0].date, x.date)
    ensures forall y :: y in Insert(x, rows[1..]) ==> Before(rows[0].date, y.date)
  {
    InsertPermutes(x, rows[1..]);
    forall y | y in Insert(x, rows[1..])
      ensures Before(rows[0].date, y.date)
    {
      assert y in multiset(Insert(x, rows[1..]));
      if y != x {
        var j :| 0 <= j < |rows[1..]| && rows[1..][j] == y;
        assert rows[j + 1] == y;
      }
    }
  }

  lemma ConsAscending(h: MoodGroupEntry, rest: seq<MoodGroupEntry>)
    requires Ascending(rest)
    requires forall y :: y in rest ==> Before(h.date, y.date)
    ensures Ascending([h] + rest)
  {
    var r := [h] + rest;
    forall i, j | 0 <= i < j < |r|
      ensures Before(r[i].date, r[j].date)
    {
      if i == 0 {
        assert r[j] == rest[j - 1];
      } else {
        assert r[i] == rest[i - 1] && r[j] == rest[j - 1];
      }
    }
  }

  /** The comparator sort of the rows by date. Row dates are distinct, so the
      order is strict and stability does not matter. */
  function SortRows(rows: seq<MoodGroupEntry>): (r: seq<MoodGroupEntry>)
    ensures |r| == |rows|
  {
    if |rows| == 0 then []
    else
      var n := |rows| - 1;
      Insert(rows[n], SortRows(rows[..n]))
  }

  lemma {:induction false} SortPermutes(rows: seq<MoodGroupEntry>)
    ensures multiset(SortRows(rows)) == multiset(rows)
    ensures TotalMoods(SortRows(rows)) == TotalMoods(rows)
  {
    if |rows| > 0 {
      var n := |rows| - 1;
      SortPermutes(rows[..n]);
      InsertPermutes(rows[n], SortRows(rows[..n]));
      assert rows == rows[..n] + [rows[n]];
      TotalMoodsAppend(rows[..n], rows[n]);
    }
  }

  lemma {:induction false} SortAscending(rows: seq<MoodGroupEntry>)
    requires Seqs.NoDups(Dates(rows))
    ensures Ascending(SortRows(rows))
  {
    if |rows| > 0 {
      var n := |rows| - 1;
      assert Dates(rows[..n]) == Dates(rows)[..n];
      SortAscending(rows[..n]);
      SortPermutes(rows[..n]);
      var sorted := SortRows(rows[..n]);
      assert rows[n].date !in Dates(sorted) by {
        forall y | y in sorted ensures y.date != rows[n].date {
          assert y in multiset(rows[..n]);
          var i :| 0 <= i < n && rows[..n][i] == y;
          assert Dates(rows)[i] == y.date;
        }
      }
      InsertAscending(rows[n], sorted);
    }
  }

  lemma {:induction false} TotalMoodsAppend(rows: seq<MoodGroupEntry>, x: MoodGroupEntry)
    ensures TotalMoods(rows + [x]) == TotalMoods(rows) + |x.moods|
  {
    if |rows| > 0 {
      assert (rows + [x])[1..] == rows[1..] + [x];
      TotalMoodsAppend(rows[1..], x);
    }
  }

  function ToRow(b: (MonthDay, seq<GroupedPeriod>)): MoodGroupEntry {
    MoodGroupEntry(b.0, Aggregates.Averages(b.1))
  }

  lemma {:induction false} TotalMoodsOfBuckets(bs: seq<(MonthDay, seq<GroupedPeriod>)>)
    ensures TotalMoods(Seqs.Map(bs, ToRow)) == Seqs.SumLengths(bs)
  {
    if |bs| > 0 {
      var n := |bs| - 1;
      assert Seqs.Map(bs, ToRow) == Seqs.Map(bs[..n], ToRow) + [ToRow(bs[n])];
      TotalMoodsAppend(Seqs.Map(bs[..n], ToRow), ToRow(bs[n]));
      TotalMoodsOfBuckets(bs[..n]);
    }
  }

  /** The rows before sorting: one per distinct day in first-seen order. */
  function UnsortedRows(ps: seq<GroupedPeriod>, dayOf: GroupedPeriod -> MonthDay): (r: seq<MoodGroupEntry>)
    ensures Dates(r) == Seqs.Distinct(Seqs.Map(ps, dayOf))
    ensures forall i :: 0 <= i < |r| ==> r[i].moods == Aggregates.Averages(Seqs.Members(ps, dayOf, r[i].date))
    ensures TotalMoods(r) == |ps|
  {
    var bs := Seqs.Bucket(ps, dayOf);
    TotalMoodsOfBuckets(bs);
    var r := Seqs.Map(bs, ToRow);
    assert Dates(r) == Seqs.Keys(bs);
    r
  }

  /** `moodsByDayOfYear`: one row per day of the year on which some period
      falls, in calendar order; each row holds the average moods of exactly
      the periods falling on its day, in period order, and every period
      contributes to one row. */
  function MoodsByDayOfYear(ps: seq<GroupedPeriod>, dayOf: GroupedPeriod -> MonthDay): (r: seq<MoodGroupEntry>)
    ensures Ascending(r)
    ensures forall i :: 0 <= i < |r| ==> r[i].date in Seqs.Map(ps, dayOf)
    ensures forall k :: 0 <= k < |ps| ==> dayOf(ps[k]) in Dates(r)
    ensures forall i :: 0 <= i < |r| ==>
      && r[i].moods == Aggregates.Averages(Seqs.Members(ps, dayOf, r[i].date))
      && |r[i].moods| > 0
    ensures TotalMoods(r) == |ps|
  {
    var rows := UnsortedRows(ps, dayOf);
    SortPermutes(rows);
    SortAscending(rows);
    SortedRows(ps, dayOf, rows, SortRows(rows));
    SortedCovers(ps, dayOf, rows, SortRows(rows));
    SortRows(rows)
  }

  /** Sorting keeps the rows' facts: the same rows, in another order. */
  lemma SortedRows(ps: seq<GroupedPeriod>, dayOf: GroupedPeriod -> MonthDay, rows: seq<MoodGroupEntry>, r: seq<MoodGroupEntry>)
    requires multiset(r) == multiset(rows)
    requires Dates(rows) == Seqs.Distinct(Seqs.Map(ps, dayOf))
    requires forall i :: 0 <= i < |rows| ==> rows[i].moods == Aggregates.Averages(Seqs.Members(ps, dayOf, rows[i].date))
    ensures forall i :: 0 <= i < |r| ==>
      && r[i].date in Seqs.Map(ps, dayOf)
      && r[i].moods == Aggregates.Averages(Seqs.Members(ps, dayOf, r[i].date))
      && |r[i].moods| > 0
  {
    forall i | 0 <= i < |r|
      ensures r[i].date in Seqs.Map(ps, dayOf)
      ensures r[i].moods == Aggregates.Averages(Seqs.Members(ps, dayOf, r[i].date))
      ensures |r[i].moods| > 0
    {
      assert r[i] in multiset(rows);
      RowFact(ps, dayOf, rows, r[i]);
    }
  }

  /** Every period's day has a row after sorting. */
  lemma SortedCovers(ps: seq<GroupedPeriod>, dayOf: GroupedPeriod -> MonthDay, rows: seq<MoodGroupEntry>, r: seq<MoodGroupEntry>)
    requires multiset(r) == multiset(rows)
    requires Dates(rows) == Seqs.Distinct(Seqs.Map(ps, dayOf))
    ensures forall k :: 0 <= k < |ps| ==> dayOf(ps[k]) in Dates(r)
  {
    forall k | 0 <= k < |ps|
      ensures dayOf(ps[k]) in Dates(r)
    {
      RowCovers(ps, dayOf, rows, r, k);
    }
  }

  lemma RowFact(ps: seq<GroupedPeriod>, dayOf: GroupedPeriod -> MonthDay, rows: seq<MoodGroupEntry>, e: MoodGroupEntry)
    requires e in rows
    requires Dates(rows) == Seqs.Distinct(Seqs.Map(ps, dayOf))
    requires forall i :: 0 <= i < |rows| ==> rows[i].moods == Aggregates.Averages(Seqs.Members(ps, dayOf, rows[i].date))
    ensures e.date in Seqs.Map(ps, dayOf)
    ensures e.moods == Aggregates.Averages(Seqs.Members(ps, dayOf, e.date))
    ensures |e.moods| > 0
  {
    var j :| 0 <= j < |rows| && rows[j] == e;
    assert Dates(rows)[j] == e.date;
  }

  lemma RowCovers(ps: seq<GroupedPeriod>, dayOf: GroupedPeriod -> MonthDay, rows: seq<MoodGroupEntry>, r: seq<MoodGroupEntry>, k: nat)
    requires k < |ps|
    requires multiset(r) == multiset(rows)
    requires Dates(rows) == Seqs.Distinct(Seqs.Map(ps, dayOf))
    ensures dayOf(ps[k]) in Dates(r)
  {
    assert dayOf(ps[k]) in Seqs.Map(ps, dayOf);
    var j :| 0 <= j < |rows| && Dates(rows)[j] == dayOf(ps[k]);
    assert rows[j] in multiset(r);
    var i :| 0 <= i < |r| && r[i] == rows[j];
    assert Dates(r)[i] == dayOf(ps[k]);
  }

  /** `Math.min` / `Math.max` over the moods: NaN (None) as soon as one mood
      is NaN. Over no moods the source gives ±Infinity, which a row never
      meets; it is None here. */
  function MinOf(xs: seq<Option<real>>): (r: Option<real>)
    ensures r.Some? <==> |xs| > 0 && forall i :: 0 <= i < |xs| ==> xs[i].Some?
    ensures r.Some? ==> forall i :: 0 <= i < |xs| ==> r.value <= xs[i].value
    ensures r.Some? ==> exists i :: 0 <= i < |xs| && xs[i].value == r.value
  {
    if |xs| == 0 || xs[0].None? then None
    else if |xs| == 1 then xs[0]
    else
      assert forall i :: 0 < i < |xs| ==> xs[i] == xs[1..][i - 1];
      match MinOf(xs[1..])
      case None => None
      case Some(m) => Some(if xs[0].value <= m then xs[0].value else m)
  }

  function MaxOf(xs: seq<Option<real>>): (r: Option<real>)
    ensures r.Some? <==> |xs| > 0 && forall i :: 0 <= i < |xs| ==> xs[i].Some?
    ensures r.Some? ==> forall i :: 0 <= i < |xs| ==> xs[i].value <= r.value
    ensures r.Some? ==> exists i :: 0 <= i < |xs| && xs[i].value == r.value
  {
    if |xs| == 0 || xs[0].None? then None
    else if |xs| == 1 then xs[0]
    else
      assert forall i :: 0 < i < |xs| ==> xs[i] == xs[1..][i - 1];
      match MaxOf(xs[1..])
      case None => None
      case Some(m) => Some(if xs[0].value >= m then xs[0].value else m)
  }

  /** `MoodGroupEntry.average`, `.min` and `.max`. */
  function RowAverage(e: MoodGroupEntry): Option<real> {
    Aggregates.Mean(e.moods)
  }

  function RowMin(e: MoodGroupEntry): Option<real> {
    MinOf(e.moods)
  }

  function RowMax(e: MoodGroupEntry): Option<real> {
    MaxOf(e.moods)
  }

  lemma {:induction false} SumOptBounds(xs: seq<Option<real>>, lo: real, hi: real)
    requires forall i :: 0 <= i < |xs| ==> xs[i].Some? && lo <= xs[i].value <= hi
    ensures Seqs.SumOpt(xs).Some?
    ensures (|xs| as real) * lo <= Seqs.SumOpt(xs).value <= (|xs| as real) * hi
  {
    if |xs| > 0 {
      var n := |xs| - 1;
      SumOptBounds(xs[..n], lo, hi);
    }
  }

  /** A mean of defined values lies between any bounds of those values. */
  lemma MeanBounds(xs: seq<Option<real>>, lo: real, hi: real)
    requires |xs| > 0
    requires forall i :: 0 <= i < |xs| ==> xs[i].Some? && lo <= xs[i].value <= hi
    ensures Aggregates.Mean(xs).Some?
    ensures lo <= Aggregates.Mean(xs).value <= hi
  {
    SumOptBounds(xs, lo, hi);
    var n := |xs| as real;
    var a := Aggregates.Mean(xs).value;
    assert a * n == Seqs.SumOpt(xs).value;
    Aggregates.Cancel(lo, a, n);
    Aggregates.Cancel(a, hi, n);
  }

  /** The three statistics of a row are defined together, and the average lies
      between the minimum and the maximum. */
  lemma RowBounds(e: MoodGroupEntry)
    ensures RowAverage(e).Some? <==> RowMin(e).Some?
    ensures RowMin(e).Some? <==> RowMax(e).Some?
    ensures RowAverage(e).Some? ==> RowMin(e).value <= RowAverage(e).value <= RowMax(e).value
  {
    if RowAverage(e).Some? {
      MeanBounds(e.moods, RowMin(e).value, RowMax(e).value);
    }
  }

  /** A row whose moods all equal v has average, minimum and maximum v. */
  lemma ConstantRow(e: MoodGroupEntry, v: real)
    requires |e.moods| > 0
    requires forall j :: 0 <= j < |e.moods| ==> e.moods[j] == Some(v)
    ensures RowAverage(e) == Some(v) && RowMin(e) == Some(v) && RowMax(e) == Some(v)
  {
    MeanBounds(e.moods, v, v);
  }

  /** The row of day d, when each period falling on d has average v. */
  lemma ConstantMembers(ps: seq<GroupedPeriod>, dayOf: GroupedPeriod -> MonthDay, d: MonthDay, v: real, e: MoodGroupEntry)
    requires forall k :: 0 <= k < |ps| && dayOf(ps[k]) == d ==> Aggregates.AverageMood(ps[k]) == Some(v)
    requires e.moods == Aggregates.Averages(Seqs.Members(ps, dayOf, d)) && |e.moods| > 0
    ensures RowAverage(e) == Some(v) && RowMin(e) == Some(v) && RowMax(e) == Some(v)
  {
    var ms := Seqs.Members(ps, dayOf, d);
    forall j | 0 <= j < |ms|
      ensures e.moods[j] == Some(v)
    {
      assert ms[j] in ms;
    }
    ConstantRow(e, v);
  }

  /** A day whose periods all have the same average v, in whichever years,
      gets a row whose average, minimum and maximum are all v. */
  lemma ConstantDay(ps: seq<GroupedPeriod>, dayOf: GroupedPeriod -> MonthDay, d: MonthDay, v: real)
    requires exists k :: 0 <= k < |ps| && dayOf(ps[k]) == d
    requires forall k :: 0 <= k < |ps| && dayOf(ps[k]) == d ==> Aggregates.AverageMood(ps[k]) == Some(v)
    ensures var r := MoodsByDayOfYear(ps, dayOf);
      exists i :: 0 <= i < |r| && r[i].date == d
        && RowAverage(r[i]) == Some(v) && RowMin(r[i]) == Some(v) && RowMax(r[i]) == Some(v)
  {
    var r := MoodsByDayOfYear(ps, dayOf);
    var k :| 0 <= k < |ps| && dayOf(ps[k]) == d;
    var i :| 0 <= i < |r| && Dates(r)[i] == d;
    var e := r[i];
    var xs := Aggregates.Averages(Seqs.Members(ps, dayOf, d));
    assert e.moods == xs && |xs| > 0;
    ConstantMembers(ps, dayOf, d, v, e);
  }
}
