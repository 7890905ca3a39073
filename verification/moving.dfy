/** `movingAverage`: a window of a fixed number of periods slid along the
    period sequence. The filter only chooses the centre positions; the window
    contents are always read from the unfiltered periods at the same indices,
    and centres too close to either end are dropped. */
module Moving {

  import opened Results
  import Seqs
  import opened Grouping
  import Aggregates

  /** `MovingAverageEntry`: the centre's key, the window size, the window's
      sum of average moods (NaN, here None, as soon as one is NaN) and the key
      format. */
  datatype MovingAverageEntry = MovingAverageEntry(date: string, count: nat, sum: Option<real>, format: string)

  /** `average`: sum / count; NaN for an empty window or a NaN sum. */
  function Average(e: MovingAverageEntry): (r: Option<real>)
    ensures r.Some? <==> e.count > 0 && e.sum.Some?
    ensures r.Some? ==> r.value * (e.count as real) == e.sum.value
  {
    if e.count == 0 || e.sum.None? then None else Some(e.sum.value / (e.count as real))
  }

  /** The number of windows: one per filtered position at least half a window
      from each end. */
  function WindowCount(filtered: nat, w: nat): nat {
    if filtered > w then filtered - w else 0
  }

  /** Window k: centred on filtered position k + floor(w/2), summing the
      average moods of the unfiltered periods k .. k + w - 1. */
  predicate IsWindow(ps: seq<GroupedPeriod>, filtered: seq<GroupedPeriod>, w: nat, format: string, k: nat, e: MovingAverageEntry) {
    && k + w <= |ps|
    && k + w / 2 < |filtered|
    && e.date == filtered[k + w / 2].key
    && e.count == w
    && e.sum == Seqs.SumOpt(Aggregates.Averages(ps[k..k + w]))
    && e.format == format
  }

  /** A window's average is the mean of the average moods it covers. */
  lemma WindowAverage(ps: seq<GroupedPeriod>, filtered: seq<GroupedPeriod>, w: nat, format: string, k: nat, e: MovingAverageEntry)
    requires IsWindow(ps, filtered, w, format, k, e)
    ensures Average(e) == Aggregates.Mean(Aggregates.Averages(ps[k..k + w]))
  {
    assert |Aggregates.Averages(ps[k..k + w])| == w;
  }

  /** `movingAverage` with window size w over the periods kept by `keep`,
      writing each centre's key in the collection's format. */
  method MovingAverage(ps: seq<GroupedPeriod>, w: nat, keep: GroupedPeriod -> bool, format: string)
    returns (windows: seq<MovingAverageEntry>)
    ensures |windows| == WindowCount(|Seqs.Filter(ps, keep)|, w)
    ensures forall k :: 0 <= k < |windows| ==> IsWindow(ps, Seqs.Filter(ps, keep), w, format, k, windows[k])
    ensures forall k :: 0 <= k < |windows| ==>
      Average(windows[k]) == Aggregates.Mean(Aggregates.Averages(ps[k..k + w]))
    ensures w == 1 && (forall p :: keep(p)) ==>
      && |windows| == (if |ps| > 1 then |ps| - 1 else 0)
      && forall k :: 0 <= k < |windows| ==>
           windows[k].date == ps[k].key && Average(windows[k]) == Aggregates.AverageMood(ps[k])
  {
    windows := SlideWindows(ps, Seqs.Filter(ps, keep), w, format);
    forall k | 0 <= k < |windows|
      ensures Average(windows[k]) == Aggregates.Mean(Aggregates.Averages(ps[k..k + w]))
    {
      WindowAverage(ps, Seqs.Filter(ps, keep), w, format, k, windows[k]);
    }
    if w == 1 && (forall p :: keep(p)) {
      WindowsOfOne(ps, keep, format, windows);
    }
  }

  /** The outer loop: one window per centre position from floor(w/2) up to,
      not including, |filtered| - ceil(w/2). */
  method SlideWindows(ps: seq<GroupedPeriod>, filtered: seq<GroupedPeriod>, w: nat, format: string)
    returns (windows: seq<MovingAverageEntry>)
    requires |filtered| <= |ps|
    ensures |windows| == WindowCount(|filtered|, w)
    ensures forall k :: 0 <= k < |windows| ==> IsWindow(ps, filtered, w, format, k, windows[k])
  {
    var n := |filtered|;
    var before := w / 2;
    var after := w - before;
    windows := [];
    var i := before;
    while i < n - after
      invariant before <= i
      invariant i - before == |windows|
      invariant i == before || i <= n - after
      invariant forall k :: 0 <= k < |windows| ==> IsWindow(ps, filtered, w, format, k, windows[k])
    {
      var sum := WindowSum(ps, i - before, i + after);
      windows := windows + [MovingAverageEntry(filtered[i].key, w, sum, format)];
      i := i + 1;
    }
  }

  /** With a window of one period and no filtering, every period but the last
      is a centre, and each window's average is that period's own average. */
  lemma WindowsOfOne(ps: seq<GroupedPeriod>, keep: GroupedPeriod -> bool, format: string, windows: seq<MovingAverageEntry>)
    requires forall p :: keep(p)
    requires |windows| == WindowCount(|Seqs.Filter(ps, keep)|, 1)
    requires forall k :: 0 <= k < |windows| ==> IsWindow(ps, Seqs.Filter(ps, keep), 1, format, k, windows[k])
    ensures |windows| == (if |ps| > 1 then |ps| - 1 else 0)
    ensures forall k :: 0 <= k < |windows| ==>
      windows[k].date == ps[k].key && Average(windows[k]) == Aggregates.AverageMood(ps[k])
  {
    Seqs.FilterAll(ps, keep);
    forall k | 0 <= k < |windows| {
      WindowOfOne(ps, format, k, windows[k]);
    }
  }

  /** A one-period window over unfiltered periods is its centre period. */
  lemma WindowOfOne(ps: seq<GroupedPeriod>, format: string, k: nat, e: MovingAverageEntry)
    requires IsWindow(ps, ps, 1, format, k, e)
    ensures e.date == ps[k].key && Average(e) == Aggregates.AverageMood(ps[k])
  {
    WindowAverage(ps, ps, 1, format, k, e);
    assert Aggregates.Averages(ps[k..k + 1]) == [Aggregates.AverageMood(ps[k])];
    MeanOfSingle(Aggregates.AverageMood(ps[k]));
  }

  /** The mean of one average is that average. */
  lemma MeanOfSingle(x: Option<real>)
    ensures Aggregates.Mean([x]) == x
  {
    assert Seqs.SumOpt([x]) == x by {
      assert [x][..0] == [];
    }
    if x.Some? {
      assert x.value / 1.0 == x.value;
    }
  }

  /** The inner loop: the left-to-right sum of the average moods of
      ps[lo..hi]. */
  method WindowSum(ps: seq<GroupedPeriod>, lo: nat, hi: nat) returns (sum: Option<real>)
    requires lo <= hi <= |ps|
    ensures sum == Seqs.SumOpt(Aggregates.Averages(ps[lo..hi]))
  {
    ghost var xs := Aggregates.Averages(ps[lo..hi]);
    sum := Some(0.0);
    var j := lo;
    while j < hi
      invariant lo <= j <= hi
      invariant sum == Seqs.SumOpt(xs[..j - lo])
    {
      var a := Aggregates.AverageMood(ps[j]);
      assert a == xs[j - lo];
      SumOptStep(xs, j - lo);
      sum := if sum.Some? && a.Some? then Some(sum.value + a.value) else None;
      j := j + 1;
    }
    assert xs[..hi - lo] == xs;
  }

  /** One more element of a prefix sum. */
  lemma SumOptStep(xs: seq<Option<real>>, k: nat)
    requires k < |xs|
    ensures var s := Seqs.SumOpt(xs[..k]);
      Seqs.SumOpt(xs[..k + 1]) == if s.Some? && xs[k].Some? then Some(s.value + xs[k].value) else None
  {
    assert xs[..k + 1][..k] == xs[..k];
  }
}
