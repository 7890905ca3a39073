/** Period grouping (`getEntriesGroupedBy` and its day, week and month
    wrappers). Entries are bucketed by a key function; each distinct key, in the
    order it is first produced, becomes one period holding its members' tags
    (flattened, in order), one mood per member, and the calendar length the key
    names. */
module Grouping {

  import opened Results
  import opened Calendar
  import Seqs
  import Converter

  /** `TimePeriodGroupedEntry` (web library) / `GroupedEntry` (command line).
      `lengthDays` is None where the length calculator yields NaN. */
  datatype GroupedPeriod = GroupedPeriod(
    key: string,
    lengthDays: Option<nat>,
    tagEntries: seq<Converter.TagRef>,
    moodEntries: seq<Converter.Mood>)

  /** `TimePeriodGroupedEntries` / `GroupedEntries`: the kind of period, the
      periods, and the format their keys were written in. */
  datatype PeriodCollection = PeriodCollection(kind: string, periods: seq<GroupedPeriod>, dateFormat: string)

  /** `entries.flatMap((entry) => entry.tags)`. */
  function FlattenTags(es: seq<Converter.Entry>): (r: seq<Converter.TagRef>)
    ensures forall t :: t in r <==> exists i :: 0 <= i < |es| && t in es[i].tags
  {
    if |es| == 0 then []
    else
      var n := |es| - 1;
      assert forall i :: 0 <= i < n ==> es[..n][i] == es[i];
      FlattenTags(es[..n]) + es[n].tags
  }

  /** Flattening keeps order and repeats: the tags of a concatenation are the
      tags of its parts, one after the other. */
  lemma {:induction false} FlattenTagsAppend(a: seq<Converter.Entry>, b: seq<Converter.Entry>)
    ensures FlattenTags(a + b) == FlattenTags(a) + FlattenTags(b)
    decreases |b|
  {
    if |b| == 0 {
      assert a + b == a;
    } else {
      var n := |b| - 1;
      assert (a + b)[..|a| + n] == a + b[..n];
      FlattenTagsAppend(a, b[..n]);
    }
  }

  /** A single entry contributes exactly its own tags, in its own order. */
  lemma FlattenTagsOne(e: Converter.Entry)
    ensures FlattenTags([e]) == e.tags
  {
    assert [e][..0] == [];
  }

  /** `entries.map((entry) => entry.mood)`. */
  function Moods(es: seq<Converter.Entry>): (r: seq<Converter.Mood>)
    ensures |r| == |es|
    ensures forall i :: 0 <= i < |es| ==> r[i] == es[i].mood
  {
    Seqs.Map(es, (e: Converter.Entry) => e.mood)
  }

  function ToPeriod(key: string, members: seq<Converter.Entry>, lengthOf: string -> Option<nat>): GroupedPeriod {
    GroupedPeriod(key, lengthOf(key), FlattenTags(members), Moods(members))
  }

  /** Number of entries held by a list of periods: one mood per member. */
  function MemberCount(ps: seq<GroupedPeriod>): nat {
    if |ps| == 0 then 0 else MemberCount(ps[..|ps| - 1]) + |ps[|ps| - 1].moodEntries|
  }

  /** One period per bucket, in bucket order. */
  function PeriodsOf(bs: seq<(string, seq<Converter.Entry>)>, lengthOf: string -> Option<nat>): (r: seq<GroupedPeriod>)
    ensures |r| == |bs|
    ensures forall i :: 0 <= i < |bs| ==> r[i] == ToPeriod(bs[i].0, bs[i].1, lengthOf)
    ensures MemberCount(r) == Seqs.SumLengths(bs)
  {
    if |bs| == 0 then []
    else
      var n := |bs| - 1;
      var r := PeriodsOf(bs[..n], lengthOf) + [ToPeriod(bs[n].0, bs[n].1, lengthOf)];
      assert r[..n] == PeriodsOf(bs[..n], lengthOf);
      r
  }

  /** The keys of the entries, in entry order. */
  function KeysOf(entries: seq<Converter.Entry>, grouper: Converter.Entry -> string): seq<string> {
    Seqs.Map(entries, grouper)
  }

  /** `getEntriesGroupedBy`: one period per distinct key, in first-occurrence
      order; each period holds exactly the entries with its key, in entry
      order (their tags concatenated, one mood each), has at least one member,
      and carries the length its key names; together the periods hold every
      entry once. */
  function GroupedBy(
    entries: seq<Converter.Entry>,
    grouper: Converter.Entry -> string,
    lengthOf: string -> Option<nat>): (r: seq<GroupedPeriod>)
    ensures |r| == |Seqs.Distinct(KeysOf(entries, grouper))|
    ensures forall i :: 0 <= i < |r| ==> r[i].key == Seqs.Distinct(KeysOf(entries, grouper))[i]
    ensures forall i :: 0 <= i < |r| ==> r[i].lengthDays == lengthOf(r[i].key)
    ensures forall i :: 0 <= i < |r| ==>
      r[i].moodEntries == Moods(Seqs.Members(entries, grouper, r[i].key))
    ensures forall i :: 0 <= i < |r| ==>
      r[i].tagEntries == FlattenTags(Seqs.Members(entries, grouper, r[i].key))
    ensures forall i :: 0 <= i < |r| ==> |r[i].moodEntries| > 0
    ensures MemberCount(r) == |entries|
  {
    var bs := Seqs.Bucket(entries, grouper);
    forall i | 0 <= i < |bs|
      ensures |bs[i].1| > 0
      ensures bs[i].0 == Seqs.Distinct(KeysOf(entries, grouper))[i]
    {
      Seqs.BucketNonEmpty(entries, grouper, i);
      assert Seqs.Keys(bs)[i] == bs[i].0;
    }
    PeriodsOf(bs, lengthOf)
  }

  /** Group keys are pairwise distinct and appear in the order their first
      entry appears. */
  lemma GroupKeysFirstSeen(
    entries: seq<Converter.Entry>,
    grouper: Converter.Entry -> string,
    lengthOf: string -> Option<nat>)
    ensures var r := GroupedBy(entries, grouper, lengthOf);
      forall i, j :: 0 <= i < j < |r| ==>
        && r[i].key != r[j].key
        && Seqs.IndexOf(KeysOf(entries, grouper), r[i].key)
           < Seqs.IndexOf(KeysOf(entries, grouper), r[j].key)
  {
    Seqs.DistinctFirstSeenOrder(KeysOf(entries, grouper));
  }

  /** Every entry falls in exactly one period: the one with its key. */
  lemma GroupsPartition(
    entries: seq<Converter.Entry>,
    grouper: Converter.Entry -> string,
    lengthOf: string -> Option<nat>,
    k: nat)
    requires k < |entries|
    ensures var r := GroupedBy(entries, grouper, lengthOf);
      && (exists i :: 0 <= i < |r| && r[i].key == grouper(entries[k]))
      && entries[k] in Seqs.Members(entries, grouper, grouper(entries[k]))
      && forall i :: 0 <= i < |r| && entries[k] in Seqs.Members(entries, grouper, r[i].key) ==>
           r[i].key == grouper(entries[k])
  {
    var r := GroupedBy(entries, grouper, lengthOf);
    var keys := Seqs.Distinct(KeysOf(entries, grouper));
    assert KeysOf(entries, grouper)[k] == grouper(entries[k]);
    var i := Seqs.IndexOf(keys, grouper(entries[k]));
    assert r[i].key == grouper(entries[k]);
    Seqs.MembersComplete(entries, grouper, grouper(entries[k]), k);
  }

  /** The key functions of the three wrappers, over the local calendar date of
      an entry's timestamp. */
  function DayGrouper(local: int -> Date): Converter.Entry -> string {
    (e: Converter.Entry) => DayKey(local(e.date))
  }

  function WeekGrouper(local: int -> Date, weekStart: Date -> Date): Converter.Entry -> string {
    (e: Converter.Entry) => DayKey(weekStart(local(e.date)))
  }

  function MonthGrouper(local: int -> Date): Converter.Entry -> string {
    (e: Converter.Entry) => MonthKey(local(e.date))
  }

  /** The length calculators of the three wrappers. */
  function DayLength(key: string): Option<nat> {
    Some(1)
  }

  function WeekLength(key: string): Option<nat> {
    Some(7)
  }

  /** `getDayEntries`: periods keyed "yyyy-MM-dd", each one day long. */
  function DayEntries(src: Converter.Datasource, local: int -> Date): (r: Result<PeriodCollection>)
    ensures r.Success? <==> Converter.GetEntries(src).Success?
    ensures r.Success? ==> r.value.kind == "day" && r.value.dateFormat == "yyyy-MM-dd"
    ensures r.Success? ==> r.value.periods == GroupedBy(Converter.GetEntries(src).value, DayGrouper(local), DayLength)
  {
    var es :- Converter.GetEntries(src);
    Success(PeriodCollection("day", GroupedBy(es, DayGrouper(local), DayLength), "yyyy-MM-dd"))
  }

  /** `getWeekEntries` (web library): periods keyed by the "yyyy-MM-dd" of the
      week's first day, each seven days long. Where a week starts is date-fns'
      `startOfWeek`, passed in as `weekStart`. */
  function WeekEntries(src: Converter.Datasource, local: int -> Date, weekStart: Date -> Date): (r: Result<PeriodCollection>)
    ensures r.Success? <==> Converter.GetEntries(src).Success?
    ensures r.Success? ==> r.value.kind == "week" && r.value.dateFormat == "yyyy-MM-dd"
    ensures r.Success? ==>
      r.value.periods == GroupedBy(Converter.GetEntries(src).value, WeekGrouper(local, weekStart), WeekLength)
  {
    var es :- Converter.GetEntries(src);
    Success(PeriodCollection("week", GroupedBy(es, WeekGrouper(local, weekStart), WeekLength), "yyyy-MM-dd"))
  }

  /** `getMonthEntries`: periods keyed "yyyy-MM", each as long as its month. */
  function MonthEntries(src: Converter.Datasource, local: int -> Date): (r: Result<PeriodCollection>)
    ensures r.Success? <==> Converter.GetEntries(src).Success?
    ensures r.Success? ==> r.value.kind == "month" && r.value.dateFormat == "yyyy-MM"
    ensures r.Success? ==> r.value.periods == GroupedBy(Converter.GetEntries(src).value, MonthGrouper(local), MonthLength)
  {
    var es :- Converter.GetEntries(src);
    Success(PeriodCollection("month", GroupedBy(es, MonthGrouper(local), MonthLength), "yyyy-MM"))
  }

  /** Day periods are one day long and each holds the entries of one calendar
      date. */
  lemma DayPeriods(es: seq<Converter.Entry>, local: int -> Date)
    ensures var ps := GroupedBy(es, DayGrouper(local), DayLength);
      forall i :: 0 <= i < |ps| ==>
        && ps[i].lengthDays == Some(1)
        && forall e, e' ::
             e in Seqs.Members(es, DayGrouper(local), ps[i].key)
             && e' in Seqs.Members(es, DayGrouper(local), ps[i].key) ==>
               local(e.date) == local(e'.date)
  {
    var ps := GroupedBy(es, DayGrouper(local), DayLength);
    forall i, e, e' |
      0 <= i < |ps|
      && e in Seqs.Members(es, DayGrouper(local), ps[i].key)
      && e' in Seqs.Members(es, DayGrouper(local), ps[i].key)
      ensures local(e.date) == local(e'.date)
    {
      assert DayGrouper(local)(e) == DayKey(local(e.date));
      assert DayGrouper(local)(e') == DayKey(local(e'.date));
      DayKeyInjective(local(e.date), local(e'.date));
    }
  }

  /** Week periods are seven days long and each holds entries whose dates share
      one week start. */
  lemma WeekPeriods(es: seq<Converter.Entry>, local: int -> Date, weekStart: Date -> Date)
    ensures var ps := GroupedBy(es, WeekGrouper(local, weekStart), WeekLength);
      forall i :: 0 <= i < |ps| ==>
        && ps[i].lengthDays == Some(7)
        && forall e, e' ::
             e in Seqs.Members(es, WeekGrouper(local, weekStart), ps[i].key)
             && e' in Seqs.Members(es, WeekGrouper(local, weekStart), ps[i].key) ==>
               weekStart(local(e.date)) == weekStart(local(e'.date))
  {
    var ps := GroupedBy(es, WeekGrouper(local, weekStart), WeekLength);
    forall i, e, e' |
      0 <= i < |ps|
      && e in Seqs.Members(es, WeekGrouper(local, weekStart), ps[i].key)
      && e' in Seqs.Members(es, WeekGrouper(local, weekStart), ps[i].key)
      ensures weekStart(local(e.date)) == weekStart(local(e'.date))
    {
      assert WeekGrouper(local, weekStart)(e) == DayKey(weekStart(local(e.date)));
      assert WeekGrouper(local, weekStart)(e') == DayKey(weekStart(local(e'.date)));
      DayKeyInjective(weekStart(local(e.date)), weekStart(local(e'.date)));
    }
  }

  /** Month periods hold the entries of one calendar month and are as long as
      that month is in the Gregorian calendar (29 days for 2024-02, 28 for
      2023-02). */
  lemma MonthPeriods(es: seq<Converter.Entry>, local: int -> Date)
    ensures var ps := GroupedBy(es, MonthGrouper(local), MonthLength);
      forall i, e :: 0 <= i < |ps| && e in Seqs.Members(es, MonthGrouper(local), ps[i].key) ==>
        && ps[i].lengthDays == Some(DaysInMonth(local(e.date).year, local(e.date).month))
        && forall e' :: e' in Seqs.Members(es, MonthGrouper(local), ps[i].key) ==>
             local(e.date).year == local(e'.date).year && local(e.date).month == local(e'.date).month
  {
    var ps := GroupedBy(es, MonthGrouper(local), MonthLength);
    forall i, e | 0 <= i < |ps| && e in Seqs.Members(es, MonthGrouper(local), ps[i].key) {
      MonthMember(es, local, ps[i], e);
    }
  }

  /** The facts of one member of one month period. */
  lemma MonthMember(es: seq<Converter.Entry>, local: int -> Date, p: GroupedPeriod, e: Converter.Entry)
    requires p.lengthDays == MonthLength(p.key)
    requires e in Seqs.Members(es, MonthGrouper(local), p.key)
    ensures p.lengthDays == Some(DaysInMonth(local(e.date).year, local(e.date).month))
    ensures forall e' :: e' in Seqs.Members(es, MonthGrouper(local), p.key) ==>
             local(e.date).year == local(e'.date).year && local(e.date).month == local(e'.date).month
  {
    assert MonthGrouper(local)(e) == MonthKey(local(e.date));
    MonthLengthOfKey(local(e.date));
    forall e' | e' in Seqs.Members(es, MonthGrouper(local), p.key)
      ensures local(e.date).year == local(e'.date).year && local(e.date).month == local(e'.date).month
    {
      assert MonthGrouper(local)(e') == MonthKey(local(e'.date));
      SameMonthKey(local(e.date), local(e'.date));
    }
  }

  /** Two dates share a month key exactly when they share year and month. */
  lemma SameMonthKey(d: Date, d': Date)
    requires MonthKey(d) == MonthKey(d')
    ensures d.year == d'.year && d.month == d'.month
  {
    YearKeyRoundTrip(d.year, d.month);
    YearKeyRoundTrip(d'.year, d'.month);
  }
}
