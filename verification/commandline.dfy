/** The command-line converter's `BackupConverter` wrappers. It groups and
    converts entries exactly as the web library does; its collections carry no
    date format, and its weeks are keyed by ISO week rather than by the date of
    the week's first day. */
module CommandLine {

  import opened Results
  import opened Calendar
  import Seqs
  import Converter
  import opened Grouping
  import opened IsoWeek

  /** `GroupedEntries`: the kind of period and the periods. */
  datatype GroupedEntries = GroupedEntries(kind: string, entries: seq<GroupedPeriod>)

  /** `getDayEntries` and `getMonthEntries` give the web library's periods. */
  function DayEntries(src: Converter.Datasource, local: int -> Date): (r: Result<GroupedEntries>)
    ensures r.Success? <==> Grouping.DayEntries(src, local).Success?
    ensures r.Success? ==> r.value.kind == "day" && r.value.entries == Grouping.DayEntries(src, local).value.periods
  {
    var es :- Converter.GetEntries(src);
    Success(GroupedEntries("day", GroupedBy(es, DayGrouper(local), DayLength)))
  }

  function MonthEntries(src: Converter.Datasource, local: int -> Date): (r: Result<GroupedEntries>)
    ensures r.Success? <==> Grouping.MonthEntries(src, local).Success?
    ensures r.Success? ==> r.value.kind == "month" && r.value.entries == Grouping.MonthEntries(src, local).value.periods
  {
    var es :- Converter.GetEntries(src);
    Success(GroupedEntries("month", GroupedBy(es, MonthGrouper(local), MonthLength)))
  }

  /** The week key as the command line writes it ("yyyy-II") and as intended
      ("RRRR-II"). */
  function WeekGrouperAsWritten(local: int -> Date): Converter.Entry -> string {
    (e: Converter.Entry) => WeekKeyAsWritten(local(e.date))
  }

  function IsoWeekGrouper(local: int -> Date): Converter.Entry -> string {
    (e: Converter.Entry) => IsoWeekKey(local(e.date))
  }

  /** `getWeekEntries` as written: every period is seven days long, but the
      calendar-year key merges the ISO week that opens a year with the one that
      closes it. */
  function WeekEntriesAsWritten(src: Converter.Datasource, local: int -> Date): (r: Result<GroupedEntries>)
    ensures r.Success? <==> Converter.GetEntries(src).Success?
    ensures r.Success? ==> r.value.kind == "week"
    ensures r.Success? ==> r.value.entries == GroupedBy(Converter.GetEntries(src).value, WeekGrouperAsWritten(local), WeekLength)
  {
    var es :- Converter.GetEntries(src);
    Success(GroupedEntries("week", GroupedBy(es, WeekGrouperAsWritten(local), WeekLength)))
  }

  /** `getWeekEntries` with the intended ISO week-numbering year in the key. */
  function WeekEntries(src: Converter.Datasource, local: int -> Date): (r: Result<GroupedEntries>)
    ensures r.Success? <==> Converter.GetEntries(src).Success?
    ensures r.Success? ==> r.value.kind == "week"
    ensures r.Success? ==> r.value.entries == GroupedBy(Converter.GetEntries(src).value, IsoWeekGrouper(local), WeekLength)
  {
    var es :- Converter.GetEntries(src);
    Success(GroupedEntries("week", GroupedBy(es, IsoWeekGrouper(local), WeekLength)))
  }

  /** With the intended key, each week period is seven days long and holds
      exactly the entries of one ISO week: two entries share a period if and
      only if their dates share a Monday. */
  lemma IsoWeekPeriods(es: seq<Converter.Entry>, local: int -> Date)
    ensures var ps := GroupedBy(es, IsoWeekGrouper(local), WeekLength);
      forall i :: 0 <= i < |ps| ==> ps[i].lengthDays == Some(7)
    ensures forall e, e' :: e in es && e' in es ==>
      ((IsoWeekGrouper(local)(e) == IsoWeekGrouper(local)(e'))
       <==> (Monday(DayNumber(local(e.date))) == Monday(DayNumber(local(e'.date)))))
  {
    forall e, e' | e in es && e' in es
      ensures (IsoWeekGrouper(local)(e) == IsoWeekGrouper(local)(e'))
          <==> (Monday(DayNumber(local(e.date))) == Monday(DayNumber(local(e'.date))))
    {
      IsoWeekKeyIdentifies(local(e.date), local(e'.date));
    }
  }

  /** As written, two entries dated 2024-01-01 and 2024-12-30 land in a single
      week period; with the intended key they form two. */
  lemma AsWrittenMergesWeeks(e1: Converter.Entry, e2: Converter.Entry, local: int -> Date)
    requires local(e1.date) == FirstMonday2024 && local(e2.date) == LastMonday2024
    ensures |GroupedBy([e1, e2], WeekGrouperAsWritten(local), WeekLength)| == 1
    ensures |GroupedBy([e1, e2], IsoWeekGrouper(local), WeekLength)| == 2
  {
    WeekKeyCollision();
    PairPeriods(e1, e2, WeekGrouperAsWritten(local));
    PairPeriods(e1, e2, IsoWeekGrouper(local));
  }

  /** Two entries form one period when their keys agree, two otherwise. */
  lemma PairPeriods(e1: Converter.Entry, e2: Converter.Entry, grouper: Converter.Entry -> string)
    ensures |GroupedBy([e1, e2], grouper, WeekLength)| == (if grouper(e1) == grouper(e2) then 1 else 2)
  {
    var ks := KeysOf([e1, e2], grouper);
    assert ks == [grouper(e1), grouper(e2)];
    DistinctPair(ks);
  }

  lemma DistinctPair(ks: seq<string>)
    requires |ks| == 2
    ensures |Seqs.Distinct(ks)| == (if ks[0] == ks[1] then 1 else 2)
  {
    assert ks[..1] == [ks[0]];
    assert ks[..0] == [];
  }
}
