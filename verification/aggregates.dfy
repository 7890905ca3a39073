/** Per-period aggregates (`averageMood`, `countOfTags`, `countOfGroups`) and
    the collection's distinct tag and group names (`uniqueTags`,
    `uniqueGroups`). */
module Aggregates {

  import opened Results
  import Seqs
  import Converter
  import opened Grouping

  /** The mood values of a period. The source reads `mood.value ?? 2.5`; the
      converters always define `value`, so the substitution never applies. */
  function MoodValues(p: GroupedPeriod): (vs: seq<real>)
    ensures |vs| == |p.moodEntries|
    ensures forall i :: 0 <= i < |vs| ==> vs[i] == p.moodEntries[i].value
  {
    Seqs.Map(p.moodEntries, (m: Converter.Mood) => m.value)
  }

  /** `averageMood`: the mean of the period's mood values, NaN (None) for a
      period without moods. */
  function AverageMood(p: GroupedPeriod): (r: Option<real>)
    ensures r.None? <==> |p.moodEntries| == 0
    ensures r.Some? ==> r.value * (|p.moodEntries| as real) == Seqs.SumReal(MoodValues(p))
  {
    if |p.moodEntries| == 0 then None
    else Some(Seqs.SumReal(MoodValues(p)) / (|p.moodEntries| as real))
  }

  lemma {:induction false} SumRealBounds(xs: seq<real>, lo: real, hi: real)
    requires forall i :: 0 <= i < |xs| ==> lo <= xs[i] <= hi
    ensures (|xs| as real) * lo <= Seqs.SumReal(xs) <= (|xs| as real) * hi
  {
    if |xs| > 0 {
      var n := |xs| - 1;
      SumRealBounds(xs[..n], lo, hi);
    }
  }

  lemma Cancel(x: real, y: real, n: real)
    requires n > 0.0 && x * n <= y * n
    ensures x <= y
  {
    if x > y {
      assert false;
    }
  }

  /** The mean lies between any bounds of the values it averages; with the
      converters' scale (mood group ids 1..5) it lies in 1..5. */
  lemma AverageMoodBounds(p: GroupedPeriod, lo: real, hi: real)
    requires forall i :: 0 <= i < |p.moodEntries| ==> lo <= p.moodEntries[i].value <= hi
    requires |p.moodEntries| > 0
    ensures lo <= AverageMood(p).value <= hi
  {
    var n := |p.moodEntries| as real;
    var s := Seqs.SumReal(MoodValues(p));
    SumRealBounds(MoodValues(p), lo, hi);
    var a := AverageMood(p).value;
    assert |MoodValues(p)| as real == n;
    assert n * lo <= s <= n * hi;
    assert a * n == s;
    calc {
      lo * n;
    ==
      n * lo;
    <=
      s;
    ==
      a * n;
    }
    calc {
      a * n;
    ==
      s;
    <=
      n * hi;
    ==
      hi * n;
    }
    Cancel(lo, a, n);
    Cancel(a, hi, n);
  }

  /** The mean of per-period averages: NaN when there are none, or when one of
      them is NaN. */
  function Mean(xs: seq<Option<real>>): (r: Option<real>)
    ensures r.Some? <==> |xs| > 0 && forall i :: 0 <= i < |xs| ==> xs[i].Some?
    ensures r.Some? ==> r.value * (|xs| as real) == Seqs.SumOpt(xs).value
  {
    if |xs| == 0 then None
    else
      match Seqs.SumOpt(xs)
      case None => None
      case Some(s) => Some(s / (|xs| as real))
  }

  function Averages(ps: seq<GroupedPeriod>): (r: seq<Option<real>>)
    ensures |r| == |ps|
    ensures forall i :: 0 <= i < |ps| ==> r[i] == AverageMood(ps[i])
  {
    Seqs.Map(ps, AverageMood)
  }

  /** Every period the grouping builds has a defined average. */
  lemma GroupedAverageDefined(
    entries: seq<Converter.Entry>,
    grouper: Converter.Entry -> string,
    lengthOf: string -> Option<nat>,
    i: nat)
    requires i < |GroupedBy(entries, grouper, lengthOf)|
    ensures AverageMood(GroupedBy(entries, grouper, lengthOf)[i]).Some?
  {
  }

  datatype TagCount = TagCount(tag: Converter.TagRef, count: nat)

  datatype GroupCount = GroupCount(group: string, count: nat)

  function SumTagCounts(cs: seq<TagCount>): nat {
    if |cs| == 0 then 0 else SumTagCounts(cs[..|cs| - 1]) + cs[|cs| - 1].count
  }

  function SumGroupCounts(cs: seq<GroupCount>): nat {
    if |cs| == 0 then 0 else SumGroupCounts(cs[..|cs| - 1]) + cs[|cs| - 1].count
  }

  function TagKey(t: Converter.TagRef): Converter.TagRef {
    t
  }

  function ToTagCount(b: (Converter.TagRef, seq<Converter.TagRef>)): TagCount {
    TagCount(b.0, |b.1|)
  }

  lemma {:induction false} SumTagCountsOfBuckets(bs: seq<(Converter.TagRef, seq<Converter.TagRef>)>)
    ensures SumTagCounts(Seqs.Map(bs, ToTagCount)) == Seqs.SumLengths(bs)
  {
    if |bs| > 0 {
      var n := |bs| - 1;
      assert Seqs.Map(bs, ToTagCount)[..n] == Seqs.Map(bs[..n], ToTagCount);
      SumTagCountsOfBuckets(bs[..n]);
    }
  }

  /** `countOfTags`: one row per distinct tag object (so per tag id, with one
      row for undefined) in first-seen order, each counting that tag's
      occurrences, at least one; the counts add up to the number of tag
      entries. */
  function CountOfTags(p: GroupedPeriod): (r: seq<TagCount>)
    ensures |r| == |Seqs.Distinct(p.tagEntries)|
    ensures forall i :: 0 <= i < |r| ==> r[i].tag == Seqs.Distinct(p.tagEntries)[i]
    ensures forall i :: 0 <= i < |r| ==> r[i].count == multiset(p.tagEntries)[r[i].tag] >= 1
    ensures SumTagCounts(r) == |p.tagEntries|
  {
    var bs := Seqs.Bucket(p.tagEntries, TagKey);
    assert Seqs.Map(p.tagEntries, TagKey) == p.tagEntries;
    SumTagCountsOfBuckets(bs);
    forall i | 0 <= i < |bs|
      ensures bs[i].0 == Seqs.Distinct(p.tagEntries)[i]
      ensures |bs[i].1| == multiset(p.tagEntries)[bs[i].0] >= 1
    {
      assert Seqs.Keys(bs)[i] == bs[i].0;
      Seqs.MembersCount(p.tagEntries, TagKey, bs[i].0);
      assert bs[i].0 in p.tagEntries;
    }
    Seqs.Map(bs, ToTagCount)
  }

  /** Reading a field of a tag: throws on an undefined tag. */
  function Resolve(t: Converter.TagRef): (r: Result<Converter.Tag>)
    ensures r.Success? <==> t.Defined?
    ensures r.Failure? ==> r.error == UndefinedTag
    ensures r.Success? ==> r.value == t.tag
  {
    match t
    case Defined(_, tag) => Success(tag)
    case Undefined => Failure(UndefinedTag)
  }

  function GroupKey(t: Converter.Tag): string {
    t.groupName
  }

  function ToGroupCount(b: (string, seq<Converter.Tag>)): GroupCount {
    GroupCount(b.0, |b.1|)
  }

  lemma {:induction false} SumGroupCountsOfBuckets(bs: seq<(string, seq<Converter.Tag>)>)
    ensures SumGroupCounts(Seqs.Map(bs, ToGroupCount)) == Seqs.SumLengths(bs)
  {
    if |bs| > 0 {
      var n := |bs| - 1;
      assert Seqs.Map(bs, ToGroupCount)[..n] == Seqs.Map(bs[..n], ToGroupCount);
      SumGroupCountsOfBuckets(bs[..n]);
    }
  }

  /** The tags of a list of tag references, or the error of the first undefined one. */
  function ResolveAll(ts: seq<Converter.TagRef>): (r: Result<seq<Converter.Tag>>)
    ensures r.Success? <==> Converter.Undefined !in ts
    ensures r.Failure? ==> r.error == UndefinedTag
    ensures r.Success? ==> |r.value| == |ts| && forall i :: 0 <= i < |ts| ==> r.value[i] == ts[i].tag
  {
    var res := Seqs.Traverse(ts, Resolve);
    Seqs.TraverseSuccess(ts, Resolve);
    if res.Failure? then
      Seqs.TraverseFailure(ts, Resolve);
      res
    else
      res
  }

  /** `countOfGroups`: one row per distinct group name in first-seen order,
      each counting the tag entries of that group, at least one; the counts add
      up to the number of tag entries. An undefined tag entry throws. */
  function CountOfGroups(p: GroupedPeriod): (r: Result<seq<GroupCount>>)
    ensures r.Success? <==> Converter.Undefined !in p.tagEntries
    ensures r.Failure? ==> r.error == UndefinedTag
    ensures r.Success? ==>
      var names := Seqs.Map(ResolveAll(p.tagEntries).value, GroupKey);
      && |r.value| == |Seqs.Distinct(names)|
      && (forall i :: 0 <= i < |r.value| ==> r.value[i].group == Seqs.Distinct(names)[i])
      && (forall i :: 0 <= i < |r.value| ==> r.value[i].count == multiset(names)[r.value[i].group] >= 1)
      && SumGroupCounts(r.value) == |p.tagEntries|
  {
    var tags :- ResolveAll(p.tagEntries);
    var names := Seqs.Map(tags, GroupKey);
    var bs := Seqs.Bucket(tags, GroupKey);
    SumGroupCountsOfBuckets(bs);
    forall i | 0 <= i < |bs|
      ensures bs[i].0 == Seqs.Distinct(names)[i]
      ensures |bs[i].1| == multiset(names)[bs[i].0] >= 1
    {
      assert Seqs.Keys(bs)[i] == bs[i].0;
      Seqs.MembersCount(tags, GroupKey, bs[i].0);
      assert bs[i].0 in names;
    }
    Success(Seqs.Map(bs, ToGroupCount))
  }

  /** The tag entries of all periods, period by period. */
  function AllTags(ps: seq<GroupedPeriod>): (r: seq<Converter.TagRef>)
    ensures forall t :: t in r <==> exists i :: 0 <= i < |ps| && t in ps[i].tagEntries
  {
    if |ps| == 0 then []
    else
      var n := |ps| - 1;
      assert forall i :: 0 <= i < n ==> ps[..n][i] == ps[i];
      AllTags(ps[..n]) + ps[n].tagEntries
  }

  function TagNameKey(t: Converter.Tag): string {
    t.tagName
  }

  /** A name of a resolved tag of the periods is a name of some defined tag
      entry of some period, and conversely. */
  lemma NamesOfPeriods(ps: seq<GroupedPeriod>, tags: seq<Converter.Tag>, name: Converter.Tag -> string)
    requires ResolveAll(AllTags(ps)) == Success(tags)
    ensures forall x :: x in Seqs.Map(tags, name) <==>
      exists i, t :: 0 <= i < |ps| && t in ps[i].tagEntries && t.Defined? && name(t.tag) == x
  {
  }

  /** `uniqueTags`: the tag names occurring in the periods, each once, in
      first-seen order; an undefined tag entry throws. */
  function UniqueTags(ps: seq<GroupedPeriod>): (r: Result<seq<string>>)
    ensures r.Success? <==> forall i :: 0 <= i < |ps| ==> Converter.Undefined !in ps[i].tagEntries
    ensures r.Success? ==> Seqs.NoDups(r.value)
    ensures r.Success? ==> forall name ::
      name in r.value <==>
        exists i, t :: 0 <= i < |ps| && t in ps[i].tagEntries && t.Defined? && t.tag.tagName == name
    ensures r.Success? ==> r.value == Seqs.Distinct(Seqs.Map(ResolveAll(AllTags(ps)).value, TagNameKey))
  {
    var tags :- ResolveAll(AllTags(ps));
    var names := Seqs.Map(tags, TagNameKey);
    NamesOfPeriods(ps, tags, TagNameKey);
    Success(Seqs.Distinct(names))
  }

  /** `uniqueGroups`: the group names occurring in the periods, each once, in
      first-seen order; an undefined tag entry throws. */
  function UniqueGroups(ps: seq<GroupedPeriod>): (r: Result<seq<string>>)
    ensures r.Success? <==> forall i :: 0 <= i < |ps| ==> Converter.Undefined !in ps[i].tagEntries
    ensures r.Success? ==> Seqs.NoDups(r.value)
    ensures r.Success? ==> forall name ::
      name in r.value <==>
        exists i, t :: 0 <= i < |ps| && t in ps[i].tagEntries && t.Defined? && t.tag.groupName == name
    ensures r.Success? ==> r.value == Seqs.Distinct(Seqs.Map(ResolveAll(AllTags(ps)).value, GroupKey))
  {
    var tags :- ResolveAll(AllTags(ps));
    var names := Seqs.Map(tags, GroupKey);
    NamesOfPeriods(ps, tags, GroupKey);
    Success(Seqs.Distinct(names))
  }

  /** The distinct names come in the order their first occurrence appears. */
  lemma UniqueTagsFirstSeen(ps: seq<GroupedPeriod>)
    requires UniqueTags(ps).Success?
    ensures var names := Seqs.Map(ResolveAll(AllTags(ps)).value, TagNameKey);
      var r := UniqueTags(ps).value;
      forall i, j :: 0 <= i < j < |r| ==> Seqs.IndexOf(names, r[i]) < Seqs.IndexOf(names, r[j])
  {
    Seqs.DistinctFirstSeenOrder(Seqs.Map(ResolveAll(AllTags(ps)).value, TagNameKey));
  }

  /** Group names come out in the order each first appears. */
  lemma UniqueGroupsFirstSeen(ps: seq<GroupedPeriod>)
    requires UniqueGroups(ps).Success?
    ensures var names := Seqs.Map(ResolveAll(AllTags(ps)).value, GroupKey);
      var r := UniqueGroups(ps).value;
      forall i, j :: 0 <= i < j < |r| ==> Seqs.IndexOf(names, r[i]) < Seqs.IndexOf(names, r[j])
  {
    Seqs.DistinctFirstSeenOrder(Seqs.Map(ResolveAll(AllTags(ps)).value, GroupKey));
  }
}
