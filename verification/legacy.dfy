/** `convertToEntries` of the earlier command-line script (src/main.js): the
    same normalisation as the converters, written with `find` at every lookup
    and with a mood scale of 4 - mood_group_id. */
module Legacy {

  import opened Results
  import opened Export
  import Seqs
  import Converter

  /** A mood of the earlier script; `value` is None where `4 - undefined` is NaN. */
  datatype LegacyMood = LegacyMood(name: Option<string>, value: Option<int>)

  datatype LegacyEntry = LegacyEntry(date: int, tags: seq<Converter.Tag>, mood: LegacyMood)

  predicate FirstWithId(tags: seq<ExportTag>, i: int, id: int)
    requires 0 <= i < |tags|
  {
    tags[i].id == id && forall j :: 0 <= j < i ==> tags[j].id != id
  }

  /** `toTag`: the first catalog tag with the id and the first tag group its
      group id matches. A missing tag throws on `tag.id_tag_group`, a missing
      group on `tagGroup.name`. */
  function ToTag(e: DaylioExport, id: int): (r: Result<Converter.Tag>)
    ensures (forall i :: 0 <= i < |e.tags| ==> e.tags[i].id != id) ==> r == Failure(UnknownTag(id))
    ensures forall i :: 0 <= i < |e.tags| && FirstWithId(e.tags, i, id) ==>
      && (r.Success? <==> Converter.HasGroup(e.tagGroups, e.tags[i].idTagGroup))
      && (r.Failure? ==> r.error == UnknownTagGroup(e.tags[i].idTagGroup))
      && (r.Success? ==> r.value.tagName == e.tags[i].name
                         && Some(r.value.groupName) == Converter.GroupName(e.tagGroups, e.tags[i].idTagGroup))
  {
    match Seqs.Find(e.tags, (t: ExportTag) => t.id == id)
    case None => Failure(UnknownTag(id))
    case Some(t) =>
      match Converter.GroupName(e.tagGroups, t.idTagGroup)
      case None => Failure(UnknownTagGroup(t.idTagGroup))
      case Some(g) => Success(Converter.Tag(t.name, g))
  }

  /** `toMood`: the first custom mood with the id. Its name follows the same
      rule as the converters; its value is 4 - mood_group_id, NaN when the
      group id is absent. A missing mood throws on `mood.custom_name`. */
  function ToMood(e: DaylioExport, id: int): (r: Result<LegacyMood>)
    ensures r.Failure? <==> forall i :: 0 <= i < |e.customMoods| ==> e.customMoods[i].id != id
    ensures r.Failure? ==> r.error == UnknownMood(id)
    ensures r.Success? ==>
      exists i :: 0 <= i < |e.customMoods| && e.customMoods[i].id == id
        && (forall j :: 0 <= j < i ==> e.customMoods[j].id != id)
        && r.value.name == MoodName(e.customMoods[i])
        && (r.value.value.None? <==> e.customMoods[i].moodGroupId.None?)
        && (r.value.value.Some? ==> r.value.value.value + e.customMoods[i].moodGroupId.value == 4)
  {
    match Seqs.Find(e.customMoods, (m: CustomMood) => m.id == id)
    case None => Failure(UnknownMood(id))
    case Some(m) =>
      Success(LegacyMood(
        MoodName(m),
        match m.moodGroupId
        case None => None
        case Some(g) => Some(4 - g)))
  }

  /** One day entry: all its tags in order (the first missing one throws), then
      its mood. */
  function ToEntry(e: DaylioExport, d: DayEntry): Result<LegacyEntry> {
    var tags :- Seqs.Traverse(d.tags, (t: int) => ToTag(e, t));
    var mood :- ToMood(e, d.mood);
    Success(LegacyEntry(d.datetime, tags, mood))
  }

  /** `convertToEntries`: one entry per day entry in the export's order, each
      with the day entry's date, one resolved tag per tag id in order, and its
      resolved mood; it throws exactly when some tag or mood does not resolve. */
  function ConvertToEntries(e: DaylioExport): (r: Result<seq<LegacyEntry>>)
    ensures r.Success? <==>
      forall i :: 0 <= i < |e.dayEntries| ==>
        && (forall j :: 0 <= j < |e.dayEntries[i].tags| ==> ToTag(e, e.dayEntries[i].tags[j]).Success?)
        && ToMood(e, e.dayEntries[i].mood).Success?
    ensures r.Success? ==> |r.value| == |e.dayEntries|
    ensures r.Success? ==> forall i :: 0 <= i < |e.dayEntries| ==>
      && r.value[i].date == e.dayEntries[i].datetime
      && |r.value[i].tags| == |e.dayEntries[i].tags|
      && (forall j :: 0 <= j < |e.dayEntries[i].tags| ==>
            Success(r.value[i].tags[j]) == ToTag(e, e.dayEntries[i].tags[j]))
      && Success(r.value[i].mood) == ToMood(e, e.dayEntries[i].mood)
  {
    var f := (d: DayEntry) => ToEntry(e, d);
    var r := Seqs.Traverse(e.dayEntries, f);
    Seqs.TraverseSuccess(e.dayEntries, f);
    forall d: DayEntry
      ensures ToEntry(e, d).Success? <==>
        (forall j :: 0 <= j < |d.tags| ==> ToTag(e, d.tags[j]).Success?) && ToMood(e, d.mood).Success?
      ensures ToEntry(e, d).Success? ==>
        && ToEntry(e, d).value.date == d.datetime
        && |ToEntry(e, d).value.tags| == |d.tags|
        && (forall j :: 0 <= j < |d.tags| ==> Success(ToEntry(e, d).value.tags[j]) == ToTag(e, d.tags[j]))
        && Success(ToEntry(e, d).value.mood) == ToMood(e, d.mood)
    {
      Seqs.TraverseSuccess(d.tags, (t: int) => ToTag(e, t));
    }
    r
  }

  /** The two mood scales: for the same mood the converters report a value two
      higher than the earlier script (6 - g against 4 - g), and 2.5 where the
      script's value is NaN; the names agree. */
  lemma MoodScalesDiffer(e: DaylioExport, id: int)
    requires ToMood(e, id).Success?
    ensures Converter.GetMood(e.customMoods, id).Success?
    ensures Converter.GetMood(e.customMoods, id).value.name == ToMood(e, id).value.name
    ensures match ToMood(e, id).value.value
      case None => Converter.GetMood(e.customMoods, id).value.value == 2.5
      case Some(v) => Converter.GetMood(e.customMoods, id).value.value == v as real + 2.0
  {
  }

  /** With unique catalog tag ids, the converters' tag table resolves every tag
      the earlier script resolves to the same name and group. */
  lemma TagResolutionAgrees(e: DaylioExport, id: int)
    requires forall i, j :: 0 <= i < j < |e.tags| ==> e.tags[i].id != e.tags[j].id
    requires Converter.NewDatasource(e).Success?
    requires ToTag(e, id).Success?
    ensures Converter.GetTag(Converter.NewDatasource(e).value.tags, id)
         == Converter.Defined(id, ToTag(e, id).value)
  {
    Converter.GetTagResolves(e, id);
    var k :| 0 <= k < |e.tags| && e.tags[k].id == id;
    var i := FirstIndex(e.tags, id, k);
    assert Converter.LastWithId(e.tags, i);
  }

  /** Some catalog tag with the id has no earlier tag with that id. */
  lemma {:induction false} FirstIndex(tags: seq<ExportTag>, id: int, k: nat) returns (i: nat)
    requires k < |tags| && tags[k].id == id
    ensures i < |tags| && FirstWithId(tags, i, id)
    decreases k
  {
    if forall j :: 0 <= j < k ==> tags[j].id != id {
      i := k;
    } else {
      var j :| 0 <= j < k && tags[j].id == id;
      i := FirstIndex(tags, id, j);
    }
  }
}
