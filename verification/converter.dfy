/** Entry normalisation of the two TypeScript converters (`DaylioDatasource` in
    the web library, `BackupConverter` in the command-line version). Both carry
    the same code; they differ only in the field names of a tag
    (`tagName`/`groupName` against `name`/`group`), which this model names once. */
module Converter {

  import opened Results
  import opened Export
  import Seqs

  /** A mood as the converters report it; `name` is None where the source
      reads past the end of the predefined-name list (undefined). */
  datatype Mood = Mood(name: Option<string>, value: real)

  datatype Tag = Tag(tagName: string, groupName: string)

  /** What `getTag` returns for one tag id: the tag object `loadTags` built for
      that id, or undefined. The source compares tags by object identity and
      builds exactly one object per id, so the id is kept here as that identity. */
  datatype TagRef = Defined(id: int, tag: Tag) | Undefined

  datatype Entry = Entry(date: int, tags: seq<TagRef>, mood: Mood)

  /** The converter's mood scale: 6 - mood_group_id, or 2.5 when the group id is
      absent. */
  function MoodValue(m: CustomMood): (v: real)
    ensures m.moodGroupId.None? ==> v == 2.5
    ensures m.moodGroupId.Some? ==> v + m.moodGroupId.value as real == 6.0
  {
    match m.moodGroupId
    case None => 2.5
    case Some(g) => (6 - g) as real
  }

  /** `getMood`: the first custom mood with the id, named and valued; a missing
      mood throws on `mood.custom_name`. */
  function GetMood(moods: seq<CustomMood>, id: int): (r: Result<Mood>)
    ensures r.Failure? <==> forall i :: 0 <= i < |moods| ==> moods[i].id != id
    ensures r.Failure? ==> r.error == UnknownMood(id)
    ensures r.Success? ==>
      exists i :: 0 <= i < |moods| && moods[i].id == id
        && (forall j :: 0 <= j < i ==> moods[j].id != id)
        && r.value == Mood(MoodName(moods[i]), MoodValue(moods[i]))
  {
    match Seqs.Find(moods, (m: CustomMood) => m.id == id)
    case None => Failure(UnknownMood(id))
    case Some(m) => Success(Mood(MoodName(m), MoodValue(m)))
  }

  predicate HasGroup(groups: seq<TagGroup>, gid: int) {
    exists i :: 0 <= i < |groups| && groups[i].id == gid
  }

  /** `tag_groups.find((g) => g.id === gid)?.name`. */
  function GroupName(groups: seq<TagGroup>, gid: int): (r: Option<string>)
    ensures r.None? <==> !HasGroup(groups, gid)
    ensures r.Some? ==>
      exists i :: 0 <= i < |groups| && groups[i].id == gid && groups[i].name == r.value
        && forall j :: 0 <= j < i ==> groups[j].id != gid
  {
    match Seqs.Find(groups, (g: TagGroup) => g.id == gid)
    case None => None
    case Some(g) => Some(g.name)
  }

  /** No later tag in the catalog reuses the id of tags[i]: its entry is the one
      that survives in the id-keyed table. */
  predicate LastWithId(tags: seq<ExportTag>, i: int)
    requires 0 <= i < |tags|
  {
    forall j :: i < j < |tags| ==> tags[j].id != tags[i].id
  }

  /** `loadTags`: the table from tag id to tag, built in catalog order, a later
      tag with the same id replacing an earlier one. The first tag (in catalog
      order) whose group id matches no tag group throws. */
  function LoadTags(tags: seq<ExportTag>, groups: seq<TagGroup>): (r: Result<map<int, Tag>>)
    ensures r.Failure? ==> r.error.UnknownTagGroup?
  {
    if |tags| == 0 then Success(map[])
    else
      var n := |tags| - 1;
      var prefix :- LoadTags(tags[..n], groups);
      match GroupName(groups, tags[n].idTagGroup)
      case None => Failure(UnknownTagGroup(tags[n].idTagGroup))
      case Some(g) => Success(prefix[tags[n].id := Tag(tags[n].name, g)])
  }

  /** Building the table for one more tag: it succeeds when the shorter
      catalog's table does and the new tag's group exists, and then adds or
      overwrites the new tag's id. */
  lemma LoadTagsStep(tags: seq<ExportTag>, groups: seq<TagGroup>)
    requires |tags| > 0
    ensures var n := |tags| - 1;
      LoadTags(tags, groups).Success? <==>
        LoadTags(tags[..n], groups).Success? && HasGroup(groups, tags[n].idTagGroup)
    ensures var n := |tags| - 1;
      LoadTags(tags, groups).Success? ==>
        LoadTags(tags, groups).value ==
          LoadTags(tags[..n], groups).value[tags[n].id := Tag(tags[n].name, GroupName(groups, tags[n].idTagGroup).value)]
  {
  }

  /** The table is built exactly when every tag's group id names a tag group. */
  lemma {:induction false} LoadTagsSucceeds(tags: seq<ExportTag>, groups: seq<TagGroup>)
    ensures LoadTags(tags, groups).Success? <==>
      forall i :: 0 <= i < |tags| ==> HasGroup(groups, tags[i].idTagGroup)
  {
    if |tags| > 0 {
      var n := |tags| - 1;
      assert forall i :: 0 <= i < n ==> tags[..n][i] == tags[i];
      LoadTagsSucceeds(tags[..n], groups);
      LoadTagsStep(tags, groups);
    }
  }

  /** Otherwise the error names the group id of the first tag that has none. */
  lemma {:induction false} LoadTagsFails(tags: seq<ExportTag>, groups: seq<TagGroup>)
    ensures LoadTags(tags, groups).Failure? ==>
      exists i :: 0 <= i < |tags| && !HasGroup(groups, tags[i].idTagGroup)
        && LoadTags(tags, groups).error == UnknownTagGroup(tags[i].idTagGroup)
        && forall j :: 0 <= j < i ==> HasGroup(groups, tags[j].idTagGroup)
  {
    if |tags| > 0 {
      var n := |tags| - 1;
      var init := tags[..n];
      assert forall i :: 0 <= i < n ==> init[i] == tags[i];
      if LoadTags(init, groups).Failure? {
        LoadTagsFails(init, groups);
        var i :| 0 <= i < n && !HasGroup(groups, init[i].idTagGroup)
          && LoadTags(init, groups).error == UnknownTagGroup(init[i].idTagGroup)
          && forall j :: 0 <= j < i ==> HasGroup(groups, init[j].idTagGroup);
        assert LoadTags(tags, groups).error == UnknownTagGroup(tags[i].idTagGroup);
      } else if !HasGroup(groups, tags[n].idTagGroup) {
        LoadTagsSucceeds(init, groups);
        assert LoadTags(tags, groups).error == UnknownTagGroup(tags[n].idTagGroup);
      }
    }
  }

  /** The ids of a catalog with one more tag. */
  lemma IdsSnoc(tags: seq<ExportTag>)
    requires |tags| > 0
    ensures var n := |tags| - 1;
      (set i | 0 <= i < |tags| :: tags[i].id) == (set i | 0 <= i < n :: tags[..n][i].id) + {tags[n].id}
  {
    var n := |tags| - 1;
    var init := tags[..n];
    var all := set i | 0 <= i < |tags| :: tags[i].id;
    var pre := set i | 0 <= i < n :: init[i].id;
    forall x | x in all ensures x in pre + {tags[n].id} {
      var i :| 0 <= i < |tags| && tags[i].id == x;
      if i < n { assert init[i].id == x; }
    }
    forall x | x in pre ensures x in all {
      var i :| 0 <= i < n && init[i].id == x;
      assert tags[i].id == x;
    }
  }

  /** The table has one key per distinct catalog id. */
  lemma {:induction false} LoadTagsKeys(tags: seq<ExportTag>, groups: seq<TagGroup>)
    requires LoadTags(tags, groups).Success?
    ensures LoadTags(tags, groups).value.Keys == set i | 0 <= i < |tags| :: tags[i].id
  {
    if |tags| > 0 {
      LoadTagsStep(tags, groups);
      LoadTagsKeys(tags[..|tags| - 1], groups);
      IdsSnoc(tags);
    }
  }

  /** The entry of the last catalog tag with a given id. */
  lemma {:induction false} LoadTagsValue(tags: seq<ExportTag>, groups: seq<TagGroup>, i: nat)
    requires LoadTags(tags, groups).Success?
    requires i < |tags| && LastWithId(tags, i)
    ensures tags[i].id in LoadTags(tags, groups).value
    ensures LoadTags(tags, groups).value[tags[i].id].tagName == tags[i].name
    ensures Some(LoadTags(tags, groups).value[tags[i].id].groupName) == GroupName(groups, tags[i].idTagGroup)
  {
    var n := |tags| - 1;
    LoadTagsStep(tags, groups);
    if i < n {
      var init := tags[..n];
      assert init[i] == tags[i];
      assert LastWithId(init, i) by {
        forall j | i < j < n ensures init[j].id != init[i].id {
          assert init[j] == tags[j];
        }
      }
      assert tags[i].id != tags[n].id;
      LoadTagsValue(init, groups, i);
    }
  }

  /** Each id maps to the last catalog tag with that id, named after the first
      tag group its group id matches. */
  lemma LoadTagsValues(tags: seq<ExportTag>, groups: seq<TagGroup>)
    requires LoadTags(tags, groups).Success?
    ensures forall i :: 0 <= i < |tags| && LastWithId(tags, i) ==>
      && tags[i].id in LoadTags(tags, groups).value
      && LoadTags(tags, groups).value[tags[i].id].tagName == tags[i].name
      && Some(LoadTags(tags, groups).value[tags[i].id].groupName) == GroupName(groups, tags[i].idTagGroup)
  {
    forall i | 0 <= i < |tags| && LastWithId(tags, i) {
      LoadTagsValue(tags, groups, i);
    }
  }

  /** A converter instance: the export it reads and the tag table its
      constructor built. */
  datatype Datasource = Datasource(backup: DaylioExport, tags: map<int, Tag>)

  /** The constructor: it builds the tag table, and so throws when `loadTags` does. */
  function NewDatasource(e: DaylioExport): (r: Result<Datasource>)
    ensures r.Success? <==> forall i :: 0 <= i < |e.tags| ==> HasGroup(e.tagGroups, e.tags[i].idTagGroup)
    ensures r.Success? ==> r.value.backup == e
  {
    LoadTagsSucceeds(e.tags, e.tagGroups);
    var tags :- LoadTags(e.tags, e.tagGroups);
    Success(Datasource(e, tags))
  }

  /** A datasource as the constructor leaves it: its tag table is the one
      `loadTags` builds from its own export. */
  predicate Built(src: Datasource) {
    NewDatasource(src.backup) == Success(src)
  }

  /** `getTag`: a plain lookup that yields undefined for an unknown id. */
  function GetTag(tags: map<int, Tag>, id: int): TagRef {
    if id in tags then Defined(id, tags[id]) else Undefined
  }

  /** Resolving a tag id through the table the constructor built: undefined
      exactly when no catalog tag has the id; otherwise the name of the last tag
      with that id, and the name of the first tag group its group id matches. */
  lemma GetTagResolves(e: DaylioExport, id: int)
    requires NewDatasource(e).Success?
    ensures var r := GetTag(NewDatasource(e).value.tags, id);
      && (r.Undefined? <==> forall i :: 0 <= i < |e.tags| ==> e.tags[i].id != id)
      && forall i :: 0 <= i < |e.tags| && e.tags[i].id == id && LastWithId(e.tags, i) ==>
           && r == Defined(id, r.tag)
           && r.tag.tagName == e.tags[i].name
           && Some(r.tag.groupName) == GroupName(e.tagGroups, e.tags[i].idTagGroup)
  {
    var tags := LoadTags(e.tags, e.tagGroups).value;
    LoadTagsKeys(e.tags, e.tagGroups);
    LoadTagsValues(e.tags, e.tagGroups);
    if id !in tags {
      forall i | 0 <= i < |e.tags|
        ensures e.tags[i].id != id
      {
        assert e.tags[i].id in (set k | 0 <= k < |e.tags| :: e.tags[k].id);
      }
    }
  }

  /** One day entry: its date, its tags resolved in order, its mood (which may throw). */
  function ConvertEntry(tags: map<int, Tag>, moods: seq<CustomMood>, d: DayEntry): (r: Result<Entry>)
    ensures r.Success? <==> GetMood(moods, d.mood).Success?
    ensures r.Failure? ==> r.error == UnknownMood(d.mood)
    ensures r.Success? ==>
      && r.value.date == d.datetime
      && |r.value.tags| == |d.tags|
      && (forall j :: 0 <= j < |d.tags| ==> r.value.tags[j] == GetTag(tags, d.tags[j]))
      && Success(r.value.mood) == GetMood(moods, d.mood)
  {
    var mood :- GetMood(moods, d.mood);
    Success(Entry(d.datetime, Seqs.Map(d.tags, (t: int) => GetTag(tags, t)), mood))
  }

  /** `getEntries`: one entry per day entry, in the export's order; each entry
      keeps the date, resolves every tag id in order, and resolves the mood. The
      first day entry whose mood id is missing throws. */
  function GetEntries(src: Datasource): (r: Result<seq<Entry>>)
    ensures r.Success? <==>
      forall i :: 0 <= i < |src.backup.dayEntries| ==>
        GetMood(src.backup.customMoods, src.backup.dayEntries[i].mood).Success?
    ensures r.Failure? ==>
      exists i :: 0 <= i < |src.backup.dayEntries|
        && GetMood(src.backup.customMoods, src.backup.dayEntries[i].mood).Failure?
        && r.error == UnknownMood(src.backup.dayEntries[i].mood)
    ensures r.Success? ==> |r.value| == |src.backup.dayEntries|
    ensures r.Success? ==> forall i :: 0 <= i < |r.value| ==>
      && r.value[i].date == src.backup.dayEntries[i].datetime
      && |r.value[i].tags| == |src.backup.dayEntries[i].tags|
      && (forall j :: 0 <= j < |r.value[i].tags| ==>
            r.value[i].tags[j] == GetTag(src.tags, src.backup.dayEntries[i].tags[j]))
      && Success(r.value[i].mood) == GetMood(src.backup.customMoods, src.backup.dayEntries[i].mood)
  {
    var f := (d: DayEntry) => ConvertEntry(src.tags, src.backup.customMoods, d);
    var r := Seqs.Traverse(src.backup.dayEntries, f);
    Seqs.TraverseSuccess(src.backup.dayEntries, f);
    if r.Failure? then
      Seqs.TraverseFailure(src.backup.dayEntries, f);
      r
    else r
  }

  /** In a constructed converter, tag j of entry i is undefined exactly when no
      catalog tag has its id; otherwise it carries the name of the last catalog
      tag with that id and the name of that tag's group. */
  lemma EntryTagResolves(src: Datasource, i: nat, j: nat)
    requires Built(src)
    requires GetEntries(src).Success?
    requires i < |src.backup.dayEntries| && j < |src.backup.dayEntries[i].tags|
    ensures var id := src.backup.dayEntries[i].tags[j];
      var t := GetEntries(src).value[i].tags[j];
      && (t.Undefined? <==> forall k :: 0 <= k < |src.backup.tags| ==> src.backup.tags[k].id != id)
      && forall k :: 0 <= k < |src.backup.tags| && src.backup.tags[k].id == id && LastWithId(src.backup.tags, k) ==>
           && t == Defined(id, t.tag)
           && t.tag.tagName == src.backup.tags[k].name
           && Some(t.tag.groupName) == GroupName(src.backup.tagGroups, src.backup.tags[k].idTagGroup)
  {
    GetTagResolves(src.backup, src.backup.dayEntries[i].tags[j]);
  }
}
