/** The decoded backup record, restricted to the fields the converters read.
    The archive, base64 and JSON decoding that produce it are not part of this
    model: an export is a given value. */
module Export {

  import opened Results

  /** A mood definition; `moodGroupId` is None when the field is absent. */
  datatype CustomMood = CustomMood(
    id: int,
    customName: string,
    moodGroupId: Option<int>,
    predefinedNameId: int)

  datatype ExportTag = ExportTag(id: int, name: string, idTagGroup: int)

  datatype TagGroup = TagGroup(id: int, name: string)

  /** One journal entry: epoch milliseconds, tag ids, mood id. */
  datatype DayEntry = DayEntry(datetime: int, tags: seq<int>, mood: int)

  datatype DaylioExport = DaylioExport(
    customMoods: seq<CustomMood>,
    tags: seq<ExportTag>,
    dayEntries: seq<DayEntry>,
    tagGroups: seq<TagGroup>)

  /** Names of the five predefined moods, best first. */
  const OriginalNames: seq<string> := ["rad", "good", "meh", "bad", "awful"]

  /** `originalNames[id - 1]`: undefined (None) outside 1..5. */
  function PredefinedName(id: int): (r: Option<string>)
    ensures r.Some? <==> 1 <= id <= 5
    ensures id == 1 ==> r == Some("rad")
    ensures id == 2 ==> r == Some("good")
    ensures id == 3 ==> r == Some("meh")
    ensures id == 4 ==> r == Some("bad")
    ensures id == 5 ==> r == Some("awful")
  {
    if 1 <= id <= 5 then Some(OriginalNames[id - 1]) else None
  }

  /** The name a mood shows: its custom name unless that is empty, else the
      predefined name its id selects. Shared by both converters and main.js. */
  function MoodName(m: CustomMood): (r: Option<string>)
    ensures r.None? <==> m.customName == "" && !(1 <= m.predefinedNameId <= 5)
    ensures m.customName != "" ==> r == Some(m.customName)
    ensures m.customName == "" ==> r == PredefinedName(m.predefinedNameId)
  {
    if m.customName == "" then PredefinedName(m.predefinedNameId) else Some(m.customName)
  }
}
