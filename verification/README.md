# dayliextra analysis core in Dafny

dayliextra reads a Daylio mood-journal backup and derives statistics from it.
This project models the core of that analyser as pure Dafny functions, methods
and lemmas:

- **Conversion.** The backup's mood, tag and tag-group catalogs resolve each day
  entry into a dated entry. It gets a mood on the 1..5 scale (`6 - mood_group_id`,
  2.5 when the group id is absent) and a list of tags, and a tag id with no
  catalog tag stays undefined.
- **Period grouping.** Entries are grouped into day, week or month periods keyed
  by a formatted date. Each period holds its members' tags (flattened), one mood
  per member and its calendar length.
- **Per-period aggregates.** These are a period's average mood, tag counts and
  group counts, and, over a collection, its unique tag names and group names.
- **Tag-relationship statistics.** A 2×2 table over two tag or group references
  gives, for each cell, the number of periods with that presence/absence pattern
  and their mean average mood. The table also yields differences of cell means
  and the interaction term.
- **Moving averages.** A window slides over the periods.
- **Moods by day of year.** Each calendar day collects the average moods of the
  periods on that day, across all years. The rows are sorted by date and give a
  mean, minimum and maximum.
- **Legacy conversion.** The older `src/main.js` converter uses the mood scale
  `4 - mood_group_id`.
- **Command-line converter.** Its `BackupConverter` is modelled with its ISO-week
  key.

Failures the source reaches by throwing a `TypeError` are a `Result` failure:

- a missing mood;
- a tag group missing when the tag table is loaded;
- a tag id missing from the catalog in `src/main.js` (`UnknownTag`);
- dereferencing an undefined tag.

A JavaScript `NaN` is `Option.None`. Timestamps are integers. The local calendar
date of a timestamp, date-fns' `startOfWeek`, and the `setYear(…, 1970)`/`parse`
round trip that gives a period's day of the year are parameters. The day, month
and ISO-week keys are written out as strings. The day key is proved to identify
its date, the month key its month, and the corrected ISO-week key its ISO week;
the command line's week key as written does not identify its week (see
"## Findings").

Modules: `Results`, `Seqs` (the JavaScript collection idioms: `filter`,
`map` with a throwing step, `[...new Set]`, reduce-into-a-record bucketing),
`Calendar`, `IsoWeek`, `Export`, `Converter`, `Legacy`, `Grouping`,
`CommandLine`, `Aggregates`, `Relationship`, `Moving`, `DayOfYear`.

## Model

| member | source | states |
|---|---|---|
| Export.PredefinedName | src/js/lib/daylio-converter.ts:116 | `originalNames[id - 1]`: ids 1 to 5 select "rad", "good", "meh", "bad" and "awful" in turn, and any other id gives undefined (None) |
| Export.MoodName | src/js/lib/daylio-converter.ts:114-117 | a mood's name is its custom name when that is non-empty, and otherwise the predefined name its id selects; it is undefined (None) exactly when the custom name is empty and the id is outside 1..5 |
| Converter.MoodValue | src/js/lib/daylio-converter.ts:118-119 | the mood value plus the mood group id is 6; an absent group id gives 2.5 |
| Converter.GetMood | src/js/lib/daylio-converter.ts:112-124 | fails with UnknownMood exactly when no custom mood has the id; otherwise the mood is built from the first custom mood with that id |
| Converter.GroupName | src/js/lib/daylio-converter.ts:100-102 | the name of the first tag group with the id, and None exactly when no group has it |
| Converter.LoadTags | src/js/lib/daylio-converter.ts:96-106 | the only failure of building the tag table is an unknown tag group |
| Converter.LoadTagsSucceeds | src/js/lib/daylio-converter.ts:96-106 | the table builds exactly when every tag's group exists |
| Converter.LoadTagsFails | src/js/lib/daylio-converter.ts:96-106 | a failed build names the group id of the first tag whose group is missing |
| Converter.LoadTagsKeys | src/js/lib/daylio-converter.ts:96-106 | the table's keys are exactly the catalog's tag ids |
| Converter.LoadTagsValue | src/js/lib/daylio-converter.ts:96-106 | for a duplicated id the last catalog tag wins; its entry carries that tag's name and its group's name |
| Converter.NewDatasource | src/js/lib/daylio-converter.ts:16-18 | the constructor succeeds exactly when every tag's group exists, and keeps the export |
| Converter.GetTagResolves | src/js/lib/daylio-converter.ts:108-110 | a tag id resolves to undefined exactly when no catalog tag has it, otherwise to the last such tag's name and group |
| Converter.EntryTagResolves | src/js/lib/daylio-converter.ts:88-110 | in a converter its constructor built, each tag of a converted entry is undefined exactly when no catalog tag has its id, and otherwise carries the last such tag's name and group |
| Converter.ConvertEntry | src/js/lib/daylio-converter.ts:89-93 | an entry keeps the day entry's date, resolves every tag id in order, and fails exactly when its mood is unknown |
| Converter.GetEntries | src/js/lib/daylio-converter.ts:88-94 | one entry per day entry in order, each converted as above; fails with the mood id of some day entry exactly when some mood is unknown |
| Legacy.ToTag | src/main.js:46-55 | an unknown tag id fails; otherwise the first tag with the id gives the name, and its group must exist (first match gives the group name) |
| Legacy.ToMood | src/main.js:60-69 | fails exactly when no custom mood has the id; otherwise name as above and value plus group id equal to 4, undefined (None) when the group id is absent |
| Legacy.ConvertToEntries | src/main.js:34-78 | succeeds exactly when every tag and mood of every day entry resolves; then one entry per day entry with the date, the resolved tags in order and the resolved mood |
| Legacy.MoodScalesDiffer | src/main.js:67 | for the same mood the web converter's value is the legacy value plus 2 (2.5 where the legacy value is NaN), and the names agree |
| Legacy.TagResolutionAgrees | src/main.js:46-55 | with unique tag ids, a tag the legacy converter resolves is the tag the web converter's table holds for that id |
| Grouping.FlattenTags | src/js/lib/daylio-converter.ts:81 | a tag occurs in the flattened list exactly when it occurs in some member entry |
| Grouping.FlattenTagsAppend | src/js/lib/daylio-converter.ts:81 | flattening keeps order and repeats: the tags of a concatenation of entries are the tags of the first part followed by those of the second |
| Grouping.FlattenTagsOne | src/js/lib/daylio-converter.ts:81 | a single entry contributes exactly its own tag list |
| Grouping.Moods | src/js/lib/daylio-converter.ts:82 | one mood per member, in member order |
| Grouping.GroupedBy | src/js/lib/daylio-converter.ts:60-86 | one period per distinct key in first-seen order. Each period holds exactly the entries with its key (tags flattened, one mood each), is non-empty and carries its key's length. Together the periods hold every entry once |
| Grouping.GroupKeysFirstSeen | src/js/lib/daylio-converter.ts:67-76 | period keys are pairwise distinct and ordered by their first entry |
| Grouping.GroupsPartition | src/js/lib/daylio-converter.ts:67-76 | every entry's key has a period, the entry is among that key's members, and no period with another key holds it |
| Grouping.DayEntries | src/js/lib/daylio-converter.ts:48-58 | day collection: fails exactly when entry conversion fails, kind "day", format "yyyy-MM-dd", periods grouped by day key with length 1 |
| Grouping.WeekEntries | src/js/lib/daylio-converter.ts:24-34 | week collection: periods grouped by the date of the week's first day, length 7 |
| Grouping.MonthEntries | src/js/lib/daylio-converter.ts:36-46 | month collection: periods grouped by "yyyy-MM", length read back from the key |
| Grouping.DayPeriods | src/js/lib/daylio-converter.ts:48-58 | each day period is one day long and all its entries share one local date |
| Grouping.WeekPeriods | src/js/lib/daylio-converter.ts:24-34 | each week period is seven days long and all its entries share one week start |
| Grouping.MonthPeriods | src/js/lib/daylio-converter.ts:36-46 | each month period holds one calendar month and is as long as that month |
| Calendar.DayKeyInjective | src/js/lib/daylio-converter.ts:52 | two dates share a "yyyy-MM-dd" key exactly when they are the same date |
| Calendar.YearKeyRoundTrip | src/js/lib/daylio-converter.ts:41 | a "yyyy-MM" key parses back to its year and month |
| Calendar.MonthLength | src/js/lib/daylio-converter.ts:41 | a parsed month length is between 28 and 31 days |
| Calendar.MonthLengthOfKey | src/js/lib/daylio-converter.ts:41-43 | the length read back from a date's month key is that month's Gregorian length |
| Calendar.FebruaryLength | src/js/lib/daylio-converter.ts:41-43 | February's key reads back as 29 days in a leap year and 28 otherwise |
| IsoWeek.IsoYear | src/daylio-converter.ts:21 | the ISO week-numbering year is the year holding the week's Thursday |
| IsoWeek.IsoWeekNumber | src/daylio-converter.ts:21 | ISO week numbers lie in 1..53 |
| IsoWeek.IsoWeekIdentifies | src/daylio-converter.ts:21 | ISO year and week number agree exactly when two dates share a Monday |
| IsoWeek.WeekKeyAsWritten | src/daylio-converter.ts:21 | the "yyyy-II" key is seven characters and reads back as the date's calendar year and its ISO week number |
| IsoWeek.WeekKeyCollision | src/daylio-converter.ts:21 | 2024-01-01 and 2024-12-30 get the same "yyyy-II" key though they lie in different ISO weeks, which the "RRRR-II" key tells apart |
| IsoWeek.IsoWeekKeyIdentifies | src/daylio-converter.ts:21 | two dates share an "RRRR-II" key exactly when they lie in the same ISO week |
| CommandLine.DayEntries | src/daylio-converter.ts:37-45 | the command line's day periods are the web library's |
| CommandLine.MonthEntries | src/daylio-converter.ts:27-35 | the command line's month periods are the web library's |
| CommandLine.WeekEntriesAsWritten | src/daylio-converter.ts:17-25 | week periods grouped by the "yyyy-II" key, length 7 |
| CommandLine.WeekEntries | src/daylio-converter.ts:17-25 | week periods grouped by the corrected ISO-week key, length 7 |
| CommandLine.IsoWeekPeriods | src/daylio-converter.ts:17-25 | with the corrected key every week period is seven days long and two entries share a period exactly when their dates share an ISO week |
| CommandLine.AsWrittenMergesWeeks | src/daylio-converter.ts:17-25 | as written, entries of 2024-01-01 and 2024-12-30 form one period; with the corrected key they form two |
| Aggregates.AverageMood | src/js/lib/daylio-converter.ts:576-581 | NaN exactly for a period without moods; otherwise average times count equals the sum of mood values |
| Aggregates.AverageMoodBounds | src/js/lib/daylio-converter.ts:576-581 | a period's average lies within any bounds of its mood values |
| Aggregates.Mean | src/js/lib/daylio-converter.ts:207-209 | defined exactly when non-empty with no NaN; mean times count equals the sum |
| Aggregates.GroupedAverageDefined | src/js/lib/daylio-converter.ts:576-581 | every period built by grouping has a defined average |
| Aggregates.CountOfTags | src/js/lib/daylio-converter.ts:548-560 | one row per distinct tag in first-seen order; each count is that tag's number of occurrences (at least 1); the counts sum to the number of tag entries |
| Aggregates.ResolveAll | src/js/lib/daylio-converter.ts:564 | dereferencing every tag succeeds exactly when none is undefined |
| Aggregates.CountOfGroups | src/js/lib/daylio-converter.ts:562-574 | fails exactly on an undefined tag; otherwise one row per distinct group name in first-seen order, counted by occurrence, summing to the number of tag entries |
| Aggregates.UniqueTags | src/js/lib/daylio-converter.ts:134-140 | fails exactly on an undefined tag; otherwise no duplicates, and a name is listed exactly when some period holds a tag with that name |
| Aggregates.UniqueGroups | src/js/lib/daylio-converter.ts:142-148 | the same for group names |
| Aggregates.UniqueTagsFirstSeen | src/js/lib/daylio-converter.ts:134-140 | unique tag names come in the order of their first occurrence |
| Aggregates.UniqueGroupsFirstSeen | src/js/lib/daylio-converter.ts:142-148 | unique group names come in the order of their first occurrence |
| Relationship.Present | src/js/lib/daylio-converter.ts:495 | `some` over the tags: true exactly when a defined tag matches the reference; it throws exactly when an undefined tag comes before any match |
| Relationship.PresentDefined | src/js/lib/daylio-converter.ts:495 | with no undefined tags the scan succeeds with the existence of a match |
| Relationship.HasState | src/js/lib/daylio-converter.ts:492-510 | a state holds exactly when the reference's presence equals the wanted presence, and fails when the scan throws |
| Relationship.HasStateNegation | src/js/lib/daylio-converter.ts:492-510 | the absent state is the negation of the present state |
| Relationship.EveryAll | src/js/lib/daylio-converter.ts:201 | all states hold exactly when each state's test succeeds with true |
| Relationship.FilterPeriods | src/js/lib/daylio-converter.ts:200-202 | succeeds exactly when every period's test succeeds; then the result is the periods meeting all states, in order |
| Relationship.MoodWhen | src/js/lib/daylio-converter.ts:199-211 | the count of matching periods and the mean of their average moods |
| Relationship.RelationshipBetween | src/js/lib/daylio-converter.ts:150-197 | the four cells carry the presence patterns yes/yes, yes/no, no/yes and no/no for A and B, in that order |
| Relationship.FilterIsCell | src/js/lib/daylio-converter.ts:199-202 | filtering by a pair of states gives the periods with that presence pattern |
| Relationship.CellsCover | src/js/lib/daylio-converter.ts:150-197 | the four cells together hold every period once |
| Relationship.RelationshipPartition | src/js/lib/daylio-converter.ts:150-211 | each cell's count and average are those of the periods with its pattern, and the counts sum to the number of periods |
| Relationship.RelationshipDefined | src/js/lib/daylio-converter.ts:150-197 | with every tag defined the table never fails |
| Relationship.RelationshipScenario | src/js/lib/daylio-converter.ts:150-211 | a period with A and B (mood 4) and one with only A (mood 2) give cells (1, 4), (1, 2), (0, NaN), (0, NaN) |
| Relationship.DiffsWhen | src/js/lib/daylio-converter.ts:399-406 | each difference plus the subtracted mean gives the other mean, NaN when either is NaN |
| Relationship.DiffsInDiffsOf | src/js/lib/daylio-converter.ts:407-413 | both interaction magnitudes are non-negative |
| Relationship.DiffsInDiffsSymmetric | src/js/lib/daylio-converter.ts:407-413 | the two magnitudes are equal, the absolute value of the interaction term, and defined exactly when all four means are |
| Moving.Average | src/js/lib/daylio-converter.ts:352-354 | a window's average is NaN for an empty window or a NaN sum, otherwise average times count equals the sum |
| Moving.MovingAverage | src/js/lib/daylio-converter.ts:213-246 | one window per filtered centre at least half a window from each end. Each window's average is the mean of the unfiltered periods at its indices. For a one-period window without filtering, window k is period k with its own average, and the last period gets no window |
| Moving.SlideWindows | src/js/lib/daylio-converter.ts:219-245 | window k is centred on filtered position k + floor(w/2) and sums the averages of periods k .. k + w - 1 |
| Moving.WindowSum | src/js/lib/daylio-converter.ts:227-232 | the left-to-right sum of the window's average moods, NaN once one is NaN |
| Moving.WindowAverage | src/js/lib/daylio-converter.ts:352-354 | a window's average is the mean of the average moods it covers |
| DayOfYear.UnsortedRows | src/js/lib/daylio-converter.ts:249-259 | one row per distinct day in first-seen order, each with the averages of exactly the periods on that day; every period contributes once |
| DayOfYear.InsertPermutes | src/js/lib/daylio-converter.ts:260-262 | inserting a row keeps all rows (multiset) |
| DayOfYear.InsertAscending | src/js/lib/daylio-converter.ts:260-262 | inserting a row with a new date into ascending rows keeps them ascending |
| DayOfYear.SortPermutes | src/js/lib/daylio-converter.ts:260-262 | sorting is a permutation of the rows |
| DayOfYear.SortAscending | src/js/lib/daylio-converter.ts:260-262 | rows with distinct dates come out in strictly ascending calendar order |
| DayOfYear.MoodsByDayOfYear | src/js/lib/daylio-converter.ts:248-263 | rows in ascending calendar order, one per day on which some period falls; each holds the averages of exactly that day's periods (non-empty), and every period contributes once |
| DayOfYear.MinOf | src/js/lib/daylio-converter.ts:318-320 | NaN when empty or when any mood is NaN, otherwise a mood that is at most every mood |
| DayOfYear.MaxOf | src/js/lib/daylio-converter.ts:321-323 | NaN when empty or when any mood is NaN, otherwise a mood that is at least every mood |
| DayOfYear.RowBounds | src/js/lib/daylio-converter.ts:314-323 | a row's average, minimum and maximum are defined together, and minimum ≤ average ≤ maximum |
| DayOfYear.ConstantRow | src/js/lib/daylio-converter.ts:314-323 | a row whose moods all equal v has average, minimum and maximum v |
| DayOfYear.ConstantDay | src/js/lib/daylio-converter.ts:248-263 | a day whose periods all average v, in whatever years, gets a row with average, minimum and maximum v |

The command-line file `src/daylio-converter.ts` repeats the web library's
logic: `getEntriesGroupedBy` (47-71), `getEntries` (73-79), `loadTags` (81-91),
`getTag` (93-95), `getMood` (97-109), `uniqueTags`/`uniqueGroups` (115-125),
`countOfTags` (153-165), `countOfGroups` (167-179) and `averageMood` (181-186).
Its tag fields are called `name`/`group` instead of `tagName`/`groupName`.
The same members above model it.

## Left out

- Archive decoding: `extractBackup` (zip, base64, JSON) is left out, and an export is a given value.
- Charts and UI: charts, the UI, `RelationshipStats.toString`, and the chart series getters `GroupedMoods.averageSeries`/`minSeries`/`maxSeries` are left out. The series re-sort rows that `moodsByDayOfYear` already returns in ascending date order.
- Re-parsed dates: `TimePeriodGroupedEntry.date` and `MovingAverageEntry.date` re-parse a key with date-fns and are left out.
- Timezone: the local calendar date of a timestamp is the parameter `local`.
- Week start: date-fns' `startOfWeek` (locale dependent) is the parameter `weekStart`.
- Day of year: `setYear(date, 1970)` followed by `parse`, including what happens to 29 February, is the parameter `dayOf`.
- Years: only years 1..9999 are modelled, where "yyyy" prints four digits.
- Floating point: arithmetic is exact on reals, so rounding is not modelled.
- NaN: `NaN` is `None`.
- Empty minimum and maximum: `Math.min`/`Math.max` of no moods (±Infinity) are `None`; a row always has moods.
- The `?? 2.5` default: the fallback in `averageMood` is not modelled separately. Both converters always give a mood a numeric value, so it never applies; the 2.5 for an absent group id is in `Converter.MoodValue`.
- Window size: `movingAverage` takes its window size as a natural number. Negative or fractional sizes (where `Math.floor`/`Math.ceil` matter) are not modelled.
- Key order: `Object.entries` visits integer-like keys first. Every grouping key contains '-', so insertion order is modelled.
- Per-period format: each `TimePeriodGroupedEntry` has its own `dateFormat` field. It always equals the collection's, and is kept only on the collection.
- Unresolved tag ids: an unresolved tag id is kept as an undefined tag, as the code does. It fails only where a later step reads the tag's fields (`uniqueTags`, `uniqueGroups`, `countOfGroups`, `hasState`). `countOfTags` spreads an undefined tag without failing and counts it as a row of its own.
- Out-of-range mood ids: a predefined-name id outside 1..5 gives an undefined name, not an error.
- DayOfYear.MoodsByDayOfYear: the day of the year of each period is a parameter rather than computed from a 1970 timestamp, because that round trip is date-fns work.
- Grouping.WeekEntries: week periods are stated to share `weekStart` of their dates rather than a calendar week, because `startOfWeek` is a parameter.

## Findings

| source | as written | input that shows it | evidently intended | confidence | as-written member | corrected member |
|---|---|---|---|---|---|---|
| src/daylio-converter.ts:21 | the week key `format(date, "yyyy-II")` pairs the calendar year with the ISO week number | entries dated Monday 2024-01-01 (ISO week 1 of 2024) and Monday 2024-12-30 (ISO week 1 of 2025) both get "2024-01" and land in one week period | the ISO week-numbering year, `"RRRR-II"`, so that a key names one ISO week | not executed; high | IsoWeek.WeekKeyCollision, CommandLine.AsWrittenMergesWeeks | IsoWeek.IsoWeekKeyIdentifies, CommandLine.WeekEntries |
