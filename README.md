# master-proposals in Dafny

A verified model of the data core of master-proposals. The system is a catalog
of the thesis projects advertised on NTNU IDI's project page. It has five parts:

- **Extraction.** Each `.oppgave` HTML container becomes a project record.
  Five copies of this code exist: `lib/projectParser.ts`, `lib/fetchProjects.ts`,
  `scripts/scrape-projects.ts`, `app/page.tsx` and `src/App.tsx`. They differ
  only in their settings:
  - whether text fields are trimmed;
  - the fallback strings;
  - `innerHTML` or `textContent` for the descriptions;
  - the link attribute or the resolved URL;
  - whether `teacherLink` and `type` are recorded;
  - how an id is found when the permalink has no `oid=` segment.

  `Extraction.Rules` collects these settings, and one set of field rules
  serves all five copies.
- **Merging.** Records from several program pages that share a title and a
  teacher collapse into the first such record. Its program list becomes the
  union of all their lists, in order of first appearance. The teachers are
  collected along the way and sorted.
- **Program filter.** Union and intersection over the selected study
  programs. `app/page.tsx` and `src/App.tsx` define the intersection in
  opposite directions, and both are modelled.
- **Elo ranking** (`app/elo/page.tsx`):
  - the K = 32 rating update;
  - the rating state and its transforms: initialising new favourites,
    recording a comparison, unfavouring;
  - the leaderboard order;
  - the rank-weighted random choice of the next pair.
- **Offline scripts.**
  - The scraper's snapshot: the file name, the sorted supervisors and the
    per-program counts.
  - The summary and title generators: progress-bar arithmetic, time
    formatting, HTML-tag stripping, joining descriptions, batching, the
    records keyed by title or by id, and the output file names.

Each module follows one source file, plus shared modules for what the copies
have in common:

- `Records`: the project record and the container datatype.
- `Extraction`: the field rules.
- `Merge`: the merge loop.
- `Collect`: the nested page/container loop that four copies write inline.
- `Selection`: the `Record<string, boolean>` selection objects.
- `Batching`: the batch slices and keyed writes of the two AI scripts.
- `ScriptHelpers`: what the two AI scripts share: the progress bar, time formatting, and the cleaning of the descriptions and the prompt fields sent to the language model.
- `Text`, `Lists`, `StringOrder`: the JavaScript string and array built-ins
  the code relies on.

Code that works step by step is modelled as methods with loops. Each method
is proved against a function that specifies it:

- the merge loop;
- the supervisor `Set`;
- the `divs.forEach` scan;
- the weighted walk of `selectWithBias`;
- the rating-initialisation loop;
- the batch loops.

Pure expressions are modelled as functions, with lemmas about them.

Parameters stand in for everything outside the program:

- HTTP responses (`respond`);
- the DOM, as the `Container` datatype;
- base64 (`encode`);
- random ids (`token`);
- `Math.random()` draws (`draw`);
- `10 **` (`pow`) and `Math.pow(k, 1.5)` (`power`);
- the language model (`reply`);
- file modification times (`mtime`);
- the clock (`now`, `elapsedMs`).

Where the copies differ, the model follows each one as written:

- Only `lib/projectParser.ts` (where `Buffer` exists) and
  `scripts/scrape-projects.ts` derive the fallback id from title and
  teacher. The other copies draw a random one.
- `app/page.tsx` and `src/App.tsx` do not trim the title and teacher
  before they compare them.
- `app/page.tsx` and `src/App.tsx` never check the response status, so a
  failed page is read like any other. `lib/fetchProjects.ts` and
  `scripts/scrape-projects.ts` fail as a whole instead.
- `calculateElo` computes each side's expected score separately with
  `10 **`. `Elo.PointsConserved` shows when the two add up to one.
- `src/App.tsx` keeps a project under the intersection filter when all
  of its own programs are selected. This is the reverse of `app/page.tsx`,
  which keeps it when it lists every selected program.

## Model

| member | source | states |
|---|---|---|
| Extraction.LastContentIsLast | lib/projectParser.ts:62-65 | the description left by the div loop is "" when no div id has the prefix; otherwise it is the content of a matching div with no matching div after it |
| Extraction.LastContentSnoc | lib/projectParser.ts:62-65 | one more div replaces the description exactly when its id has the prefix |
| Extraction.ScanDescriptions | lib/projectParser.ts:44-65 | the `divs.forEach` loop leaves in `shownDesc` and `hiddenDesc` the content of the last shown_ div and of the last hidden_ div |
| Extraction.ExtractProject | lib/projectParser.ts:30-85 | the per-container callback builds exactly the record the field rules define, for every copy's settings |
| Extraction.ExtractorKeepsProgram | lib/projectParser.ts:83 | every copy's record lists exactly the one program whose page it came from |
| Extraction.TextFieldRule | lib/projectParser.ts:31-38 | a text field falls back exactly when its element is missing or its (trimmed) text is blank, and is otherwise that text; a non-empty fallback makes the field non-empty |
| Extraction.TrimmedTextField | lib/projectParser.ts:31-38 | with trimming and a fallback free of surrounding white space, a text field has no surrounding white space |
| Extraction.TitleRule | lib/projectParser.ts:31-32 | the title is the (trimmed) h3 text, or the copy's untitled sentinel when the h3 is missing or blank; it is never empty |
| Extraction.TrimmedFields | lib/fetchProjects.ts:33-43 | in a trimming copy, title, teacher, status and short description all carry no surrounding white space |
| Extraction.SharedParserTrimmed | lib/projectParser.ts:31-38 | in the shared parser, title, teacher and status carry no surrounding white space |
| Extraction.SharedParserFallbacks | lib/projectParser.ts:31-42 | shared-parser fallbacks: "Untitled Project" without an h3; "Unknown" teacher without an anchor; "Unknown" status, "#" link and an empty teacher link without a status block |
| Extraction.FullDescriptionRule | lib/projectParser.ts:78 | the full description is the last hidden_ div's content when that is non-empty; otherwise the last shown_ div's content; "" when there is neither |
| Extraction.NoDivisionsNoDescription | lib/projectParser.ts:44-48 | a container without divs has an empty full description |
| Extraction.KindRule | lib/projectParser.ts:50-60 | type is omitted exactly in the copies that do not detect it; it is duo exactly when the first student_ image's src contains "student_group", and single otherwise, including when there is no image |
| Extraction.GroupIsStudent | lib/projectParser.ts:51-55 | an image whose src contains "student_group" is matched by the `student_` selector |
| Extraction.IdFromPermalink | lib/projectParser.ts:68-69 | a non-empty `oid=` segment of the link is the id |
| Extraction.EncodedIdIsStable | scripts/scrape-projects.ts:110-114 | without an `oid=` segment, two containers with the same title and teacher get the same id, at most 12 characters long |
| Extraction.NoPermalinkUsesFallback | lib/fetchProjects.ts:75 | without a permalink anchor the link is "#", and a copy with random ids uses the drawn token as id |
| Collect.PagesOf | app/page.tsx:34-43 | one page per selected program, in selection order, each tagged with its program id |
| Collect.FetchPages | app/page.tsx:34-43 | the fetch loop of the pages that ignore the response status returns exactly those pages |
| Collect.PageRecords | lib/fetchProjects.ts:30-32 | a page yields one record per container |
| Collect.CollectRecord | lib/fetchProjects.ts:41-99 | one record more: it is merged into `allProjects`, and its teacher is added to the supervisor Set unless already there |
| Collect.CollectStep | lib/fetchProjects.ts:87-99 | collecting one more record is one merge step, and adds its teacher to the insertion-ordered Set unless already present |
| Collect.CollectPage | lib/fetchProjects.ts:32-100 | after one page, `allProjects` is the merge of all records so far and the Set holds their teachers in first-seen order |
| Collect.CollectProjects | lib/fetchProjects.ts:27-101 | the nested loop over pages and containers yields the merge of all extracted records and their distinct teachers in first-seen order |
| Collect.AllRecordsPrograms | lib/fetchProjects.ts:83 | every extracted record lists exactly the program of some fetched page |
| Collect.CollectedProgramsWithin | src/App.tsx:36-96 | every collected record lists at least one program, and only programs that were fetched |
| Collect.CollectedRecords | lib/fetchProjects.ts:87-99 | collected records have distinct (title, teacher) keys, one per extracted key; each is the first record with its key, with the union of that key's program lists |
| FetchProjects.Pages | lib/fetchProjects.ts:15-20 | one page per selected program, in selection order |
| FetchProjects.FetchPages | lib/fetchProjects.ts:15-23 | fails exactly when some selected program's response is not OK, with "Failed to fetch <id>" for such a program; otherwise returns every page in order |
| FetchProjects.FetchProjects | lib/fetchProjects.ts:8-111 | fails as a whole exactly when a response is not OK; otherwise returns the merge of all records, with distinct keys and only selected programs, and every teacher seen ("Unknown" included), sorted and without repeats |
| FetchProjects.FetchedProgramsSelected | lib/fetchProjects.ts:15-17 | every program a returned record lists is flagged true in the selection |
| HomePage.FetchProjects | app/page.tsx:29-106 | the page's records are the merge of the untrimmed extraction over the selected programs, with distinct keys and only selected programs |
| HomePage.FilteredProjects | app/page.tsx:125-136 | union keeps exactly the projects listing some selected program; intersection keeps exactly those listing every selected program; both keep input order |
| HomePage.NothingSelected | app/page.tsx:127-134 | with nothing selected, the intersection keeps every project and the union keeps none |
| HomePage.IntersectionWithinUnion | app/page.tsx:126-135 | with at least one program selected, the intersection is a sub-list of the union |
| LegacyApp.FetchProjects | src/App.tsx:31-107 | the app's records are the merge of its extraction (resolved link URL) over the selected programs, with distinct keys and only selected programs |
| LegacyApp.FilteredProjects | src/App.tsx:126-132 | union keeps the projects listing some selected program; this intersection keeps those whose every program is selected; both keep input order |
| LegacyApp.IntersectionWithinUnion | src/App.tsx:127-131 | since every fetched record lists a program, this intersection is a sub-list of the union whatever is selected |
| LegacyApp.BothIntersections | src/App.tsx:130-131 | a project passes both apps' intersections exactly when its programs are precisely the selected ones |
| Merge.FindKey | lib/projectParser.ts:105-107 | `findIndex` returns -1 exactly when no record has the key; otherwise the first index whose record has it |
| Merge.MergedSnoc | lib/projectParser.ts:104-121 | merging a list extended by one record is one more loop step |
| Merge.MergeInto | lib/projectParser.ts:105-120 | the loop body unions the programs into the first record with the same key, or appends the record |
| Merge.MergeProjects | lib/projectParser.ts:99-124 | `mergeProjectsFromPrograms` is the record-by-record merge of the flattened lists |
| Merge.MergeStepFind | lib/projectParser.ts:105-120 | after one step, a lookup by another key is unchanged; a lookup by the record's key finds the old record with the programs unioned, or the record itself |
| Merge.MergeStepKeys | lib/projectParser.ts:109-120 | one step appends the record's key exactly when it is new |
| Merge.MergedKeys | lib/projectParser.ts:99-124 | the merged keys are the input keys without repeats, in order of first appearance |
| Merge.MergedDistinct | lib/projectParser.ts:99-124 | no two merged records share a title and teacher; every input key has a merged record, none is invented, and the list does not grow |
| Merge.MergedFind | lib/projectParser.ts:105-116 | the merged record for a key is its first input record with every other field kept, and as programs the union of all that key's program lists in first-appearance order |
| Merge.MergedOfDistinct | lib/projectParser.ts:104-121 | a list whose keys are already distinct is left unchanged |
| Merge.MergedIdempotent | lib/projectParser.ts:99-124 | merging a merged list changes nothing |
| Merge.MergedProgramsWithin | lib/projectParser.ts:111-116 | merging invents no program and empties no program list |
| Merge.MergedProgramsNoDup | lib/projectParser.ts:111-116 | merging keeps every program list free of repeats |
| ProjectParser.Parsed | lib/projectParser.ts:28-30 | a page yields exactly one record per container |
| ProjectParser.ParsedSnoc | lib/projectParser.ts:87 | each container appends exactly its own record, in document order |
| ProjectParser.ParseProjects | lib/projectParser.ts:23-91 | `parseProjectsFromHTML` pushes the shared parser's record of each container, in document order |
| ProjectParser.ParsedPrograms | lib/projectParser.ts:83 | every record parsed from a program's page lists exactly that program |
| ProjectParser.FlattenParsedPrograms | lib/projectParser.ts:104 | the flattened per-program lists hold records whose program lists have no repeats |
| ProjectParser.ExtractSupervisors | lib/projectParser.ts:132-142 | the supervisors are strictly ascending and are exactly the teachers that are neither "" nor "Unknown" |
| ProjectParser.MergedTeachers | lib/projectParser.ts:150-154 | merging keeps the set of teachers unchanged |
| ProjectParser.ProcessProjects | lib/projectParser.ts:150-160 | `processProjects` returns the merged records and, sorted, exactly the named teachers of the input |
| ScrapeProjects.Dashed | scripts/scrape-projects.ts:151 | the timestamp has every ':' and '.' replaced by '-' and nothing else changed |
| ScrapeProjects.SnapshotName | scripts/scrape-projects.ts:151-152 | the snapshot is named "projects-" + timestamp + ".json" |
| ScrapeProjects.ScrapedPages | scripts/scrape-projects.ts:38-58 | one page per study program, in the fixed order |
| ScrapeProjects.ProgramCount | scripts/scrape-projects.ts:165-167 | a program's count never exceeds the number of projects |
| ScrapeProjects.ProgramCounts | scripts/scrape-projects.ts:163-171 | one count per study program, in order: the number of merged projects listing that program |
| ScrapeProjects.ScrapeProjects | scripts/scrape-projects.ts:34-194 | fails exactly when some study program's response is not OK, with its id and status text; otherwise the snapshot holds the merged records with distinct keys, every teacher seen sorted without repeats, the record count, and per-program counts that add up to the number of program entries of the records written |
| ScrapeProjects.SnapshotPrograms | scripts/scrape-projects.ts:124-140 | every merged record of the study programs' pages lists only study programs, each once |
| ScrapeProjects.CountsSumToMemberships | scripts/scrape-projects.ts:163-171 | the per-program counts add up to the number of (record, study program) memberships |
| ScrapeProjects.MembershipsAreEntries | scripts/scrape-projects.ts:163-171 | when records list only study programs, each once, the memberships equal the number of program entries |
| ScrapeProjects.SnapshotCounts | scripts/scrape-projects.ts:162-171 | every count is at most `totalProjects`, and the counts sum to the number of program entries |
| Selection.Lookup | app/page.tsx:128 | `selected[id]` is true exactly when the entry for `id` is flagged true; an absent key reads as false |
| Selection.SelectedIds | app/page.tsx:34-35 | the selected keys are exactly those flagged true, each once |
| Selection.Toggle | app/page.tsx:112-117 | toggling keeps the keys distinct; an existing key keeps its place and an absent key is appended |
| Selection.ToggleFlipsOne | app/page.tsx:112-117 | toggling negates the toggled program's flag and leaves every other flag unchanged |
| Selection.ToggleTwice | src/App.tsx:109-114 | toggling the same program twice restores every flag |
| StringOrder.LessIrreflexive | lib/projectParser.ts:141 | no string sorts before itself |
| StringOrder.LessTransitive | lib/projectParser.ts:141 | the default sort order is transitive |
| StringOrder.LessTotal | lib/projectParser.ts:141 | any two different strings are ordered one way or the other |
| StringOrder.Insert | lib/projectParser.ts:141 | inserting a new value into a sorted list keeps it strictly ascending, with exactly one value more |
| StringOrder.Sort | lib/projectParser.ts:141 | `Array.from(set).sort()` is strictly ascending and holds exactly the Set's values |
| Summaries.Newest | scripts/generate-summaries.ts:125-130 | the file first after the newest-first sort is a listed file, modified no earlier than any other; it is the first one with that time |
| Summaries.MostRecentSnapshot | scripts/generate-summaries.ts:103-131 | fails, with the "No project data files" message, exactly when no file is a `projects-*.json` snapshot; otherwise returns the most recently modified snapshot |
| Summaries.SummaryFileNameOfSnapshot | scripts/generate-summaries.ts:270-274 | `projects-X.json` is summarised into `summaries-X.json` |
| Summaries.GenerateSummaries | scripts/generate-summaries.ts:182-264 | the batch loop takes slices of at most five, covering every project once and in order; it stores every project's summary by title and counts every project |
| Summaries.SummarizeBatch | scripts/generate-summaries.ts:202-263 | a batch writes each project's summary under its title, in batch order, and counts each project once |
| Summaries.SummariesByTitle | scripts/generate-summaries.ts:241-254 | there is one summary per distinct title, and each holds the summary (or failure text) of the last project with that title |
| Summaries.TotalSummaries | scripts/generate-summaries.ts:288 | `totalSummaries` never exceeds the number of projects |
| SupervisorFilter.FilteredSupervisors | components/SupervisorFilter.tsx:19-21 | keeps exactly the names whose lower-cased form contains the lower-cased term, in their order |
| SupervisorFilter.EmptySearchKeepsAll | components/SupervisorFilter.tsx:19-21 | an empty search keeps every supervisor |
| SupervisorFilter.LongerSearchNarrows | components/SupervisorFilter.tsx:19-21 | extending the search term yields a sub-list of the earlier result |
| SupervisorFilter.SearchIgnoresCase | components/SupervisorFilter.tsx:19-21 | a lower-cased term matches the same names as the term itself |
| SupervisorFilter.HasSelections | components/SupervisorFilter.tsx:23 | the Clear button shows exactly when the selection object has a key |
| SupervisorFilter.ClearShownForUnticked | components/SupervisorFilter.tsx:23 | a key flagged false still shows Clear although nothing is selected |
| SupervisorFilter.IsChecked | components/SupervisorFilter.tsx:64 | a checkbox is checked exactly when the supervisor is selected; absent keys are unchecked |
| Text.TrimStart | lib/projectParser.ts:32 | drops only white space from the front, and leaves a result that starts with no white space |
| Text.TrimEnd | lib/projectParser.ts:32 | drops only white space from the end, and leaves a result that ends with no white space |
| Text.TrimIsInfix | lib/projectParser.ts:32 | `trim` returns a slice of its input |
| Text.TrimUnpadded | lib/projectParser.ts:32 | a trimmed string neither starts nor ends with white space |
| Text.TrimEmptyIff | lib/projectParser.ts:32 | `trim` returns "" exactly when the input is all white space |
| Text.TrimIdempotent | lib/projectParser.ts:32 | trimming twice is trimming once |
| Text.TrimOfUnpadded | lib/projectParser.ts:32 | a string without surrounding white space is its own trim |
| Text.LowerChar | components/SupervisorFilter.tsx:20 | upper-case ASCII letters map to lower-case letters |
| Text.ToLower | components/SupervisorFilter.tsx:20 | `toLowerCase` keeps the length and lowers each character |
| Text.ToLowerIdempotent | components/SupervisorFilter.tsx:20 | lower-casing a lower-cased string changes nothing |
| Text.IndexOf | components/SupervisorFilter.tsx:20 | `indexOf` returns -1 exactly when the pattern does not occur from `from` on; otherwise the first such occurrence |
| Text.ContainsIff | components/SupervisorFilter.tsx:20 | `includes` holds exactly when the pattern occurs at some index |
| Text.ContainsEmpty | components/SupervisorFilter.tsx:20 | every string includes "" |
| Text.SecondSplitPart | lib/projectParser.ts:69 | `split("oid=")[1]` is undefined exactly when the separator does not occur |
| Text.ReplaceFirstPrefix | scripts/generate-summaries.ts:271-274 | replacing a pattern a string starts with swaps that prefix |
| Text.Prefix | lib/projectParser.ts:71 | `substring(0, 12)` is the first 12 characters, or the whole string when it is shorter |
| Text.Repeat | scripts/generate-summaries.ts:63-64 | `c.repeat(n)` is n copies of c |
| Text.NatToString | scripts/generate-summaries.ts:35 | a number prints as a non-empty run of digits |
| Lists.FirstWhere | lib/projectParser.ts:51 | the first matching element is None exactly when nothing matches; otherwise an element that matches |
| Lists.Filter | app/page.tsx:128 | `filter` keeps exactly the elements satisfying the predicate |
| Lists.FilterIsSubList | app/page.tsx:128 | `filter` only deletes elements, keeping the order of the rest |
| Lists.FilterFilter | app/page.tsx:127-134 | filtering by a stronger predicate after a weaker one equals filtering by the stronger alone |
| Lists.FilterKeepsAll | app/page.tsx:129-134 | a predicate every element satisfies keeps the whole list |
| Lists.FilterKeepsNone | app/page.tsx:127-128 | a predicate no element satisfies keeps nothing |
| Lists.FilterSnoc | scripts/scrape-projects.ts:165-167 | filtering a list extended by one element filters that element on its own |
| Lists.Dedup | lib/projectParser.ts:111-116 | `[...new Set(s)]` has no repeats, the same values as `s`, and is no longer |
| Lists.DedupOfNoDup | lib/projectParser.ts:111-116 | a list without repeats is its own deduplication |
| Lists.DedupSnoc | lib/fetchProjects.ts:41 | adding a value to a Set appends it exactly when it is new |
| Lists.DedupAfterNoDup | lib/projectParser.ts:111-116 | deduplicating a repeat-free list followed by more values keeps that list in front |
| Lists.DedupTwice | lib/projectParser.ts:111-116 | deduplicating in two steps equals deduplicating once |
| Lists.Flatten | lib/projectParser.ts:104 | `flat()` holds exactly the values of the inner lists |
| ScriptHelpers.Split | scripts/generate-summaries.ts:32-47 | the three bands: whole seconds below a minute; minutes and seconds (seconds below 60) below an hour; hours and minutes (minutes below 60) above |
| ScriptHelpers.FormatTime | scripts/generate-summaries.ts:32-47 | a formatted time is never empty |
| ScriptHelpers.FormatZero | scripts/generate-summaries.ts:34-35 | no time formats as "0s" |
| ScriptHelpers.Eta | scripts/generate-summaries.ts:49-58 | "calculating..." before the first item, and "0s" once every item is done |
| ScriptHelpers.Scaled | scripts/generate-summaries.ts:61-62 | the floored fraction stays within the scale while `current` stays within `total`, and reaches it at `total` |
| ScriptHelpers.ScaledBounds | scripts/generate-summaries.ts:61-62 | `current * scale / total` lies within the scale while `current` stays within `total`, and equals it at `total` |
| ScriptHelpers.Render | scripts/generate-summaries.ts:60-64 | for 0 ≤ current ≤ total the bar has exactly 30 cells and the percentage lies in 0..100; at the end the bar is full and the percentage 100; `repeat` throws exactly when the bar overflows |
| ScriptHelpers.AfterTag | scripts/generate-summaries.ts:209 | a tag ends at the next '>', or runs to the end of the string |
| ScriptHelpers.StripTags | scripts/generate-summaries.ts:209-210 | the stripped text contains no '<' and only characters of the input |
| ScriptHelpers.StripTagsNoTags | scripts/generate-summaries.ts:209-210 | text without '<' passes through unchanged |
| ScriptHelpers.StripTagsIdempotent | scripts/generate-summaries.ts:209-210 | stripping twice is stripping once |
| ScriptHelpers.Combine | scripts/generate-summaries.ts:213-216 | "\n\n" appears only between two non-empty parts; otherwise the result is the non-empty part |
| ScriptHelpers.CleanDescription | scripts/generate-summaries.ts:205-216 | the description sent to the model has no '<' and is the cleaned parts joined by "\n\n" only when both are non-empty |
| Titles.BatchSizeOf | scripts/generate-titles.ts:184-186 | without `BATCH_SIZE` the batch size is 5 |
| Titles.Entry | scripts/generate-titles.ts:240-256 | a result keeps the original title; a failed call gives "Failed to generate improved title." |
| Titles.BatchResults | scripts/generate-titles.ts:201-260 | `Promise.all` yields, in batch order, each project's id with its result |
| Titles.StoreResults | scripts/generate-titles.ts:263-268 | the results are written into `titles` one after another |
| Titles.GenerateTitles | scripts/generate-titles.ts:193-273 | with a positive batch size the batches cover every project once and in order; `titles` holds each project's result by id and `completedCount` ends equal to the number of projects |
| Titles.TitlesById | scripts/generate-titles.ts:263-268 | there is one entry per distinct id, and a later project with the same id overwrites an earlier one |
| Titles.ColonsDashed | scripts/generate-titles.ts:281 | every ':' becomes '-' and nothing else changes |
| Titles.FirstIndex | scripts/generate-titles.ts:282 | the first index of a character, or -1 exactly when it is absent |
| Titles.CutFraction | scripts/generate-titles.ts:282 | removes everything from the first '.' on, unless that '.' is the last character |
| Titles.Timestamp | scripts/generate-titles.ts:279-282 | the file timestamp has no ':' and is a prefix of the dashed ISO time |
| Titles.TimestampOfIso | scripts/generate-titles.ts:279-286 | an ISO time keeps everything before its fraction of a second, colons dashed |
| Batching.Slice | scripts/generate-titles.ts:195 | `slice(i, i + size)` is the next `size` items, or the rest when fewer remain |
| Batching.TilesSnoc | scripts/generate-titles.ts:194-195 | one more slice extends a cover of the items by the next non-empty batch of at most `size` |
| Batching.LastWinsLookup | scripts/generate-summaries.ts:241 | keyed writes leave one entry per distinct key, holding the value of the last item with that key |
| Batching.WritesPairs | scripts/generate-titles.ts:263-268 | writing a batch's pairs continues the record of the items before it |
| Batching.LastWinsSize | scripts/generate-summaries.ts:288 | the record has at most one key per item |
| Elo.Round | app/elo/page.tsx:55-56 | `Math.round` gives the integer within one half of its argument, halves up |
| Elo.Expected | app/elo/page.tsx:36-37 | the expected score lies strictly between 0 and 1, and is one half for equal ratings |
| Elo.EloBounds | app/elo/page.tsx:33-56 | a winner never loses points and a loser never gains any; neither moves by more than 32; a draw moves each side by at most 16 |
| Elo.EqualRatings | app/elo/page.tsx:33-56 | between equal ratings a draw changes nothing, and a win moves 16 points from loser to winner |
| Elo.FirstWin | app/elo/page.tsx:33-56 | two new projects at 1000/1000 become 1016/984 when A wins |
| Elo.SwapSymmetry | app/elo/page.tsx:36-56 | `calculateElo(b, a, "B")` is `calculateElo(a, b, "A")` swapped, and likewise for a draw |
| Elo.PointsConserved | app/elo/page.tsx:36-56 | when `10 ** -x` is `1 / 10 ** x`, the sum of the two ratings grows by at most the one point rounding adds |
| Elo.ExpectedSum | app/elo/page.tsx:36-37 | the two expected scores add up to one |
| Elo.ReadRating | app/elo/page.tsx:208-209 | a missing or zero rating reads as 1000, any other as stored |
| Elo.HandleSelection | app/elo/page.tsx:205-226 | nothing happens unless both sides are shown; otherwise exactly the two shown titles get their new ratings, `comparisonCount` goes up by one, and all other ratings stay |
| Elo.SelectionRewardsWinner | app/elo/page.tsx:205-226 | recording an A win raises A's rating by at most 32 and lowers B's by at most 32 |
| Elo.FavoriteProjects | app/elo/page.tsx:92-94 | keeps exactly the projects whose titles are favourites, in order |
| Elo.InitRatings | app/elo/page.tsx:180-188 | every favourite title without a rating gets 1000, existing ratings are untouched, and `hasChanges` says whether any title was added |
| Elo.InitEffect | app/elo/page.tsx:178-195 | ratings gain exactly the unrated favourite titles at 1000; existing ratings and `comparisonCount` are untouched |
| Elo.Unfavorite | app/elo/page.tsx:99-101 | every occurrence of the title goes; every other favourite stays, in order |
| Elo.UnfavoriteAbsent | app/elo/page.tsx:99-101 | unfavouring a title that is not a favourite changes nothing |
| Elo.WithRatings | app/elo/page.tsx:119-122 | each favourite is paired with its rating as read by `|| 1000` |
| Elo.InsertDescending | app/elo/page.tsx:125-127 | inserting into a descending list keeps it descending and adds exactly the one entry |
| Elo.SortDescending | app/elo/page.tsx:233-238 | the sort is a permutation of its input, ordered by rating non-increasing |
| Elo.Ranked | app/elo/page.tsx:233-238 | the leaderboard is ordered by rating, highest first, and is a permutation of the rated favourites |
| Elo.RankedEntries | app/elo/page.tsx:233-238 | every leaderboard entry is a favourite with its rating, and every favourite is on the leaderboard |
| Elo.CumulativeMonotone | app/elo/page.tsx:133-139 | the running sums of the positive weights are non-negative and never decrease |
| Elo.LastSelectable | app/elo/page.tsx:133-155 | when some rank can be picked, the total weight is positive and the last pickable rank's running sum reaches it |
| Elo.DrawBelowTotal | app/elo/page.tsx:141 | a draw below one times a positive total stays below the total |
| Elo.ReachingRank | app/elo/page.tsx:141-155 | when some rank can be picked, some pickable rank's running sum exceeds the drawn value |
| Elo.PassedOverAll | app/elo/page.tsx:141-155 | the walk can pass over every rank only when no rank can be picked |
| Elo.PickFrom | app/elo/page.tsx:145-155 | the walk from rank `i` stops at the first non-excluded rank from `i` on whose running weight reaches the target, or gives 0 when it passes every rank |
| Elo.Pick | app/elo/page.tsx:130-161 | when some rank can be picked, the pick is in range, not excluded, and the first rank whose running weight reaches the drawn share of the total; otherwise rank 0 |
| Elo.WalkWeights | app/elo/page.tsx:141-155 | the walk stops at the first non-excluded rank whose running weight reaches the target, having passed every earlier one |
| Elo.SelectWithBias | app/elo/page.tsx:130-161 | the pick is the rank Elo.Pick defines for the draw: whenever a rank can be picked, it is in range, not the excluded rank, and the first rank whose running weight reaches the drawn value; the fallback to rank 0 is left only when no rank can be picked |
| Elo.SelectRandomProjects | app/elo/page.tsx:115-171 | no pair with fewer than two favourites; otherwise the first project is the leaderboard rank picked with `draw1`, and the second is the rank picked with `draw2` with the first excluded, so the two ranks differ; with two favourites, both of them in either order |

## Left out

- HTTP: `fetch`, the relay route, the `s=` sort parameter and response bodies are the parameter `respond`. The DOM, `DOMParser`/`JSDOM` and CSS selector matching are the `Container` datatype.
- A container is read through its first `.status` element. The source's `.status a` and `.status i` selectors would also search later `.status` elements; that case is not modelled.
- Ids that the source draws at random (`crypto.randomUUID()`, `Math.random().toString(36)`) are the parameter `token`. Base64 is the parameter `encode`.
- FetchProjects.FetchPages: `Promise.all` rejects with the first failure in time. The model reports the first failing program in selection order.
- ScrapeProjects.ScrapeProjects: `Promise.all` reports the first failure in time; the model reports the first failing study program in list order. Console output, `mkdir`, the JSON write, `scrapedAt` and `process.exit(1)` are left out; the exit is the `Failure` result.
- `mergeProjectsFromPrograms` and the inline merge loops overwrite `programs` on the very objects they received. The model works on values, so that aliasing is not captured.
- Elo: `10 **`, `Math.pow(k, 1.5)` and `Math.random()` are parameters. Rounding is `floor(x + 1/2)` over exact reals, and floating-point error is not modelled; that error is the only way to reach the rank-0 fallback of `selectWithBias`.
- Elo.SortDescending: proves the leaderboard is ordered and a permutation, but does not state that ties keep their input order as the stable `sort` does.
- Elo.InitEffect: the effect's call to `selectRandomProjects` when no pair is shown is not part of this member; the pair choice is `Elo.SelectRandomProjects`.
- `handleUnfavorite`'s toast and its new pair choice, `resetElo`, `getProgramName`, and the React, jotai and localStorage state plumbing are left out. The rating state is a value passed in and out.
- The stale closure in the `src/App.tsx` filter effect, which refetches and filters the previous `projects`, is left out. The filter is modelled on the projects it is given.
- ScriptHelpers.Scaled, ScriptHelpers.Render: the fill and the percentage are computed over exact integers as `current * scale / total`, rounded down. The source computes `Math.floor((current / total) * 100)` in binary floating point. There, 29 of 100 prints 28 because `0.29 * 100` is `28.999999999999996`, while the model gives 29. The bounds stated for both members hold in either reading.
- Text.IsSpace and Text.LowerChar fix a character model. `trim` removes the ECMAScript white-space and line-terminator characters. `toLowerCase` lowers ASCII and Latin-1 capitals only.
- StringOrder.Less compares code points, whereas JavaScript compares UTF-16 code units; the two differ only above U+FFFF.
- Summaries.SummarizeBatch: writes a batch's summaries in batch order. In the source the calls of a batch finish in any order. For two projects with the same title in one batch, the surviving summary is whichever call finishes last.
- Titles.GenerateTitles: requires a positive batch size. With `BATCH_SIZE` set to 0 the source loops forever, and with a negative or non-numeric value its loop behaves differently; neither is modelled.
- The AI scripts: the prompts, the model provider and `generateText` are the parameter `reply`. The 100 ms delay, console and progress-bar printing, `Date.now` (the parameters `elapsedMs` and `now`), `dotenv` and `process.exit` are left out. The JSON output fields other than the modelled records and counts are also left out.
- Summaries.MostRecentSnapshot: the missing-`data`-directory error, `path.join` and `fs.statSync` are not modelled. The listing and the modification times are parameters.
- Missing JSON fields (`|| ""` on `shortDescription`, `fullDescription` and `title` in the AI scripts) are not modelled: every record field is a string.
