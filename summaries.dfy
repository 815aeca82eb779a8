/** scripts/generate-summaries.ts: pick the newest `projects-*.json`
    snapshot, ask the language model for a summary of every project in
    batches of five, and name the output file after the input. The model is
    the parameter `reply`, from the title and cleaned description the
    prompt carries to the reply text, or None when the call throws. */
module Summaries {

  import opened Wrappers
  import opened Text
  import opened Lists
  import opened Records
  import opened Batching
  import opened ScriptHelpers

  const BatchSize: nat := 5
  const FailedSummary := "Failed to generate summary."
  const NoSnapshot := "No project data files found. Please run scrape-projects.ts first."

  /** A snapshot file name: "projects-" ... ".json". */
  predicate IsSnapshotFile(file: string) {
    StartsWith(file, "projects-") && EndsWith(file, ".json")
  }

  /** The first of the files with the latest modification time, as the
      stable newest-first sort puts it at index 0. */
  function Newest(files: seq<string>, mtime: string -> int): (r: string)
    requires files != []
    ensures r in files
    ensures forall f :: f in files ==> mtime(f) <= mtime(r)
    ensures exists k :: 0 <= k < |files| && files[k] == r && forall i :: 0 <= i < k ==> mtime(files[i]) < mtime(r)
  {
    if |files| == 1 then files[0]
    else
      var best := Newest(files[1..], mtime);
      if mtime(best) > mtime(files[0]) then
        NewestShifts(files, mtime, best);
        best
      else
        files[0]
  }

  /** A file first reaching its time in the tail, and later than the head,
      first reaches it in the whole list too. */
  lemma NewestShifts(files: seq<string>, mtime: string -> int, best: string)
    requires |files| > 1 && mtime(best) > mtime(files[0])
    requires exists k :: 0 <= k < |files[1..]| && files[1..][k] == best && forall i :: 0 <= i < k ==> mtime(files[1..][i]) < mtime(best)
    ensures exists k :: 0 <= k < |files| && files[k] == best && forall i :: 0 <= i < k ==> mtime(files[i]) < mtime(best)
  {
    var k :| 0 <= k < |files[1..]| && files[1..][k] == best && forall i :: 0 <= i < k ==> mtime(files[1..][i]) < mtime(best);
    assert files[k + 1] == best;
    forall i | 0 <= i < k + 1 ensures mtime(files[i]) < mtime(best) {
      if i > 0 {
        assert files[i] == files[1..][i - 1];
      }
    }
  }

  /** `getMostRecentProjectsFile()` over the directory listing `files`
      and their modification times. */
  function MostRecentSnapshot(files: seq<string>, mtime: string -> int): (r: Result<string>)
    ensures r.Failure? <==> forall f :: f in files ==> !IsSnapshotFile(f)
    ensures r.Failure? ==> r.error == NoSnapshot
    ensures r.Success? ==>
      && r.value in files && IsSnapshotFile(r.value)
      && forall f :: f in files && IsSnapshotFile(f) ==> mtime(f) <= mtime(r.value)
  {
    var candidates := Filter(files, IsSnapshotFile);
    if candidates == [] then Failure(NoSnapshot) else Success(Newest(candidates, mtime))
  }

  /** `inputFilename.replace("projects-", "summaries-")`. */
  function SummaryFileName(input: string): string {
    ReplaceFirst(input, "projects-", "summaries-")
  }

  /** A snapshot `projects-X.json` is summarised into `summaries-X.json`. */
  lemma SummaryFileNameOfSnapshot(input: string)
    requires IsSnapshotFile(input)
    ensures SummaryFileName(input) == "summaries-" + input[9..]
    ensures StartsWith(SummaryFileName(input), "summaries-") && EndsWith(SummaryFileName(input), ".json")
  {
    ReplaceFirstPrefix(input, "projects-", "summaries-");
    var r := SummaryFileName(input);
    assert r[|r| - 5..] == input[|input| - 5..];
  }

  /** The stored summary: the trimmed reply, or the failure text. */
  function Summary(reply: ((string, string)) -> Option<string>, p: Project): string {
    match reply(PromptFields(p))
    case Some(text) => Trim(text)
    case None => FailedSummary
  }

  /** The key summaries are stored under. */
  function TitleOf(p: Project): string {
    p.title
  }

  function SummaryWith(reply: ((string, string)) -> Option<string>): Project -> string {
    (p: Project) => Summary(reply, p)
  }

  /** `summaries[project.title] = ...` for every project in order. */
  function SummariesOf(projects: seq<Project>, reply: ((string, string)) -> Option<string>): map<string, string> {
    LastWins(projects, TitleOf, SummaryWith(reply))
  }

  /** The batch loop of `generateSummaries()`: slices of five, each project
      summarised and counted once. The projects of one batch are taken in
      order. */
  method GenerateSummaries(projects: seq<Project>, reply: ((string, string)) -> Option<string>)
    returns (summaries: map<string, string>, completedCount: nat, ghost batches: seq<seq<Project>>)
    ensures summaries == SummariesOf(projects, reply)
    ensures completedCount == |projects|
    ensures Tiles(batches, projects, BatchSize)
  {
    summaries, completedCount, batches := map[], 0, [];
    ghost var done := 0;
    var i := 0;
    while i < |projects|
      invariant done <= |projects|
      invariant i <= |projects| ==> done == i
      invariant i > |projects| ==> done == |projects|
      invariant Tiles(batches, projects[..done], BatchSize)
      invariant summaries == SummariesOf(projects[..done], reply)
      invariant completedCount == done
    {
      var batch := Slice(projects, i, BatchSize);
      TilesSnoc(batches, projects, i, BatchSize);
      WritesPairs(projects[..i], batch, TitleOf, SummaryWith(reply));
      assert projects[..i] + batch == projects[..i + |batch|];
      summaries, completedCount := SummarizeBatch(batch, SummaryWith(reply), summaries, completedCount);
      batches := batches + [batch];
      done := i + |batch|;
      assert projects[..done] == projects[..i + |batch|];
      i := i + BatchSize;
    }
    assert projects[..|projects|] == projects;
  }

  /** One batch: every project of it summarised with `summarize`, stored
      under its title and counted. */
  method SummarizeBatch(batch: seq<Project>, summarize: Project -> string,
                        summaries0: map<string, string>, count0: nat)
    returns (summaries: map<string, string>, completedCount: nat)
    ensures summaries == Writes(summaries0, Pairs(batch, TitleOf, summarize))
    ensures completedCount == count0 + |batch|
  {
    ghost var pairs := Pairs(batch, TitleOf, summarize);
    summaries, completedCount := summaries0, count0;
    var j := 0;
    while j < |batch|
      invariant 0 <= j <= |batch|
      invariant summaries == Writes(summaries0, pairs[..j])
      invariant completedCount == count0 + j
    {
      var project := batch[j];
      assert pairs[..j + 1][..j] == pairs[..j];
      summaries := summaries[project.title := summarize(project)];
      completedCount := completedCount + 1;
      j := j + 1;
    }
    assert pairs[..j] == pairs;
  }

  /** There is one summary per distinct title, and each title holds the
      summary of its last project. */
  lemma SummariesByTitle(projects: seq<Project>, reply: ((string, string)) -> Option<string>)
    ensures SummariesOf(projects, reply).Keys == set p | p in projects :: p.title
    ensures forall j :: 0 <= j < |projects| && (forall k :: j < k < |projects| ==> projects[k].title != projects[j].title) ==>
      SummariesOf(projects, reply)[projects[j].title] == Summary(reply, projects[j])
  {
    LastWinsLookup(projects, TitleOf, SummaryWith(reply));
  }

  /** `totalSummaries`, the number of keys written, never exceeds the
      number of projects; it falls short when titles repeat. */
  lemma TotalSummaries(projects: seq<Project>, reply: ((string, string)) -> Option<string>)
    ensures |SummariesOf(projects, reply).Keys| <= |projects|
  {
    LastWinsSize(projects, TitleOf, SummaryWith(reply));
  }
}
