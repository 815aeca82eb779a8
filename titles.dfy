/** scripts/generate-titles.ts: ask the language model for a better title
    of every project in batches, store the answers by project id, and name
    the output file after the current time. The model is the parameter
    `reply`, from the title and cleaned description the prompt carries to
    the reply text, or None when the call throws. */
module Titles {

  import opened Wrappers
  import opened Text
  import opened Lists
  import opened Records
  import opened Batching
  import opened ScriptHelpers

  const DefaultBatchSize: int := 5
  const FailedTitle := "Failed to generate improved title."

  /** `BATCH_SIZE ? parseInt(BATCH_SIZE) : 5`, with `configured` the parsed
      value when the variable is set. */
  function BatchSizeOf(configured: Option<int>): (r: int)
    ensures configured.None? ==> r == DefaultBatchSize
  {
    match configured
    case None => DefaultBatchSize
    case Some(n) => n
  }

  /** One entry of the `titles` record. */
  datatype TitleEntry = TitleEntry(originalTitle: string, improvedTitle: string)

  /** One project's result: its title and the trimmed reply, or the
      failure text. */
  function Entry(reply: ((string, string)) -> Option<string>, p: Project): (e: TitleEntry)
    ensures e.originalTitle == p.title
    ensures reply(PromptFields(p)).None? ==> e.improvedTitle == FailedTitle
  {
    match reply(PromptFields(p))
    case Some(text) => TitleEntry(p.title, Trim(text))
    case None => TitleEntry(p.title, FailedTitle)
  }

  /** The key titles are stored under. */
  function IdOf(p: Project): string {
    p.id
  }

  function EntryWith(reply: ((string, string)) -> Option<string>): Project -> TitleEntry {
    (p: Project) => Entry(reply, p)
  }

  /** `titles[result.id] = ...` for every project in order. */
  function TitlesOf(projects: seq<Project>, reply: ((string, string)) -> Option<string>): map<string, TitleEntry> {
    LastWins(projects, IdOf, EntryWith(reply))
  }

  /** The batch loop of `generateTitles()`: slices of `batchSize`, each
      project's result stored once and counted once. */
  method GenerateTitles(projects: seq<Project>, batchSize: nat, reply: ((string, string)) -> Option<string>)
    returns (titles: map<string, TitleEntry>, completedCount: nat, ghost batches: seq<seq<Project>>)
    requires batchSize > 0
    ensures titles == TitlesOf(projects, reply)
    ensures completedCount == |projects|
    ensures Tiles(batches, projects, batchSize)
  {
    titles, completedCount, batches := map[], 0, [];
    ghost var done := 0;
    var i := 0;
    while i < |projects|
      invariant 0 <= i && done <= |projects|
      invariant i <= |projects| ==> done == i
      invariant i > |projects| ==> done == |projects|
      invariant Tiles(batches, projects[..done], batchSize)
      invariant titles == TitlesOf(projects[..done], reply)
      invariant completedCount == done
    {
      var batch := Slice(projects, i, batchSize);
      TilesSnoc(batches, projects, i, batchSize);
      var results := BatchResults(batch, reply);
      WritesPairs(projects[..i], batch, IdOf, EntryWith(reply));
      assert projects[..i] + batch == projects[..i + |batch|];
      titles := StoreResults(results, titles);
      completedCount := completedCount + |batch|;
      batches := batches + [batch];
      done := i + |batch|;
      assert projects[..done] == projects[..i + |batch|];
      i := i + batchSize;
    }
    assert projects[..|projects|] == projects;
  }

  /** `Promise.all(batch.map(...))`: the results in batch order. */
  function BatchResults(batch: seq<Project>, reply: ((string, string)) -> Option<string>): (r: seq<(string, TitleEntry)>)
    ensures |r| == |batch|
    ensures forall k :: 0 <= k < |batch| ==> r[k] == (batch[k].id, Entry(reply, batch[k]))
  {
    Pairs(batch, IdOf, EntryWith(reply))
  }

  /** The `for (const result of batchResults)` loop. */
  method StoreResults(results: seq<(string, TitleEntry)>, titles0: map<string, TitleEntry>)
    returns (titles: map<string, TitleEntry>)
    ensures titles == Writes(titles0, results)
  {
    titles := titles0;
    var k := 0;
    while k < |results|
      invariant 0 <= k <= |results|
      invariant titles == Writes(titles0, results[..k])
    {
      assert results[..k + 1][..k] == results[..k];
      titles := titles[results[k].0 := results[k].1];
      k := k + 1;
    }
    assert results[..k] == results;
  }

  /** There is one entry per distinct id, and a later project with the same
      id overwrites an earlier one. */
  lemma TitlesById(projects: seq<Project>, reply: ((string, string)) -> Option<string>)
    ensures TitlesOf(projects, reply).Keys == set p | p in projects :: p.id
    ensures forall j :: 0 <= j < |projects| && (forall k :: j < k < |projects| ==> projects[k].id != projects[j].id) ==>
      TitlesOf(projects, reply)[projects[j].id] == Entry(reply, projects[j])
  {
    LastWinsLookup(projects, IdOf, EntryWith(reply));
  }

  // ---------------------------------------------------------------------
  // The output file name

  /** `.replace(/:/g, "-")`. */
  function ColonsDashed(s: string): (r: string)
    ensures |r| == |s| && ':' !in r
    ensures forall i :: 0 <= i < |s| ==> r[i] == if s[i] == ':' then '-' else s[i]
  {
    seq(|s|, i requires 0 <= i < |s| => if s[i] == ':' then '-' else s[i])
  }

  /** The index of the first `c` in `s`, or -1. */
  function FirstIndex(s: string, c: char): (r: int)
    ensures r == -1 <==> c !in s
    ensures r != -1 ==> 0 <= r < |s| && s[r] == c && c !in s[..r]
  {
    if s == [] then -1
    else if s[0] == c then 0
    else
      var r := FirstIndex(s[1..], c);
      assert s[1..] == s[1..][..|s[1..]|];
      if r == -1 then -1
      else
        assert s[..r + 1] == [s[0]] + s[1..][..r];
        r + 1
  }

  /** `.replace(/\..+/, "")` on a string without line terminators, such as
      an ISO time: from the first '.' on, provided at least one character
      follows it, everything goes. (A regex `.` does not match a line
      terminator, so on other strings the source can keep more.) */
  function CutFraction(s: string): (r: string)
    ensures |r| <= |s| && r == s[..|r|]
    ensures '.' !in r || r == s
    ensures r == s <==> '.' !in s || FirstIndex(s, '.') == |s| - 1
  {
    var p := FirstIndex(s, '.');
    if p != -1 && p < |s| - 1 then s[..p] else s
  }

  /** The timestamp of `titles-${timestamp}.json`, from the ISO time. */
  function Timestamp(iso: string): (r: string)
    ensures ':' !in r
    ensures |r| <= |iso| && r == ColonsDashed(iso)[..|r|]
  {
    CutFraction(ColonsDashed(iso))
  }

  /** An ISO time keeps everything before its fraction of a second:
      "2025-03-01T12:34:56.789Z" becomes "2025-03-01T12-34-56". */
  lemma TimestampOfIso(whole: string, fraction: string)
    requires '.' !in whole && fraction != []
    ensures Timestamp(whole + "." + fraction) == ColonsDashed(whole)
  {
    var iso := whole + "." + fraction;
    var d := ColonsDashed(iso);
    var n := |whole|;
    assert d[n] == '.';
    assert d[..n] == ColonsDashed(whole);
    FirstIndexAt(d, '.', n);
  }

  /** The first `c` is at `n` when `s[n]` is `c` and none comes before. */
  lemma FirstIndexAt(s: string, c: char, n: nat)
    requires n < |s| && s[n] == c && c !in s[..n]
    ensures FirstIndex(s, c) == n
  {
    assert s[n] in s;
    var p := FirstIndex(s, c);
    assert forall k :: 0 <= k < n ==> s[..n][k] == s[k];
    assert forall k :: 0 <= k < p ==> s[..p][k] == s[k];
  }

  function TitlesFileName(iso: string): string {
    "titles-" + Timestamp(iso) + ".json"
  }
}
