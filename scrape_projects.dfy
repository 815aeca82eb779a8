/** scripts/scrape-projects.ts: query the catalog for the four study
    programs, stop when any response is not OK, otherwise extract and merge
    the records (ids fall back to a deterministic encoding of title and
    teacher), and describe the snapshot that is written to disk. */
module ScrapeProjects {

  import opened Wrappers
  import opened Lists
  import opened StringOrder
  import opened Records
  import opened Extraction
  import opened Merge
  import opened Collect

  /** An HTTP response: `ok`, `statusText`, and the page's containers. */
  datatype ScrapeResponse = ScrapeResponse(ok: bool, statusText: string, containers: seq<Container>)

  /** The JSON snapshot: the file name under `data/`, the records, the
      sorted teachers, the record count and the per-program counts. */
  datatype Snapshot = Snapshot(
    fileName: string,
    projects: seq<Project>,
    supervisors: seq<string>,
    totalProjects: nat,
    programCounts: seq<(string, nat)>)

  /** `new Date().toISOString().replace(/[:.]/g, "-")`: every ':' and '.'
      becomes '-'. */
  function Dashed(s: string): (r: string)
    ensures |r| == |s|
    ensures forall i :: 0 <= i < |s| ==> r[i] == if s[i] == ':' || s[i] == '.' then '-' else s[i]
    ensures ':' !in r && '.' !in r
  {
    seq(|s|, i requires 0 <= i < |s| => if s[i] == ':' || s[i] == '.' then '-' else s[i])
  }

  /** `projects-${timestamp}.json`. */
  function SnapshotName(now: string): (r: string)
    ensures |r| == |now| + 14
    ensures r[..9] == "projects-" && r[|r| - 5..] == ".json"
  {
    "projects-" + Dashed(now) + ".json"
  }

  /** The scraped pages of the study programs, in order. */
  function ScrapedPages(respond: string -> ScrapeResponse): (r: seq<ProgramPage>)
    ensures |r| == |StudyPrograms|
    ensures forall i :: 0 <= i < |StudyPrograms| ==> r[i].programId == StudyPrograms[i]
  {
    PagesOf(StudyPrograms, (id: string) => respond(id).containers)
  }

  /** No random tokens are drawn: every id falls back to the encoding. */
  function NoToken(pi: nat, n: nat): string { "" }

  /** `p => p.programs.includes(id)`. */
  function ListsProgram(id: string): Project -> bool {
    (p: Project) => id in p.programs
  }

  /** `allProjects.filter(p => p.programs.includes(id)).length`. */
  function ProgramCount(projects: seq<Project>, id: string): (r: nat)
    ensures r <= |projects|
  {
    |Filter(projects, ListsProgram(id))|
  }

  /** The `programCounts` reduce: one entry per study program, in order. */
  method ProgramCounts(projects: seq<Project>, ids: seq<string>) returns (counts: seq<(string, nat)>)
    ensures |counts| == |ids|
    ensures forall i :: 0 <= i < |ids| ==> counts[i] == (ids[i], ProgramCount(projects, ids[i]))
  {
    counts := [];
    var i := 0;
    while i < |ids|
      invariant 0 <= i <= |ids|
      invariant |counts| == i
      invariant forall j :: 0 <= j < i ==> counts[j] == (ids[j], ProgramCount(projects, ids[j]))
    {
      counts := counts + [(ids[i], |Filter(projects, ListsProgram(ids[i]))|)];
      i := i + 1;
    }
  }

  /** `scrapeProjects()`: the snapshot, or the error that ends the process
      with status 1. `encode` stands for base64, `now` for the ISO time. */
  method ScrapeProjects(respond: string -> ScrapeResponse, encode: string -> string, now: string)
    returns (r: Result<Snapshot>)
    ensures r.Failure? <==> exists i :: 0 <= i < |StudyPrograms| && !respond(StudyPrograms[i]).ok
    ensures r.Failure? ==>
      exists i :: 0 <= i < |StudyPrograms| && !respond(StudyPrograms[i]).ok
                  && r.error == "Failed to fetch " + StudyPrograms[i] + ": " + respond(StudyPrograms[i]).statusText
    ensures r.Success? ==>
      var all := AllRecords(ScrapedPages(respond), Extractor(ScraperRules(encode)), NoToken);
      && r.value.fileName == SnapshotName(now)
      && r.value.projects == Merged(all)
      && NoDup(Keys(r.value.projects))
      && StrictlyAscending(r.value.supervisors)
      && (forall t :: t in r.value.supervisors <==> t in TeacherSeq(all))
      && r.value.totalProjects == |r.value.projects|
      && |r.value.programCounts| == |StudyPrograms|
      && (forall i :: 0 <= i < |StudyPrograms| ==>
           r.value.programCounts[i] == (StudyPrograms[i], ProgramCount(r.value.projects, StudyPrograms[i])))
      && SumCounts(r.value.projects, StudyPrograms) == ProgramEntries(r.value.projects)
  {
    var pages: seq<ProgramPage> := [];
    var i := 0;
    while i < |StudyPrograms|
      invariant 0 <= i <= |StudyPrograms|
      invariant forall j :: 0 <= j < i ==> respond(StudyPrograms[j]).ok
      invariant pages == ScrapedPages(respond)[..i]
    {
      var id := StudyPrograms[i];
      var response := respond(id);
      if !response.ok {
        return Failure("Failed to fetch " + id + ": " + response.statusText);
      }
      pages := pages + [ProgramPage(id, response.containers)];
      i := i + 1;
    }
    assert pages == ScrapedPages(respond);
    var allProjects, supervisors := CollectProjects(pages, Extractor(ScraperRules(encode)), NoToken);
    var all := AllRecords(pages, Extractor(ScraperRules(encode)), NoToken);
    MergedDistinct(all);
    ExtractorKeepsProgram(ScraperRules(encode));
    SnapshotPrograms(pages, Extractor(ScraperRules(encode)));
    var counts := ProgramCounts(allProjects, StudyPrograms);
    SnapshotCounts(allProjects);
    r := Success(Snapshot(SnapshotName(now), allProjects, Sort(supervisors), |allProjects|, counts));
  }

  /** Every merged record of the study programs' pages lists study
      programs only, each once. */
  lemma SnapshotPrograms(pages: seq<ProgramPage>, extract: (Container, string, string) -> Project)
    requires KeepsProgram(extract)
    requires forall i :: 0 <= i < |pages| ==> pages[i].programId in StudyPrograms
    ensures forall p :: p in Merged(AllRecords(pages, extract, NoToken)) ==>
      NoDup(p.programs) && forall x :: x in p.programs ==> x in StudyPrograms
  {
    var all := AllRecords(pages, extract, NoToken);
    AllRecordsPrograms(pages, extract, NoToken);
    assert forall i :: 0 <= i < |all| ==> all[i] in all;
    MergedProgramsNoDup(all);
    CollectedProgramsWithin(pages, extract, NoToken, set x | x in StudyPrograms);
  }

  // ---------------------------------------------------------------------
  // The program counts

  /** The sum of the counts of `ids`. */
  function SumCounts(projects: seq<Project>, ids: seq<string>): nat {
    if ids == [] then 0
    else SumCounts(projects, ids[..|ids| - 1]) + ProgramCount(projects, ids[|ids| - 1])
  }

  /** How many of `ids` one program list names. */
  function Matches(programs: seq<string>, ids: seq<string>): nat {
    if ids == [] then 0
    else Matches(programs, ids[..|ids| - 1]) + (if ids[|ids| - 1] in programs then 1 else 0)
  }

  /** The memberships of `ids` over all records. */
  function Memberships(projects: seq<Project>, ids: seq<string>): nat {
    if projects == [] then 0
    else Memberships(projects[..|projects| - 1], ids) + Matches(projects[|projects| - 1].programs, ids)
  }

  lemma ProgramCountSnoc(projects: seq<Project>, p: Project, id: string)
    ensures ProgramCount(projects + [p], id) == ProgramCount(projects, id) + (if id in p.programs then 1 else 0)
  {
    FilterSnoc(projects, p, ListsProgram(id));
  }

  lemma {:induction false} SumCountsSnoc(projects: seq<Project>, p: Project, ids: seq<string>)
    ensures SumCounts(projects + [p], ids) == SumCounts(projects, ids) + Matches(p.programs, ids)
  {
    if ids != [] {
      SumCountsSnoc(projects, p, ids[..|ids| - 1]);
      ProgramCountSnoc(projects, p, ids[|ids| - 1]);
    }
  }

  /** Counting by program and counting by record agree: the counts add up
      to the number of (record, study program) memberships. */
  lemma {:induction false} CountsSumToMemberships(projects: seq<Project>, ids: seq<string>)
    ensures SumCounts(projects, ids) == Memberships(projects, ids)
  {
    if projects == [] {
      ZeroCounts(ids);
    } else {
      var init, last := projects[..|projects| - 1], projects[|projects| - 1];
      CountsSumToMemberships(init, ids);
      assert projects == init + [last];
      SumCountsSnoc(init, last, ids);
    }
  }

  lemma {:induction false} ZeroCounts(ids: seq<string>)
    ensures SumCounts([], ids) == 0
  {
    if ids != [] {
      ZeroCounts(ids[..|ids| - 1]);
    }
  }

  /** A record that names only study programs, each once, has as many
      memberships as programs. */
  lemma {:induction false} MatchesOfSubset(programs: seq<string>, ids: seq<string>)
    requires NoDup(ids) && NoDup(programs)
    requires forall x :: x in programs ==> x in ids
    ensures Matches(programs, ids) == |programs|
    decreases |ids|
  {
    if ids == [] {
      HeadIn(programs);
    } else {
      var init, last := ids[..|ids| - 1], ids[|ids| - 1];
      if last in programs {
        var k :| 0 <= k < |programs| && programs[k] == last;
        var rest := programs[..k] + programs[k + 1..];
        RemoveOne(programs, k);
        forall x | x in rest ensures x in init {
          assert x in ids && x != last;
        }
        MatchesOfSubset(rest, init);
        MatchesSame(programs, rest, init);
      } else {
        forall x | x in programs ensures x in init {
          assert x in ids && x != last;
        }
        MatchesOfSubset(programs, init);
      }
    }
  }

  lemma HeadIn(s: seq<string>)
    ensures s != [] ==> s[0] in s
  {
  }

  /** Deleting one entry of a list without repeats removes exactly that value. */
  lemma RemoveOne(programs: seq<string>, k: nat)
    requires NoDup(programs) && k < |programs|
    ensures var rest := programs[..k] + programs[k + 1..];
      && NoDup(rest) && |rest| == |programs| - 1
      && forall x :: x in rest <==> x in programs && x != programs[k]
  {
    var rest := programs[..k] + programs[k + 1..];
    assert forall j :: 0 <= j < |rest| ==> rest[j] == if j < k then programs[j] else programs[j + 1];
    forall x | x in programs && x != programs[k] ensures x in rest {
      var j :| 0 <= j < |programs| && programs[j] == x;
      if j < k {
        assert rest[j] == x;
      } else {
        assert rest[j - 1] == x;
      }
    }
  }

  /** Matches only looks at which values a list contains. */
  lemma {:induction false} MatchesSame(a: seq<string>, b: seq<string>, ids: seq<string>)
    requires forall x :: x in ids ==> (x in a <==> x in b)
    ensures Matches(a, ids) == Matches(b, ids)
  {
    if ids != [] {
      MatchesSame(a, b, ids[..|ids| - 1]);
    }
  }

  /** Every count is at most the number of records, and when each record
      names only study programs, each once, the counts add up to the total
      number of program entries. */
  lemma SnapshotCounts(projects: seq<Project>)
    requires forall p :: p in projects ==> NoDup(p.programs) && forall x :: x in p.programs ==> x in StudyPrograms
    ensures forall id :: ProgramCount(projects, id) <= |projects|
    ensures SumCounts(projects, StudyPrograms) == ProgramEntries(projects)
  {
    CountsSumToMemberships(projects, StudyPrograms);
    MembershipsAreEntries(projects);
  }

  /** The number of program entries over all records. */
  function ProgramEntries(projects: seq<Project>): nat {
    if projects == [] then 0 else ProgramEntries(projects[..|projects| - 1]) + |projects[|projects| - 1].programs|
  }

  lemma {:induction false} MembershipsAreEntries(projects: seq<Project>)
    requires forall p :: p in projects ==> NoDup(p.programs) && forall x :: x in p.programs ==> x in StudyPrograms
    ensures Memberships(projects, StudyPrograms) == ProgramEntries(projects)
  {
    if projects != [] {
      var init, last := projects[..|projects| - 1], projects[|projects| - 1];
      assert forall p :: p in init ==> p in projects;
      MembershipsAreEntries(init);
      assert last in projects;
      MatchesOfSubset(last.programs, StudyPrograms);
    }
  }
}
