/** lib/fetchProjects.ts: query the catalog for every selected program,
    fail as a whole when any response is not OK, otherwise extract and merge
    the records of all pages and list every teacher seen, sorted. */
module FetchProjects {

  import opened Wrappers
  import opened Lists
  import opened StringOrder
  import opened Records
  import opened Extraction
  import opened Merge
  import opened Collect
  import opened Selection

  /** An HTTP response as the code reads it: `response.ok`, and the page's
      `.oppgave` containers once its text is parsed. */
  datatype Response = Response(ok: bool, containers: seq<Container>)

  datatype Fetched = Fetched(projects: seq<Project>, availableSupervisors: seq<string>)

  /** The fetched pages of `ids`, in order: the containers of each
      response's page. */
  function Pages(ids: seq<string>, respond: string -> Response): (r: seq<ProgramPage>)
    ensures |r| == |ids|
    ensures forall i :: 0 <= i < |ids| ==> r[i].programId == ids[i]
  {
    PagesOf(ids, (id: string) => respond(id).containers)
  }

  /** Some selected program's response is not OK. */
  predicate AnyFailed(ids: seq<string>, respond: string -> Response) {
    exists i :: 0 <= i < |ids| && !respond(ids[i]).ok
  }

  /** `fetchProjects(selectedPrograms)`; `respond` stands for the relay,
      `token` for `crypto.randomUUID()`. */
  method FetchProjects(selectedPrograms: Flags, respond: string -> Response, token: (nat, nat) -> string)
    returns (r: Result<Fetched>)
    ensures var ids := SelectedIds(selectedPrograms);
      r.Failure? <==> AnyFailed(ids, respond)
    ensures r.Failure? ==> exists id :: id in SelectedIds(selectedPrograms) && !respond(id).ok
                                        && r.error == "Failed to fetch " + id
    ensures r.Success? ==>
      var all := AllRecords(Pages(SelectedIds(selectedPrograms), respond), Extractor(FetchRules), token);
      && r.value.projects == Merged(all)
      && NoDup(Keys(r.value.projects))
      && ProgramsWithin(r.value.projects, set id | id in SelectedIds(selectedPrograms))
      && StrictlyAscending(r.value.availableSupervisors)
      && forall t :: t in r.value.availableSupervisors <==> t in TeacherSeq(all)
  {
    var ids := SelectedIds(selectedPrograms);
    var fetched := FetchPages(ids, respond);
    if fetched.Failure? {
      return Failure(fetched.error);
    }
    var pages := fetched.value;
    var allProjects, supervisors := CollectProjects(pages, Extractor(FetchRules), token);
    var all := AllRecords(pages, Extractor(FetchRules), token);
    MergedDistinct(all);
    ExtractorKeepsProgram(FetchRules);
    CollectedProgramsWithin(pages, Extractor(FetchRules), token, set id | id in ids);
    var sorted := Sort(supervisors);
    r := Success(Fetched(allProjects, sorted));
  }

  /** The `Promise.all` over the selected programs: every page in order,
      or the error of the first response that is not OK. */
  method FetchPages(ids: seq<string>, respond: string -> Response) returns (r: Result<seq<ProgramPage>>)
    ensures r.Failure? <==> AnyFailed(ids, respond)
    ensures r.Failure? ==> exists id :: id in ids && !respond(id).ok && r.error == "Failed to fetch " + id
    ensures r.Success? ==> r.value == Pages(ids, respond)
  {
    var pages: seq<ProgramPage> := [];
    var i := 0;
    while i < |ids|
      invariant 0 <= i <= |ids|
      invariant !AnyFailed(ids[..i], respond)
      invariant pages == Pages(ids[..i], respond)
    {
      var response := respond(ids[i]);
      if !response.ok {
        return Failure("Failed to fetch " + ids[i]);
      }
      assert ids[..i + 1] == ids[..i] + [ids[i]];
      pages := pages + [ProgramPage(ids[i], response.containers)];
      i := i + 1;
    }
    assert ids[..|ids|] == ids;
    r := Success(pages);
  }

  /** With `selectedPrograms` holding each key once, every program a
      returned record lists is flagged true. */
  lemma FetchedProgramsSelected(selectedPrograms: Flags, projects: seq<Project>)
    requires DistinctKeys(selectedPrograms)
    requires ProgramsWithin(projects, set id | id in SelectedIds(selectedPrograms))
    ensures forall p, x :: p in projects && x in p.programs ==> Lookup(selectedPrograms, x)
  {
    forall p, x | p in projects && x in p.programs ensures Lookup(selectedPrograms, x) {
      var i :| 0 <= i < |projects| && projects[i] == p;
    }
  }
}
