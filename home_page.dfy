/** app/page.tsx: the page fetches every selected program without checking
    the response status, extracts untrimmed text fields, merges by title and
    teacher, and shows either the union or the intersection of the
    selected programs. */
module HomePage {

  import opened Lists
  import opened Records
  import opened Extraction
  import opened Merge
  import opened Collect
  import opened Selection

  /** `fetchProjects()` of the page; `token` stands for
      `Math.random().toString(36).substr(2, 9)`. The page keeps no teacher
      list, so the collected teachers are dropped. */
  method FetchProjects(selectedPrograms: Flags, respond: string -> seq<Container>, token: (nat, nat) -> string)
    returns (projects: seq<Project>)
    ensures projects == Merged(AllRecords(PagesOf(SelectedIds(selectedPrograms), respond), Extractor(HomeRules), token))
    ensures NoDup(Keys(projects))
    ensures ProgramsWithin(projects, set id | id in SelectedIds(selectedPrograms))
  {
    var ids := SelectedIds(selectedPrograms);
    var pages := FetchPages(ids, respond);
    var teachers;
    projects, teachers := CollectProjects(pages, Extractor(HomeRules), token);
    MergedDistinct(AllRecords(pages, Extractor(HomeRules), token));
    ExtractorKeepsProgram(HomeRules);
    CollectedProgramsWithin(pages, Extractor(HomeRules), token, set id | id in ids);
  }

  /** Intersection ("snitt") on this page: every selected program is listed. */
  predicate AllSelectedListed(s: Flags, programs: seq<string>) {
    forall id :: id in SelectedIds(s) ==> id in programs
  }

  /** The filter effect: union or intersection, keeping the input order. */
  function FilteredProjects(projects: seq<Project>, s: Flags, showUnion: bool): (r: seq<Project>)
    ensures SubList(r, projects)
    ensures showUnion ==> forall p :: p in r <==> p in projects && SomeSelected(s, p.programs)
    ensures !showUnion ==> forall p :: p in r <==> p in projects && AllSelectedListed(s, p.programs)
  {
    if showUnion then
      FilterIsSubList(projects, (p: Project) => SomeSelected(s, p.programs));
      Filter(projects, (p: Project) => SomeSelected(s, p.programs))
    else
      FilterIsSubList(projects, (p: Project) => AllSelectedListed(s, p.programs));
      Filter(projects, (p: Project) => AllSelectedListed(s, p.programs))
  }

  /** With nothing selected the intersection keeps every project and the
      union keeps none. */
  lemma NothingSelected(projects: seq<Project>, s: Flags)
    requires SelectedIds(s) == []
    ensures FilteredProjects(projects, s, false) == projects
    ensures FilteredProjects(projects, s, true) == []
  {
    FilterKeepsAll(projects, (p: Project) => AllSelectedListed(s, p.programs));
    assert forall k :: !Lookup(s, k);
    FilterKeepsNone(projects, (p: Project) => SomeSelected(s, p.programs));
  }

  /** With at least one program selected (and, as in any object, each key
      once), the intersection is a sub-list of the union. */
  lemma IntersectionWithinUnion(projects: seq<Project>, s: Flags)
    requires DistinctKeys(s)
    requires SelectedIds(s) != []
    ensures SubList(FilteredProjects(projects, s, false), FilteredProjects(projects, s, true))
  {
    var strong := (p: Project) => AllSelectedListed(s, p.programs);
    var weak := (p: Project) => SomeSelected(s, p.programs);
    forall p: Project | strong(p) ensures weak(p) {
      var id := SelectedIds(s)[0];
      assert id in SelectedIds(s);
      var i :| 0 <= i < |p.programs| && p.programs[i] == id;
    }
    FilterFilter(projects, strong, weak);
    FilterIsSubList(Filter(projects, weak), strong);
  }
}
