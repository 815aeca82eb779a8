/** src/App.tsx: the earlier single-page app. Fetching, extraction (with
    the resolved permalink URL) and merging follow app/page.tsx, but its
    intersection keeps a project when every program the project lists is
    selected, the reverse inclusion. */
module LegacyApp {

  import opened Lists
  import opened Records
  import opened Extraction
  import opened Merge
  import opened Collect
  import opened Selection

  /** `fetchProjects()` of the app; `token` stands for
      `Math.random().toString(36).substr(2, 9)`. */
  method FetchProjects(selectedPrograms: Flags, respond: string -> seq<Container>, token: (nat, nat) -> string)
    returns (projects: seq<Project>)
    ensures projects == Merged(AllRecords(PagesOf(SelectedIds(selectedPrograms), respond), Extractor(LegacyRules), token))
    ensures NoDup(Keys(projects))
    ensures ProgramsWithin(projects, set id | id in SelectedIds(selectedPrograms))
  {
    var ids := SelectedIds(selectedPrograms);
    var pages := FetchPages(ids, respond);
    var teachers;
    projects, teachers := CollectProjects(pages, Extractor(LegacyRules), token);
    MergedDistinct(AllRecords(pages, Extractor(LegacyRules), token));
    ExtractorKeepsProgram(LegacyRules);
    CollectedProgramsWithin(pages, Extractor(LegacyRules), token, set id | id in ids);
  }

  /** Intersection in this app: `programs.every(id => s[id])`. */
  predicate AllListedSelected(s: Flags, programs: seq<string>) {
    forall i :: 0 <= i < |programs| ==> Lookup(s, programs[i])
  }

  /** The filter effect: union or this app's intersection, in input order. */
  function FilteredProjects(projects: seq<Project>, s: Flags, showUnion: bool): (r: seq<Project>)
    ensures SubList(r, projects)
    ensures showUnion ==> forall p :: p in r <==> p in projects && SomeSelected(s, p.programs)
    ensures !showUnion ==> forall p :: p in r <==> p in projects && AllListedSelected(s, p.programs)
  {
    if showUnion then
      FilterIsSubList(projects, (p: Project) => SomeSelected(s, p.programs));
      Filter(projects, (p: Project) => SomeSelected(s, p.programs))
    else
      FilterIsSubList(projects, (p: Project) => AllListedSelected(s, p.programs));
      Filter(projects, (p: Project) => AllListedSelected(s, p.programs))
  }

  /** Every fetched record lists at least one program, so this intersection
      is always a sub-list of the union, whatever is selected. */
  lemma IntersectionWithinUnion(projects: seq<Project>, s: Flags, allowed: set<string>)
    requires ProgramsWithin(projects, allowed)
    ensures SubList(FilteredProjects(projects, s, false), FilteredProjects(projects, s, true))
  {
    var strong := (p: Project) => AllListedSelected(s, p.programs);
    var weak := (p: Project) => SomeSelected(s, p.programs);
    forall p | p in projects ensures strong(p) ==> weak(p) {
      var i :| 0 <= i < |projects| && projects[i] == p;
      if strong(p) {
        assert Lookup(s, p.programs[0]);
      }
    }
    FilterFilter(projects, strong, weak);
    FilterIsSubList(Filter(projects, weak), strong);
  }

  /** A project passes both intersections exactly when it lists precisely
      the selected programs. */
  lemma BothIntersections(s: Flags, programs: seq<string>)
    requires DistinctKeys(s)
    ensures AllListedSelected(s, programs) && (forall id :: id in SelectedIds(s) ==> id in programs)
            <==> (forall id :: id in programs <==> id in SelectedIds(s))
  {
    if forall id :: id in programs <==> id in SelectedIds(s) {
      forall i | 0 <= i < |programs| ensures Lookup(s, programs[i]) {
        assert programs[i] in SelectedIds(s);
      }
    }
    if AllListedSelected(s, programs) {
      forall id | id in programs ensures id in SelectedIds(s) {
        var i :| 0 <= i < |programs| && programs[i] == id;
        assert Lookup(s, programs[i]);
      }
    }
  }
}
