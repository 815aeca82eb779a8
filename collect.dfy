/** The nested loop that lib/fetchProjects.ts, scripts/scrape-projects.ts,
    app/page.tsx and src/App.tsx each write inline: for every fetched program
    page and every container on it, extract a record, note its teacher in a
    Set, and merge the record into `allProjects` at once. */
module Collect {

  import opened Wrappers
  import opened Lists
  import opened Records
  import opened Extraction
  import opened Merge

  /** One fetched program: its id and the `.oppgave` containers of its page. */
  datatype ProgramPage = ProgramPage(programId: string, containers: seq<Container>)

  /** The fetched pages of `ids`; `respond` gives the parsed containers of
      each program's page. */
  function PagesOf(ids: seq<string>, respond: string -> seq<Container>): (r: seq<ProgramPage>)
    ensures |r| == |ids|
    ensures forall i :: 0 <= i < |ids| ==> r[i].programId == ids[i]
  {
    seq(|ids|, i requires 0 <= i < |ids| => ProgramPage(ids[i], respond(ids[i])))
  }

  /** The `programPromises` map of app/page.tsx and src/App.tsx, which read
      the response text whatever the status: one page per selected program,
      in order. */
  method FetchPages(ids: seq<string>, respond: string -> seq<Container>) returns (pages: seq<ProgramPage>)
    ensures pages == PagesOf(ids, respond)
  {
    pages := [];
    var i := 0;
    while i < |ids|
      invariant 0 <= i <= |ids|
      invariant pages == PagesOf(ids[..i], respond)
    {
      assert ids[..i + 1] == ids[..i] + [ids[i]];
      pages := pages + [ProgramPage(ids[i], respond(ids[i]))];
      i := i + 1;
    }
    assert ids[..|ids|] == ids;
  }

  /** The records of page `pi`, one per container; the `n`-th container of
      page `pi` draws `token(pi, n)` when it needs a random id. */
  function PageRecords(page: ProgramPage, pi: nat, extract: (Container, string, string) -> Project,
                       token: (nat, nat) -> string): (r: seq<Project>)
    ensures |r| == |page.containers|
  {
    seq(|page.containers|, n requires 0 <= n < |page.containers| =>
      extract(page.containers[n], page.programId, token(pi, n)))
  }

  /** The records of all pages in order, before merging. */
  function AllRecords(pages: seq<ProgramPage>, extract: (Container, string, string) -> Project,
                      token: (nat, nat) -> string): seq<Project> {
    if pages == [] then []
    else
      AllRecords(pages[..|pages| - 1], extract, token)
        + PageRecords(pages[|pages| - 1], |pages| - 1, extract, token)
  }

  /** The teachers of a list of records, in order. */
  function TeacherSeq(rs: seq<Project>): (r: seq<string>)
    ensures |r| == |rs|
    ensures forall i :: 0 <= i < |rs| ==> r[i] == rs[i].teacher
  {
    seq(|rs|, i requires 0 <= i < |rs| => rs[i].teacher)
  }

  lemma TeacherSeqSnoc(rs: seq<Project>, p: Project)
    ensures TeacherSeq(rs + [p]) == TeacherSeq(rs) + [p.teacher]
  {
  }

  /** `allProjects` and the teacher Set after collecting the records `rs`:
      the merge of `rs`, and the teachers of `rs` in first-seen order. */
  predicate Collected(rs: seq<Project>, allProjects: seq<Project>, supervisors: seq<string>) {
    allProjects == Merged(rs) && supervisors == Dedup(TeacherSeq(rs))
  }

  /** The per-page body: every container of `page` extracted and collected
      after the records `before`. */
  method CollectPage(page: ProgramPage, pi: nat, extract: (Container, string, string) -> Project,
                     token: (nat, nat) -> string,
                     ghost before: seq<Project>, allProjects0: seq<Project>, supervisors0: seq<string>)
    returns (allProjects: seq<Project>, supervisors: seq<string>)
    requires Collected(before, allProjects0, supervisors0)
    ensures Collected(before + PageRecords(page, pi, extract, token), allProjects, supervisors)
  {
    ghost var records := PageRecords(page, pi, extract, token);
    allProjects, supervisors := allProjects0, supervisors0;
    ghost var done := before;
    var n: nat := 0;
    assert before + records[..0] == before;
    while n < |page.containers|
      invariant n <= |page.containers|
      invariant done == before + records[..n]
      invariant Collected(done, allProjects, supervisors)
    {
      var project := extract(page.containers[n], page.programId, token(pi, n));
      allProjects, supervisors := CollectRecord(project, done, allProjects, supervisors);
      PrefixStep(before, records, n);
      done := done + [project];
      n := n + 1;
    }
    assert records[..|records|] == records;
  }

  /** The innermost body: the teacher added to the Set unless already
      there, and the record merged in. */
  method CollectRecord(project: Project, ghost done: seq<Project>, allProjects0: seq<Project>, supervisors0: seq<string>)
    returns (allProjects: seq<Project>, supervisors: seq<string>)
    requires Collected(done, allProjects0, supervisors0)
    ensures Collected(done + [project], allProjects, supervisors)
  {
    CollectStep(done, project);
    supervisors := supervisors0;
    if project.teacher !in supervisors {
      supervisors := supervisors + [project.teacher];
    }
    allProjects := MergeInto(allProjects0, project);
  }

  /** One record more: one merge step, and its teacher added to the Set
      unless already there. */
  lemma CollectStep(done: seq<Project>, p: Project)
    ensures Merged(done + [p]) == MergeStep(Merged(done), p)
    ensures Dedup(TeacherSeq(done + [p])) ==
      if p.teacher in Dedup(TeacherSeq(done)) then Dedup(TeacherSeq(done)) else Dedup(TeacherSeq(done)) + [p.teacher]
  {
    MergedSnoc(done, p);
    TeacherSeqSnoc(done, p);
    DedupSnoc(TeacherSeq(done), p.teacher);
  }

  lemma PrefixStep<T>(before: seq<T>, xs: seq<T>, n: nat)
    requires n < |xs|
    ensures before + xs[..n + 1] == (before + xs[..n]) + [xs[n]]
  {
    assert xs[..n + 1] == xs[..n] + [xs[n]];
    AppendAssoc(before, xs[..n], [xs[n]]);
  }

  /** The nested loop over all pages: the merged records, and the Set of
      teachers as an insertion-ordered list. */
  method CollectProjects(pages: seq<ProgramPage>, extract: (Container, string, string) -> Project, token: (nat, nat) -> string)
    returns (allProjects: seq<Project>, supervisors: seq<string>)
    ensures Collected(AllRecords(pages, extract, token), allProjects, supervisors)
  {
    allProjects, supervisors := [], [];
    var pi := 0;
    while pi < |pages|
      invariant 0 <= pi <= |pages|
      invariant Collected(AllRecords(pages[..pi], extract, token), allProjects, supervisors)
    {
      assert pages[..pi + 1][..pi] == pages[..pi];
      allProjects, supervisors := CollectPage(pages[pi], pi, extract, token,
                                              AllRecords(pages[..pi], extract, token), allProjects, supervisors);
      pi := pi + 1;
    }
    assert pages[..|pages|] == pages;
  }

  /** Every record of page `pi` lists that page's program. */
  lemma {:induction false} AllRecordsPrograms(pages: seq<ProgramPage>, extract: (Container, string, string) -> Project, token: (nat, nat) -> string)
    requires KeepsProgram(extract)
    ensures forall p :: p in AllRecords(pages, extract, token) ==>
      exists i :: 0 <= i < |pages| && p.programs == [pages[i].programId]
  {
    if pages != [] {
      var init := pages[..|pages| - 1];
      AllRecordsPrograms(init, extract, token);
      var last := PageRecords(pages[|pages| - 1], |pages| - 1, extract, token);
      forall p | p in AllRecords(pages, extract, token)
        ensures exists i :: 0 <= i < |pages| && p.programs == [pages[i].programId]
      {
        if p in AllRecords(init, extract, token) {
          var i :| 0 <= i < |init| && p.programs == [init[i].programId];
          assert pages[i] == init[i];
        } else {
          assert p in last;
          var n :| 0 <= n < |last| && last[n] == p;
          assert p.programs == [pages[|pages| - 1].programId];
        }
      }
    }
  }

  /** The programs of every collected record come from the fetched pages,
      and each record lists at least one. */
  lemma CollectedProgramsWithin(pages: seq<ProgramPage>, extract: (Container, string, string) -> Project, token: (nat, nat) -> string, allowed: set<string>)
    requires KeepsProgram(extract)
    requires forall i :: 0 <= i < |pages| ==> pages[i].programId in allowed
    ensures ProgramsWithin(Merged(AllRecords(pages, extract, token)), allowed)
  {
    var rs := AllRecords(pages, extract, token);
    AllRecordsPrograms(pages, extract, token);
    RecordsWithin(pages, rs, allowed);
    MergedProgramsWithin(rs, allowed);
  }

  /** Records that each list the one program of some page list only
      allowed programs when every page's program is allowed. */
  lemma RecordsWithin(pages: seq<ProgramPage>, rs: seq<Project>, allowed: set<string>)
    requires forall q :: q in rs ==> exists i :: 0 <= i < |pages| && q.programs == [pages[i].programId]
    requires forall i :: 0 <= i < |pages| ==> pages[i].programId in allowed
    ensures ProgramsWithin(rs, allowed)
  {
    forall k | 0 <= k < |rs| ensures rs[k].programs != [] && forall x :: x in rs[k].programs ==> x in allowed {
      assert rs[k] in rs;
    }
  }

  /** The collected records have pairwise-distinct (title, teacher) keys,
      one per key extracted, and each is the first record extracted with its
      key with the programs of all records with that key unioned in. */
  lemma CollectedRecords(pages: seq<ProgramPage>, extract: (Container, string, string) -> Project, token: (nat, nat) -> string, k: (string, string))
    requires KeepsProgram(extract)
    ensures NoDup(Keys(Merged(AllRecords(pages, extract, token))))
    ensures forall key :: key in Keys(Merged(AllRecords(pages, extract, token))) <==> key in Keys(AllRecords(pages, extract, token))
    ensures var rs := AllRecords(pages, extract, token);
      Find(Merged(rs), k) ==
        match Find(rs, k)
        case None => None
        case Some(f) => Some(f.(programs := Dedup(ProgramsOf(rs, k))))
  {
    var rs := AllRecords(pages, extract, token);
    MergedDistinct(rs);
    AllRecordsPrograms(pages, extract, token);
    forall i | 0 <= i < |rs| ensures NoDup(rs[i].programs) {
      assert rs[i] in rs;
    }
    MergedFind(rs, k);
  }
}
