/** lib/projectParser.ts: parsing one program's catalog page, merging the
    per-program lists, and collecting the supervisor names. */
module ProjectParser {

  import opened Wrappers
  import opened Lists
  import opened StringOrder
  import opened Records
  import opened Extraction
  import opened Merge

  /** The records of one page, one per container in document order; the
      `n`-th container draws `token(n)` when it needs a random id. */
  function Parsed(page: seq<Container>, programId: string, extract: (Container, string, string) -> Project,
                  token: nat -> string): (r: seq<Project>)
    ensures |r| == |page|
  {
    seq(|page|, n requires 0 <= n < |page| => extract(page[n], programId, token(n)))
  }

  /** One more container is one more record. */
  lemma ParsedSnoc(page: seq<Container>, n: nat, programId: string, extract: (Container, string, string) -> Project,
                   token: nat -> string)
    requires n < |page|
    ensures Parsed(page[..n + 1], programId, extract, token)
            == Parsed(page[..n], programId, extract, token) + [extract(page[n], programId, token(n))]
  {
  }

  /** `parseProjectsFromHTML(document, programId)`. */
  method ParseProjects(page: seq<Container>, programId: string, fallback: IdFallback, token: nat -> string)
    returns (projects: seq<Project>)
    ensures projects == Parsed(page, programId, Extractor(SharedParserRules(fallback)), token)
  {
    var rules := SharedParserRules(fallback);
    ghost var extract := Extractor(rules);
    projects := [];
    var n := 0;
    while n < |page|
      invariant 0 <= n <= |page|
      invariant projects == Parsed(page[..n], programId, extract, token)
    {
      var project := ExtractProject(page[n], programId, rules, token(n));
      ParsedSnoc(page, n, programId, extract, token);
      projects := projects + [project];
      n := n + 1;
    }
    assert page[..|page|] == page;
  }

  /** Every record parsed from a program's page lists exactly that program. */
  lemma ParsedPrograms(page: seq<Container>, programId: string, extract: (Container, string, string) -> Project,
                       token: nat -> string)
    requires KeepsProgram(extract)
    ensures forall p :: p in Parsed(page, programId, extract, token) ==> p.programs == [programId]
  {
    var parsed := Parsed(page, programId, extract, token);
    forall p | p in parsed ensures p.programs == [programId] {
      var n :| 0 <= n < |parsed| && parsed[n] == p;
    }
  }

  /** The records of several pages, one list after another. */
  lemma {:induction false} FlattenParsedPrograms(pages: seq<seq<Project>>, programIds: seq<string>)
    requires |pages| == |programIds|
    requires forall i :: 0 <= i < |pages| ==> forall p :: p in pages[i] ==> p.programs == [programIds[i]]
    ensures forall i :: 0 <= i < |Flatten(pages)| ==> NoDup(Flatten(pages)[i].programs)
  {
    forall i | 0 <= i < |Flatten(pages)| ensures NoDup(Flatten(pages)[i].programs) {
      var p := Flatten(pages)[i];
      assert p in Flatten(pages);
      var j :| 0 <= j < |pages| && p in pages[j];
      assert p.programs == [programIds[j]];
    }
  }

  /** The teachers a supervisor list is drawn from: present, and not the
      "Unknown" placeholder. */
  predicate IsSupervisorName(t: string) {
    t != "" && t != "Unknown"
  }

  /** The teacher names of a list of records. */
  function Teachers(projects: seq<Project>): set<string> {
    set p | p in projects :: p.teacher
  }

  /** `extractSupervisors(projects)`: the distinct teacher names other than
      "" and "Unknown", sorted. */
  method ExtractSupervisors(projects: seq<Project>) returns (supervisors: seq<string>)
    ensures StrictlyAscending(supervisors)
    ensures forall t :: t in supervisors <==> IsSupervisorName(t) && t in Teachers(projects)
  {
    var seen: seq<string> := [];
    var n := 0;
    while n < |projects|
      invariant 0 <= n <= |projects|
      invariant NoDup(seen)
      invariant forall t :: t in seen <==> IsSupervisorName(t) && exists i :: 0 <= i < n && projects[i].teacher == t
    {
      var teacher := projects[n].teacher;
      if IsSupervisorName(teacher) && teacher !in seen {
        seen := seen + [teacher];
      }
      n := n + 1;
    }
    supervisors := Sort(seen);
    forall t | IsSupervisorName(t) && t in Teachers(projects)
      ensures t in supervisors
    {
      var p :| p in projects && p.teacher == t;
      var i :| 0 <= i < |projects| && projects[i] == p;
    }
  }

  /** Merging keeps every teacher: a (title, teacher) key survives the merge. */
  lemma MergedTeachers(rs: seq<Project>)
    ensures Teachers(Merged(rs)) == Teachers(rs)
  {
    MergedKeys(rs);
    forall t | t in Teachers(Merged(rs)) ensures t in Teachers(rs) {
      var p :| p in Merged(rs) && p.teacher == t;
      var i :| 0 <= i < |Merged(rs)| && Merged(rs)[i] == p;
      assert KeyOf(p) == Keys(Merged(rs))[i];
      assert KeyOf(p) in Dedup(Keys(rs));
      var j :| 0 <= j < |rs| && Keys(rs)[j] == KeyOf(p);
      assert rs[j] in rs;
    }
    forall t | t in Teachers(rs) ensures t in Teachers(Merged(rs)) {
      var p :| p in rs && p.teacher == t;
      var i :| 0 <= i < |rs| && rs[i] == p;
      assert KeyOf(p) == Keys(rs)[i];
      assert KeyOf(p) in Dedup(Keys(rs));
      var j :| 0 <= j < |Merged(rs)| && Keys(Merged(rs))[j] == KeyOf(p);
      assert Merged(rs)[j] in Merged(rs);
    }
  }

  /** `processProjects(projectsByProgram)`: the merged records and the
      sorted supervisors, who are exactly the named teachers of the input. */
  method ProcessProjects(projectsByProgram: seq<seq<Project>>) returns (projects: seq<Project>, supervisors: seq<string>)
    ensures projects == Merged(Flatten(projectsByProgram))
    ensures StrictlyAscending(supervisors)
    ensures forall t :: t in supervisors <==> IsSupervisorName(t) && t in Teachers(Flatten(projectsByProgram))
  {
    projects := MergeProjects(projectsByProgram);
    supervisors := ExtractSupervisors(projects);
    MergedTeachers(Flatten(projectsByProgram));
  }
}
