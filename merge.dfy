/** `mergeProjectsFromPrograms` (lib/projectParser.ts) and the merge loops
    copied into lib/fetchProjects.ts, scripts/scrape-projects.ts,
    app/page.tsx and src/App.tsx: records with the same title and teacher
    collapse into the first one, whose program list becomes the union, in
    order of first appearance, of all their program lists. */
module Merge {

  import opened Wrappers
  import opened Lists
  import opened Records

  /** The merge keys of a list of records, in order. */
  function Keys(ms: seq<Project>): (r: seq<(string, string)>)
    ensures |r| == |ms|
    ensures forall i :: 0 <= i < |ms| ==> r[i] == KeyOf(ms[i])
  {
    seq(|ms|, i requires 0 <= i < |ms| => KeyOf(ms[i]))
  }

  /** `ms.findIndex(p => p.title === title && p.teacher === teacher)`. */
  function FindKey(ms: seq<Project>, k: (string, string)): (r: int)
    ensures r == -1 <==> forall i :: 0 <= i < |ms| ==> KeyOf(ms[i]) != k
    ensures r != -1 ==> 0 <= r < |ms| && KeyOf(ms[r]) == k
                        && forall j :: 0 <= j < r ==> KeyOf(ms[j]) != k
  {
    if ms == [] then -1
    else if KeyOf(ms[0]) == k then 0
    else
      var r := FindKey(ms[1..], k);
      assert forall j :: 1 <= j < |ms| ==> ms[1..][j - 1] == ms[j];
      if r == -1 then -1 else r + 1
  }

  /** The first record with key `k`, if any. */
  function Find(ms: seq<Project>, k: (string, string)): Option<Project> {
    var i := FindKey(ms, k);
    if i >= 0 then Some(ms[i]) else None
  }

  /** The programs of the records with key `k`, one list after another. */
  function ProgramsOf(rs: seq<Project>, k: (string, string)): seq<string> {
    if rs == [] then []
    else
      var last := rs[|rs| - 1];
      ProgramsOf(rs[..|rs| - 1], k) + (if KeyOf(last) == k then last.programs else [])
  }

  /** One iteration of the merge loop: a record whose key is already present
      adds its programs to the first record with that key (`[...new
      Set([...existing, ...new])]`); any other record is appended. */
  function MergeStep(ms: seq<Project>, p: Project): seq<Project> {
    var i := FindKey(ms, KeyOf(p));
    if i >= 0 then ms[i := ms[i].(programs := Dedup(ms[i].programs + p.programs))]
    else ms + [p]
  }

  /** The merge of `rs`, record by record from the left. */
  function Merged(rs: seq<Project>): seq<Project> {
    if rs == [] then [] else MergeStep(Merged(rs[..|rs| - 1]), rs[|rs| - 1])
  }

  /** Merging record by record is merging the whole list. */
  lemma MergedSnoc(rs: seq<Project>, p: Project)
    ensures Merged(rs + [p]) == MergeStep(Merged(rs), p)
  {
    assert (rs + [p])[..|rs|] == rs;
  }

  /** `mergeProjectsFromPrograms(projectsList)`: `projectsList.flat()` merged
      record by record. */
  method MergeProjects(projectsList: seq<seq<Project>>) returns (merged: seq<Project>)
    ensures merged == Merged(Flatten(projectsList))
  {
    var all := Flatten(projectsList);
    merged := [];
    ghost var done: seq<Project> := [];
    var n := 0;
    while n < |all|
      invariant 0 <= n <= |all|
      invariant done == all[..n]
      invariant merged == Merged(done)
    {
      var project := all[n];
      MergedSnoc(done, project);
      merged := MergeInto(merged, project);
      assert all[..n + 1] == done + [project];
      done := done + [project];
      n := n + 1;
    }
    assert all[..|all|] == all;
  }

  /** The loop body: find the first record with the same key and union the
      programs into it, or append the record. */
  method MergeInto(merged: seq<Project>, project: Project) returns (r: seq<Project>)
    ensures r == MergeStep(merged, project)
  {
    var existingIndex := FindKey(merged, KeyOf(project));
    if existingIndex >= 0 {
      r := merged[existingIndex := merged[existingIndex].(programs := Dedup(merged[existingIndex].programs + project.programs))];
    } else {
      r := merged + [project];
    }
  }

  // ---------------------------------------------------------------------
  // Lookup by key after one step

  lemma FindKeySnoc(ms: seq<Project>, p: Project, k: (string, string))
    ensures FindKey(ms + [p], k) ==
      if FindKey(ms, k) >= 0 then FindKey(ms, k) else if KeyOf(p) == k then |ms| else -1
  {
    var r := FindKey(ms + [p], k);
    assert forall i :: 0 <= i < |ms| ==> (ms + [p])[i] == ms[i];
    assert (ms + [p])[|ms|] == p;
  }

  /** Keys decide lookups: lists with the same keys find a key at the same index. */
  lemma {:induction false} FindKeyByKeys(ms1: seq<Project>, ms2: seq<Project>, k: (string, string))
    requires Keys(ms1) == Keys(ms2)
    ensures FindKey(ms1, k) == FindKey(ms2, k)
  {
    assert |ms1| == |Keys(ms1)| == |Keys(ms2)| == |ms2|;
    assert forall i :: 0 <= i < |ms1| ==> KeyOf(ms1[i]) == Keys(ms1)[i] == Keys(ms2)[i] == KeyOf(ms2[i]);
  }

  /** Lookup of any key after one merge step. */
  lemma MergeStepFind(ms: seq<Project>, p: Project, k: (string, string))
    ensures Find(MergeStep(ms, p), k) ==
      if KeyOf(p) != k then Find(ms, k)
      else match Find(ms, k)
        case None => Some(p)
        case Some(m) => Some(m.(programs := Dedup(m.programs + p.programs)))
  {
    var i := FindKey(ms, KeyOf(p));
    if i >= 0 {
      var ms' := ms[i := ms[i].(programs := Dedup(ms[i].programs + p.programs))];
      assert Keys(ms') == Keys(ms);
      FindKeyByKeys(ms', ms, k);
    } else {
      FindKeySnoc(ms, p, k);
    }
  }

  /** The keys after one merge step: the key is appended when it is new. */
  lemma MergeStepKeys(ms: seq<Project>, p: Project)
    ensures Keys(MergeStep(ms, p)) == if KeyOf(p) in Keys(ms) then Keys(ms) else Keys(ms) + [KeyOf(p)]
  {
    var i := FindKey(ms, KeyOf(p));
    if i >= 0 {
      var ms' := ms[i := ms[i].(programs := Dedup(ms[i].programs + p.programs))];
      assert Keys(ms') == Keys(ms);
      assert Keys(ms)[i] == KeyOf(p);
    } else {
      assert KeyOf(p) !in Keys(ms);
    }
  }

  lemma FindSnoc(rs: seq<Project>, p: Project, k: (string, string))
    ensures Find(rs + [p], k) == if Find(rs, k).Some? then Find(rs, k) else if KeyOf(p) == k then Some(p) else None
  {
    FindKeySnoc(rs, p, k);
    var i := FindKey(rs, k);
    if i >= 0 {
      assert (rs + [p])[i] == rs[i];
    }
  }

  /** Without a record with key `k` there are no programs for `k`. */
  lemma {:induction false} ProgramsOfAbsent(rs: seq<Project>, k: (string, string))
    requires Find(rs, k).None?
    ensures ProgramsOf(rs, k) == []
  {
    if rs != [] {
      var init := rs[..|rs| - 1];
      assert forall i :: 0 <= i < |init| ==> init[i] == rs[i];
      ProgramsOfAbsent(init, k);
    }
  }

  // ---------------------------------------------------------------------
  // What the merge yields

  /** The keys of a list extended by one record. */
  lemma KeysSnoc(rs: seq<Project>, p: Project)
    ensures Keys(rs + [p]) == Keys(rs) + [KeyOf(p)]
  {
    assert Keys(rs + [p])[|rs|] == KeyOf(p);
  }

  /** The merged keys are the input keys without repeats, in order of first
      appearance: one record per (title, teacher), none lost, none invented. */
  lemma {:induction false} MergedKeys(rs: seq<Project>)
    ensures Keys(Merged(rs)) == Dedup(Keys(rs))
  {
    if rs != [] {
      var init, last := rs[..|rs| - 1], rs[|rs| - 1];
      assert rs == init + [last];
      KeysSnoc(init, last);
      MergedSnoc(init, last);
      MergedKeys(init);
      MergeStepKeys(Merged(init), last);
      DedupSnoc(Keys(init), KeyOf(last));
    }
  }

  /** Hence no two merged records share a title and teacher, and every key
      of the input has a merged record. */
  lemma MergedDistinct(rs: seq<Project>)
    ensures NoDup(Keys(Merged(rs)))
    ensures |Merged(rs)| <= |rs|
    ensures forall k :: k in Keys(Merged(rs)) <==> k in Keys(rs)
  {
    MergedKeys(rs);
  }

  /** The merged record for a key is the first input record with that key,
      with as programs the union of the program lists of all records with
      that key, in order of first appearance; when the key is absent from
      the input it is absent from the result. Each extracted record lists
      one program, so the premise holds for every caller. */
  lemma {:induction false} MergedFind(rs: seq<Project>, k: (string, string))
    requires forall i :: 0 <= i < |rs| ==> NoDup(rs[i].programs)
    ensures Find(Merged(rs), k) ==
      match Find(rs, k)
      case None => None
      case Some(f) => Some(f.(programs := Dedup(ProgramsOf(rs, k))))
  {
    if rs != [] {
      var init, last := rs[..|rs| - 1], rs[|rs| - 1];
      assert forall i :: 0 <= i < |init| ==> init[i] == rs[i];
      MergedFind(init, k);
      MergeStepFind(Merged(init), last, k);
      FindSnoc(init, last, k);
      assert rs == init + [last];
      if KeyOf(last) == k {
        MergedFindSameKey(init, last, k);
      } else {
        assert ProgramsOf(rs, k) == ProgramsOf(init, k);
      }
    }
  }

  /** The step of MergedFind for a record with the key looked up. */
  lemma MergedFindSameKey(init: seq<Project>, last: Project, k: (string, string))
    requires KeyOf(last) == k && NoDup(last.programs)
    ensures ProgramsOf(init + [last], k) == ProgramsOf(init, k) + last.programs
    ensures Find(init, k).None? ==> Dedup(ProgramsOf(init + [last], k)) == last.programs
    ensures Dedup(Dedup(ProgramsOf(init, k)) + last.programs) == Dedup(ProgramsOf(init + [last], k))
  {
    assert (init + [last])[..|init|] == init;
    if Find(init, k).None? {
      ProgramsOfAbsent(init, k);
      assert ProgramsOf(init, k) + last.programs == last.programs;
      DedupOfNoDup(last.programs);
    }
    DedupTwice(ProgramsOf(init, k), last.programs);
  }

  /** A list with distinct keys is left as it is: merging is idempotent. */
  lemma {:induction false} MergedOfDistinct(rs: seq<Project>)
    requires NoDup(Keys(rs))
    ensures Merged(rs) == rs
  {
    if rs != [] {
      var init, last := rs[..|rs| - 1], rs[|rs| - 1];
      assert Keys(init) == Keys(rs)[..|rs| - 1];
      MergedOfDistinct(init);
      assert KeyOf(last) !in Keys(init) by {
        assert Keys(rs)[|rs| - 1] == KeyOf(last);
      }
      assert rs == init + [last];
    }
  }

  /** Merging twice is merging once. */
  lemma MergedIdempotent(rs: seq<Project>)
    ensures Merged(Merged(rs)) == Merged(rs)
  {
    MergedKeys(rs);
    MergedOfDistinct(Merged(rs));
  }

  /** Merging keeps program lists free of repeats: an existing list is
      unioned through `new Set`, and an appended record is the input's own. */
  lemma {:induction false} MergedProgramsNoDup(rs: seq<Project>)
    requires forall i :: 0 <= i < |rs| ==> NoDup(rs[i].programs)
    ensures forall i :: 0 <= i < |Merged(rs)| ==> NoDup(Merged(rs)[i].programs)
  {
    if rs != [] {
      var init, last := rs[..|rs| - 1], rs[|rs| - 1];
      assert forall i :: 0 <= i < |init| ==> init[i] == rs[i];
      MergedProgramsNoDup(init);
    }
  }

  /** Every record lists at least one program, all from `allowed`. */
  predicate ProgramsWithin(rs: seq<Project>, allowed: set<string>) {
    forall i :: 0 <= i < |rs| ==> rs[i].programs != [] && forall x :: x in rs[i].programs ==> x in allowed
  }

  /** Merging only unions program lists, so it invents no program and
      empties no list. */
  lemma {:induction false} MergedProgramsWithin(rs: seq<Project>, allowed: set<string>)
    requires ProgramsWithin(rs, allowed)
    ensures ProgramsWithin(Merged(rs), allowed)
  {
    if rs != [] {
      var init, last := rs[..|rs| - 1], rs[|rs| - 1];
      MergedProgramsWithin(init, allowed);
      var m := Merged(init);
      var i := FindKey(m, KeyOf(last));
      if i >= 0 {
        var merged := Dedup(m[i].programs + last.programs);
        assert m[i].programs[0] in merged;
      }
    }
  }
}
