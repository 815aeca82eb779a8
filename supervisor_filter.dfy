/** components/SupervisorFilter.tsx: the case-insensitive search over the
    supervisor names, the "Clear" button's condition and the checkbox state. */
module SupervisorFilter {

  import opened Lists
  import opened Text
  import opened Selection

  /** `name.toLowerCase().includes(term.toLowerCase())`. */
  predicate MatchesSearch(term: string, name: string) {
    Contains(ToLower(name), ToLower(term))
  }

  /** `filteredSupervisors`: the names matching the search, in order. */
  function FilteredSupervisors(supervisors: seq<string>, term: string): (r: seq<string>)
    ensures SubList(r, supervisors)
    ensures forall name :: name in r <==> name in supervisors && MatchesSearch(term, name)
  {
    FilterIsSubList(supervisors, name => MatchesSearch(term, name));
    Filter(supervisors, name => MatchesSearch(term, name))
  }

  /** An empty search keeps every name. */
  lemma EmptySearchKeepsAll(supervisors: seq<string>)
    ensures FilteredSupervisors(supervisors, "") == supervisors
  {
    forall name ensures MatchesSearch("", name) {
      ContainsEmpty(ToLower(name));
    }
    FilterKeepsAll(supervisors, name => MatchesSearch("", name));
  }

  /** Lower-casing distributes over concatenation. */
  lemma ToLowerAppend(a: string, b: string)
    ensures ToLower(a + b) == ToLower(a) + ToLower(b)
  {
  }

  /** A string that contains `a + b` contains `a`. */
  lemma ContainsPrefixOfPattern(s: string, a: string, b: string)
    ensures Contains(s, a + b) ==> Contains(s, a)
  {
    if Contains(s, a + b) {
      var i := IndexOf(s, a + b, 0);
      assert s[i..i + |a|] == (a + b)[..|a|];
      assert OccursAt(s, a, i);
    }
  }

  /** Typing more characters only narrows the list: the names matching a
      longer search are a sub-list of those matching its prefix. */
  lemma LongerSearchNarrows(supervisors: seq<string>, term: string, more: string)
    ensures SubList(FilteredSupervisors(supervisors, term + more), FilteredSupervisors(supervisors, term))
  {
    var strong := name => MatchesSearch(term + more, name);
    var weak := name => MatchesSearch(term, name);
    ToLowerAppend(term, more);
    forall name | name in supervisors ensures strong(name) ==> weak(name) {
      ContainsPrefixOfPattern(ToLower(name), ToLower(term), ToLower(more));
    }
    FilterFilter(supervisors, strong, weak);
    FilterIsSubList(Filter(supervisors, weak), strong);
  }

  /** The search ignores case in the term. */
  lemma SearchIgnoresCase(supervisors: seq<string>, term: string)
    ensures FilteredSupervisors(supervisors, ToLower(term)) == FilteredSupervisors(supervisors, term)
  {
    ToLowerIdempotent(term);
    FilterSame(supervisors, name => MatchesSearch(ToLower(term), name), name => MatchesSearch(term, name));
  }

  /** Two predicates that agree on a list filter it alike. */
  lemma {:induction false} FilterSame(s: seq<string>, p: string -> bool, q: string -> bool)
    requires forall x :: x in s ==> p(x) == q(x)
    ensures Filter(s, p) == Filter(s, q)
  {
    if s != [] {
      assert forall x :: x in s[1..] ==> x in s;
      FilterSame(s[1..], p, q);
    }
  }

  /** `hasSelections`: the selection object has a key, whatever its flag. */
  function HasSelections(selected: Flags): (r: bool)
    ensures r <==> |KeysOf(selected)| > 0
  {
    |selected| > 0
  }

  /** A key toggled off still counts as a selection for the Clear button,
      though it selects nothing. */
  lemma ClearShownForUnticked(name: string)
    ensures HasSelections([(name, false)])
    ensures SelectedIds([(name, false)]) == []
  {
  }

  /** `checked={!!selected[supervisor]}`. */
  function IsChecked(selected: Flags, supervisor: string): (r: bool)
    ensures supervisor !in KeysOf(selected) ==> !r
    ensures DistinctKeys(selected) ==> (r <==> supervisor in SelectedIds(selected))
  {
    Lookup(selected, supervisor)
  }
}
