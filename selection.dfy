/** The `selectedPrograms` object of app/page.tsx and src/App.tsx (and the
    `selected` object of components/SupervisorFilter.tsx): string keys
    mapped to booleans, kept in insertion order as `Object.entries` and
    `Object.keys` report them. */
module Selection {

  import opened Lists

  /** Key/flag pairs in insertion order; a key occurs at most once. */
  type Flags = seq<(string, bool)>

  predicate DistinctKeys(s: Flags) {
    forall i, j :: 0 <= i < j < |s| ==> s[i].0 != s[j].0
  }

  /** `Object.keys(s)`. */
  function KeysOf(s: Flags): (r: seq<string>)
    ensures |r| == |s|
    ensures forall i :: 0 <= i < |s| ==> r[i] == s[i].0
  {
    seq(|s|, i requires 0 <= i < |s| => s[i].0)
  }

  /** `s[key]` read as a boolean: an absent key is `undefined`, which is falsy. */
  function Lookup(s: Flags, key: string): (r: bool)
    ensures DistinctKeys(s) ==> (r <==> exists i :: 0 <= i < |s| && s[i] == (key, true))
    ensures r ==> exists i :: 0 <= i < |s| && s[i] == (key, true)
    ensures key !in KeysOf(s) ==> !r
  {
    if s == [] then false
    else if s[0].0 == key then s[0].1
    else
      assert forall i :: 1 <= i < |s| ==> s[1..][i - 1] == s[i];
      Lookup(s[1..], key)
  }

  /** `Object.entries(s).filter(([_, on]) => on).map(([k]) => k)`: the
      selected keys in insertion order, each once. */
  function SelectedIds(s: Flags): (r: seq<string>)
    ensures forall k :: k in r <==> exists i :: 0 <= i < |s| && s[i] == (k, true)
    ensures DistinctKeys(s) ==> NoDup(r) && forall k :: k in r <==> Lookup(s, k)
  {
    if s == [] then []
    else
      var rest := SelectedIds(s[1..]);
      assert forall i :: 1 <= i < |s| ==> s[1..][i - 1] == s[i];
      (if s[0].1 then [s[0].0] else []) + rest
  }

  /** `{...s, [key]: !s[key]}`: an existing key keeps its place and has its
      flag negated; an absent key is appended with flag true. */
  function Toggle(s: Flags, key: string): (r: Flags)
    ensures DistinctKeys(s) ==> DistinctKeys(r)
    ensures key in KeysOf(s) ==> KeysOf(r) == KeysOf(s)
    ensures key !in KeysOf(s) ==> KeysOf(r) == KeysOf(s) + [key]
  {
    if key in KeysOf(s) then
      seq(|s|, i requires 0 <= i < |s| => if s[i].0 == key then (key, !s[i].1) else s[i])
    else s + [(key, true)]
  }

  /** With distinct keys, a key's flag is the flag stored beside it. */
  lemma LookupAt(s: Flags, i: nat)
    requires DistinctKeys(s) && i < |s|
    ensures Lookup(s, s[i].0) == s[i].1
  {
    assert forall j :: 0 <= j < |s| && s[j].0 == s[i].0 ==> j == i;
  }

  /** Toggling flips the one flag and leaves every other flag as it was. */
  lemma ToggleFlipsOne(s: Flags, key: string)
    requires DistinctKeys(s)
    ensures Lookup(Toggle(s, key), key) == !Lookup(s, key)
    ensures forall other :: other != key ==> Lookup(Toggle(s, key), other) == Lookup(s, other)
  {
    var r := Toggle(s, key);
    if key in KeysOf(s) {
      var i :| 0 <= i < |s| && KeysOf(s)[i] == key;
      LookupAt(s, i);
      LookupAt(r, i);
    } else {
      LookupAt(r, |s|);
    }
    forall other | other != key ensures Lookup(r, other) == Lookup(s, other) {
      if other in KeysOf(s) {
        var j :| 0 <= j < |s| && KeysOf(s)[j] == other;
        LookupAt(s, j);
        LookupAt(r, j);
      } else {
        assert other !in KeysOf(r);
      }
    }
  }

  /** Toggling twice restores the flags. */
  lemma ToggleTwice(s: Flags, key: string)
    requires DistinctKeys(s)
    ensures forall k :: Lookup(Toggle(Toggle(s, key), key), k) == Lookup(s, k)
  {
    ToggleFlipsOne(s, key);
    ToggleFlipsOne(Toggle(s, key), key);
  }

  /** `programs.some(id => s[id])`: some listed program is flagged true. */
  predicate SomeSelected(s: Flags, programs: seq<string>) {
    exists i :: 0 <= i < |programs| && Lookup(s, programs[i])
  }
}
