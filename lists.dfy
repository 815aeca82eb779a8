/** The array operations the source uses on lists: `filter`, `flat`, and the
    `[...new Set(xs)]` idiom, which keeps the first occurrence of each value
    in order. */
module Lists {

  import opened Wrappers

  /** `s.find(p)`: the first element that satisfies `p`, if any. */
  function FirstWhere<T(!new)>(s: seq<T>, p: T -> bool): (r: Option<T>)
    ensures r.None? <==> forall i :: 0 <= i < |s| ==> !p(s[i])
    ensures r.Some? ==> exists i :: 0 <= i < |s| && s[i] == r.value && p(s[i])
                                    && forall j :: 0 <= j < i ==> !p(s[j])
  {
    if s == [] then None
    else if p(s[0]) then Some(s[0])
    else
      var r := FirstWhere(s[1..], p);
      assert forall j :: 1 <= j < |s| ==> s[1..][j - 1] == s[j];
      r
  }

  /** `s.filter(keep)`: the elements that satisfy `keep`, in their order. */
  function Filter<T(!new)>(s: seq<T>, keep: T -> bool): (r: seq<T>)
    ensures |r| <= |s|
    ensures forall x :: x in r <==> x in s && keep(x)
  {
    if s == [] then []
    else (if keep(s[0]) then [s[0]] else []) + Filter(s[1..], keep)
  }

  /** `a` is `b` with some elements deleted: the same elements in the same order. */
  predicate SubList<T(==,!new)>(a: seq<T>, b: seq<T>)
    decreases |b|
  {
    if a == [] then true
    else if b == [] then false
    else if a[0] == b[0] then SubList(a[1..], b[1..])
    else SubList(a, b[1..])
  }

  /** Filtering only deletes elements: the result is a sub-list of the input. */
  lemma {:induction false} FilterIsSubList<T(!new)>(s: seq<T>, keep: T -> bool)
    ensures SubList(Filter(s, keep), s)
  {
    if s != [] {
      FilterIsSubList(s[1..], keep);
      var rest := Filter(s[1..], keep);
      if keep(s[0]) {
        assert Filter(s, keep) == [s[0]] + rest;
        assert ([s[0]] + rest)[1..] == rest;
      } else {
        assert Filter(s, keep) == rest;
        if rest != [] {
          assert rest[0] in rest;
        }
      }
    }
  }

  /** Filtering by a stronger predicate after a weaker one is the same as
      filtering by the stronger one alone; the stronger one need imply the
      weaker one only on the elements of the list. */
  lemma {:induction false} FilterFilter<T(!new)>(s: seq<T>, strong: T -> bool, weak: T -> bool)
    requires forall x :: x in s ==> strong(x) ==> weak(x)
    ensures Filter(Filter(s, weak), strong) == Filter(s, strong)
  {
    if s != [] {
      FilterFilter(s[1..], strong, weak);
      if weak(s[0]) {
        var rest := Filter(s[1..], weak);
        assert Filter(s, weak) == [s[0]] + rest;
        assert ([s[0]] + rest)[0] == s[0];
        assert ([s[0]] + rest)[1..] == rest;
        assert Filter([s[0]] + rest, strong) == (if strong(s[0]) then [s[0]] else []) + Filter(rest, strong);
      } else {
        assert !strong(s[0]);
        assert Filter(s, weak) == Filter(s[1..], weak);
      }
    }
  }

  /** A predicate that every element meets keeps the whole list. */
  lemma {:induction false} FilterKeepsAll<T(!new)>(s: seq<T>, keep: T -> bool)
    requires forall x :: x in s ==> keep(x)
    ensures Filter(s, keep) == s
  {
    if s != [] {
      FilterKeepsAll(s[1..], keep);
    }
  }

  /** A predicate that no element meets keeps nothing. */
  lemma {:induction false} FilterKeepsNone<T(!new)>(s: seq<T>, keep: T -> bool)
    requires forall x :: x in s ==> !keep(x)
    ensures Filter(s, keep) == []
  {
    if s != [] {
      FilterKeepsNone(s[1..], keep);
    }
  }

  /** Filtering a list with a given head filters the head, then the rest. */
  lemma FilterCons<T(!new)>(h: T, rest: seq<T>, keep: T -> bool)
    ensures Filter([h] + rest, keep) == (if keep(h) then [h] else []) + Filter(rest, keep)
  {
    assert ([h] + rest)[0] == h && ([h] + rest)[1..] == rest;
  }

  /** Filtering distributes over appending one element at the end. */
  lemma {:induction false} FilterSnoc<T(!new)>(s: seq<T>, x: T, keep: T -> bool)
    ensures Filter(s + [x], keep) == Filter(s, keep) + (if keep(x) then [x] else [])
  {
    if s == [] {
      assert s + [x] == [x] + [];
      FilterCons(x, [], keep);
    } else {
      var head := if keep(s[0]) then [s[0]] else [];
      var tail := if keep(x) then [x] else [];
      var rest := Filter(s[1..], keep);
      assert s + [x] == [s[0]] + (s[1..] + [x]);
      assert s == [s[0]] + s[1..];
      FilterCons(s[0], s[1..] + [x], keep);
      FilterCons(s[0], s[1..], keep);
      FilterSnoc(s[1..], x, keep);
      AppendAssoc(head, rest, tail);
    }
  }

  /** No value occurs twice. */
  predicate NoDup<T(==,!new)>(s: seq<T>) {
    forall i, j :: 0 <= i < j < |s| ==> s[i] != s[j]
  }

  /** `[...new Set(s)]`: the first occurrence of each value, in order. */
  function Dedup<T(==,!new)>(s: seq<T>): (r: seq<T>)
    ensures NoDup(r)
    ensures forall x :: x in r <==> x in s
    ensures |r| <= |s|
    decreases |s|
  {
    if s == [] then []
    else
      var d := Dedup(s[..|s| - 1]);
      if s[|s| - 1] in d then d else d + [s[|s| - 1]]
  }

  /** A list without repeats is its own deduplication. */
  lemma {:induction false} DedupOfNoDup<T(!new)>(s: seq<T>)
    requires NoDup(s)
    ensures Dedup(s) == s
  {
    if s != [] {
      var init := s[..|s| - 1];
      DedupOfNoDup(init);
      assert s[|s| - 1] !in init;
      assert init + [s[|s| - 1]] == s;
    }
  }

  /** The values of `b` that are not in `a`, in order and with repeats. */
  function Unseen<T(==,!new)>(b: seq<T>, a: seq<T>): (r: seq<T>)
    ensures forall x :: x in r <==> x in b && x !in a
    decreases |b|
  {
    if b == [] then []
    else
      var init := b[..|b| - 1];
      assert forall x :: x in b <==> x in init || x == b[|b| - 1];
      Unseen(init, a) + (if b[|b| - 1] in a then [] else [b[|b| - 1]])
  }

  lemma AppendAssoc<T>(x: seq<T>, y: seq<T>, z: seq<T>)
    ensures x + y + z == x + (y + z)
  {
  }

  /** Deduplication of a list extended by one value. */
  lemma DedupSnoc<T(!new)>(s: seq<T>, x: T)
    ensures Dedup(s + [x]) == if x in s then Dedup(s) else Dedup(s) + [x]
  {
    assert (s + [x])[..|s|] == s;
  }

  /** Deduplicating a list without repeats followed by more values keeps that
      list as a prefix and then adds the new values not already present,
      each once, in the order they first appear. */
  lemma {:induction false} DedupAfterNoDup<T(!new)>(a: seq<T>, b: seq<T>)
    requires NoDup(a)
    ensures Dedup(a + b) == a + Dedup(Unseen(b, a))
    decreases |b|
  {
    if b == [] {
      assert a + b == a;
      DedupOfNoDup(a);
    } else {
      var init, last := b[..|b| - 1], b[|b| - 1];
      var f := Unseen(init, a);
      DedupAfterNoDup(a, init);
      assert b == init + [last];
      assert a + b == (a + init) + [last];
      DedupSnoc(a + init, last);
      if last in a {
        assert Unseen(b, a) == f;
        calc {
          Dedup(a + b);
          Dedup(a + init);
          a + Dedup(f);
        }
      } else {
        assert Unseen(b, a) == f + [last];
        DedupSnoc(f, last);
        assert last in a + init <==> last in f;
        if last in f {
          calc {
            Dedup(a + b);
            Dedup(a + init);
            a + Dedup(f);
            a + Dedup(f + [last]);
          }
        } else {
          calc {
            Dedup(a + b);
            Dedup(a + init) + [last];
            a + Dedup(f) + [last];
            { AppendAssoc(a, Dedup(f), [last]); }
            a + (Dedup(f) + [last]);
            a + Dedup(f + [last]);
          }
        }
      }
    }
  }

  /** Deduplicating in two steps is deduplicating once, which is why
      successive `new Set` unions equal one union of everything. */
  lemma {:induction false} DedupTwice<T(!new)>(a: seq<T>, b: seq<T>)
    ensures Dedup(Dedup(a) + b) == Dedup(a + b)
    decreases |b|
  {
    if b == [] {
      assert Dedup(a) + b == Dedup(a);
      assert a + b == a;
      DedupOfNoDup(Dedup(a));
    } else {
      var init := b[..|b| - 1];
      DedupTwice(a, init);
      assert (Dedup(a) + b)[..|Dedup(a) + b| - 1] == Dedup(a) + init;
      assert (a + b)[..|a + b| - 1] == a + init;
    }
  }

  /** `ss.flat()`: the lists one after another. */
  function Flatten<T(!new)>(ss: seq<seq<T>>): (r: seq<T>)
    ensures forall x :: x in r <==> exists i :: 0 <= i < |ss| && x in ss[i]
    decreases |ss|
  {
    if ss == [] then []
    else
      var init := ss[..|ss| - 1];
      var r := Flatten(init) + ss[|ss| - 1];
      assert forall i :: 0 <= i < |init| ==> init[i] == ss[i];
      r
  }
}
