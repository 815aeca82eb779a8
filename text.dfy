/** The JavaScript string operations the source relies on, over Dafny strings
    (sequences of code points): `trim`, `toLowerCase`, `includes`,
    `startsWith`, `endsWith`, `indexOf`, `split(sep)[1]`, `replace` of a
    plain string, `substring(0, n)`, and decimal rendering of integers. */
module Text {

  import opened Wrappers

  /** The characters JavaScript's `String.prototype.trim` removes: the
      WhiteSpace and LineTerminator productions of ECMAScript. */
  predicate IsSpace(c: char) {
    || c == ' ' || c == '\t' || c == '\n' || c == '\r'
    || c == '\U{000B}' || c == '\U{000C}' || c == '\U{00A0}' || c == '\U{FEFF}'
    || c == '\U{1680}' || ('\U{2000}' <= c <= '\U{200A}') || c == '\U{2028}'
    || c == '\U{2029}' || c == '\U{202F}' || c == '\U{205F}' || c == '\U{3000}'
  }

  predicate AllSpace(s: string) {
    forall i :: 0 <= i < |s| ==> IsSpace(s[i])
  }

  /** Drops leading white space. */
  function TrimStart(s: string): (r: string)
    ensures |r| <= |s| && r == s[|s| - |r|..]
    ensures AllSpace(s[..|s| - |r|])
    ensures r == [] || !IsSpace(r[0])
  {
    if s == [] || !IsSpace(s[0]) then s
    else
      var r := TrimStart(s[1..]);
      assert s[1..][..|s| - 1 - |r|] == s[1..|s| - |r|];
      SpaceBefore(s, |s| - |r|);
      r
  }

  /** Drops trailing white space. */
  function TrimEnd(s: string): (r: string)
    ensures |r| <= |s| && r == s[..|r|]
    ensures AllSpace(s[|r|..])
    ensures r == [] || !IsSpace(r[|r| - 1])
  {
    if s == [] || !IsSpace(s[|s| - 1]) then s
    else
      var r := TrimEnd(s[..|s| - 1]);
      assert s[..|s| - 1][|r|..] == s[|r|..|s| - 1];
      SpaceAfter(s, |r|);
      r
  }

  /** White space followed by a run of white space is a run of white space. */
  lemma SpaceBefore(s: string, n: int)
    requires 0 < n <= |s| && IsSpace(s[0]) && AllSpace(s[1..n])
    ensures AllSpace(s[..n])
  {
    forall i | 0 <= i < n ensures IsSpace(s[..n][i]) {
      if i > 0 {
        assert s[..n][i] == s[1..n][i - 1];
      }
    }
  }

  /** A run of white space followed by white space is a run of white space. */
  lemma SpaceAfter(s: string, n: int)
    requires 0 <= n < |s| && IsSpace(s[|s| - 1]) && AllSpace(s[n..|s| - 1])
    ensures AllSpace(s[n..])
  {
    forall i | 0 <= i < |s| - n ensures IsSpace(s[n..][i]) {
      if i < |s| - 1 - n {
        assert s[n..][i] == s[n..|s| - 1][i];
      }
    }
  }

  /** `s.trim()`: the text between the leading and the trailing white space. */
  function Trim(s: string): string {
    TrimEnd(TrimStart(s))
  }

  /** Trim keeps an infix of its input, surrounded only by white space. */
  lemma TrimIsInfix(s: string)
    ensures exists i, j :: 0 <= i <= j <= |s| && Trim(s) == s[i..j]
                           && AllSpace(s[..i]) && AllSpace(s[j..])
  {
    var t := TrimStart(s);
    var i := |s| - |t|;
    var r := TrimEnd(t);
    var j := i + |r|;
    SliceOfSuffix(s, i, t, r);
    InfixWitness(s, i, j, r);
  }

  /** A prefix of a suffix is a slice, and what follows it is a suffix. */
  lemma SliceOfSuffix<T>(s: seq<T>, i: nat, t: seq<T>, r: seq<T>)
    requires i <= |s| && t == s[i..] && |r| <= |t| && r == t[..|r|]
    ensures r == s[i..i + |r|] && t[|r|..] == s[i + |r|..]
  {
  }

  lemma InfixWitness(s: string, i: int, j: int, r: string)
    requires 0 <= i <= j <= |s| && r == s[i..j] && AllSpace(s[..i]) && AllSpace(s[j..])
    ensures exists i, j :: 0 <= i <= j <= |s| && r == s[i..j] && AllSpace(s[..i]) && AllSpace(s[j..])
  {
  }

  /** The result of Trim neither starts nor ends with white space. */
  lemma TrimUnpadded(s: string)
    ensures Trim(s) == [] || (!IsSpace(Trim(s)[0]) && !IsSpace(Trim(s)[|Trim(s)| - 1]))
  {
    var t := TrimStart(s);
    var r := TrimEnd(t);
    if r != [] {
      assert r[0] == t[0];
    }
  }

  /** Trim gives the empty string exactly when its input is all white space. */
  lemma TrimEmptyIff(s: string)
    ensures Trim(s) == [] <==> AllSpace(s)
  {
    var t := TrimStart(s);
    var k := |s| - |t|;
    if Trim(s) == [] {
      assert t[0..] == t;
      assert t == [];
      assert s == s[..k];
    }
    if AllSpace(s) {
      assert t == [];
    }
  }

  /** Trimming twice is trimming once. */
  lemma TrimIdempotent(s: string)
    ensures Trim(Trim(s)) == Trim(s)
  {
    TrimUnpadded(s);
    var r := Trim(s);
    if r != [] {
      assert TrimStart(r) == r;
      assert TrimEnd(r) == r;
    }
  }

  /** A string that neither starts nor ends with white space is its own trim. */
  lemma TrimOfUnpadded(s: string)
    requires s == [] || (!IsSpace(s[0]) && !IsSpace(s[|s| - 1]))
    ensures Trim(s) == s
  {
  }

  /** `toLowerCase` on one character, for the ASCII and Latin-1 letters
      (A-Z and À-Þ except ×, which include the Norwegian Æ, Ø and Å). */
  function LowerChar(c: char): (d: char)
    ensures 'A' <= c <= 'Z' ==> 'a' <= d <= 'z'
  {
    if 'A' <= c <= 'Z' then (c as int + 32) as char
    else if '\U{00C0}' <= c <= '\U{00DE}' && c != '\U{00D7}' then (c as int + 32) as char
    else c
  }

  /** `s.toLowerCase()` over the character model of LowerChar. */
  function ToLower(s: string): (r: string)
    ensures |r| == |s|
    ensures forall i :: 0 <= i < |s| ==> r[i] == LowerChar(s[i])
  {
    seq(|s|, i requires 0 <= i < |s| => LowerChar(s[i]))
  }

  /** Lower-casing is idempotent: a lower-cased string stays as it is. */
  lemma ToLowerIdempotent(s: string)
    ensures ToLower(ToLower(s)) == ToLower(s)
  {
  }

  /** `pat` occurs in `s` starting at index `i`. */
  predicate OccursAt(s: string, pat: string, i: int) {
    0 <= i && i + |pat| <= |s| && s[i..i + |pat|] == pat
  }

  /** `s.indexOf(pat, from)`: the first occurrence at or after `from`, or -1. */
  function IndexOf(s: string, pat: string, from: nat): (r: int)
    requires from <= |s|
    ensures r == -1 || (from <= r && OccursAt(s, pat, r))
    ensures r == -1 ==> forall i :: from <= i ==> !OccursAt(s, pat, i)
    ensures r != -1 ==> forall i :: from <= i < r ==> !OccursAt(s, pat, i)
    decreases |s| - from
  {
    if from + |pat| > |s| then -1
    else if s[from..from + |pat|] == pat then from
    else IndexOf(s, pat, from + 1)
  }

  /** `s.includes(pat)`. */
  predicate Contains(s: string, pat: string) {
    IndexOf(s, pat, 0) >= 0
  }

  /** `includes` holds exactly when the pattern occurs at some index. */
  lemma ContainsIff(s: string, pat: string)
    ensures Contains(s, pat) <==> exists i :: OccursAt(s, pat, i)
  {
  }

  /** Every string includes the empty string. */
  lemma ContainsEmpty(s: string)
    ensures Contains(s, "")
  {
    assert OccursAt(s, "", 0);
  }

  /** `s.startsWith(p)`. */
  predicate StartsWith(s: string, p: string) {
    |p| <= |s| && s[..|p|] == p
  }

  /** `s.endsWith(p)`. */
  predicate EndsWith(s: string, p: string) {
    |p| <= |s| && s[|s| - |p|..] == p
  }

  /** `s.split(sep)[1]` for a non-empty separator: the text between the first
      and the second occurrence of `sep` (or the end of `s`), or None when
      `sep` does not occur and the array has no second element. */
  function SecondSplitPart(s: string, sep: string): (r: Option<string>)
    requires |sep| > 0
    ensures r.None? <==> forall i :: !OccursAt(s, sep, i)
    ensures r.Some? ==> exists i :: OccursAt(s, sep, i)
                                    && (forall k :: 0 <= k < i ==> !OccursAt(s, sep, k))
                                    && StartsWith(s[i + |sep|..], r.value)
                                    && (forall k :: i + |sep| <= k < i + |sep| + |r.value| ==> !OccursAt(s, sep, k))
  {
    var i := IndexOf(s, sep, 0);
    if i < 0 then None
    else
      var j := IndexOf(s, sep, i + |sep|);
      var part := if j < 0 then s[i + |sep|..] else s[i + |sep|..j];
      assert StartsWith(s[i + |sep|..], part);
      SplitPartAt(s, sep, i, part);
      Some(part)
  }

  /** The part found after the first occurrence at `i` witnesses the split. */
  lemma SplitPartAt(s: string, sep: string, i: int, part: string)
    requires OccursAt(s, sep, i) && forall k :: 0 <= k < i ==> !OccursAt(s, sep, k)
    requires StartsWith(s[i + |sep|..], part)
    requires forall k :: i + |sep| <= k < i + |sep| + |part| ==> !OccursAt(s, sep, k)
    ensures exists i :: OccursAt(s, sep, i)
                        && (forall k :: 0 <= k < i ==> !OccursAt(s, sep, k))
                        && StartsWith(s[i + |sep|..], part)
                        && (forall k :: i + |sep| <= k < i + |sep| + |part| ==> !OccursAt(s, sep, k))
  {
  }

  /** `s.replace(pat, rep)` with a plain-string pattern: only the first
      occurrence is replaced. */
  function ReplaceFirst(s: string, pat: string, rep: string): (r: string)
  {
    var i := IndexOf(s, pat, 0);
    if i < 0 then s else s[..i] + rep + s[i + |pat|..]
  }

  /** Replacing a pattern that the string starts with swaps that prefix. */
  lemma ReplaceFirstPrefix(s: string, pat: string, rep: string)
    requires StartsWith(s, pat)
    ensures ReplaceFirst(s, pat, rep) == rep + s[|pat|..]
  {
    assert OccursAt(s, pat, 0);
  }

  /** `s.substring(0, n)` for n >= 0. */
  function Prefix(s: string, n: nat): (r: string)
    ensures |r| == if n < |s| then n else |s|
    ensures r == s[..|r|]
  {
    if n < |s| then s[..n] else s
  }

  /** `c.repeat(n)`. */
  function Repeat(c: char, n: nat): (r: string)
    ensures |r| == n
    ensures forall i :: 0 <= i < n ==> r[i] == c
  {
    seq(n, _ => c)
  }

  function DigitChar(d: nat): char
    requires d < 10
  {
    ('0' as int + d) as char
  }

  /** Decimal rendering of a natural number (`${n}`). */
  function NatToString(n: nat): (r: string)
    ensures |r| > 0
    ensures forall i :: 0 <= i < |r| ==> '0' <= r[i] <= '9'
  {
    if n < 10 then [DigitChar(n)] else NatToString(n / 10) + [DigitChar(n % 10)]
  }

  /** Decimal rendering of an integer (`${n}`), with a leading minus sign. */
  function IntToString(n: int): string {
    if n < 0 then "-" + NatToString(-n) else NatToString(n)
  }
}
