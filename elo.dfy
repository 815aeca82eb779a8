/** app/elo/page.tsx: pairwise comparison of the favourite projects with
    Elo ratings. `10 ** x` is the parameter `pow`, `Math.pow(k, 1.5)` the
    parameter `power`, and each `Math.random()` draw an input in [0, 1). */
module Elo {

  import opened Wrappers
  import opened Lists
  import opened Records

  /** The `"A" | "B" | "DRAW"` argument of `calculateElo`. */
  datatype Outcome = AWins | BWins | Draw

  /** The K-factor: the largest change one comparison can make. */
  const K: real := 32.0

  /** The starting rating, and the reading of a missing or zero rating. */
  const Initial: int := 1000

  /** `Math.round`: the nearest integer, halves rounded up. */
  function Round(x: real): (r: int)
    ensures x - 0.5 < r as real <= x + 0.5
  {
    (x + 0.5).Floor
  }

  /** `1 / (1 + 10 ** ((opponent - own) / 400))`, with `pow` standing for
      `10 **`: a probability strictly between 0 and 1, and one half for
      equal ratings. */
  function Expected(pow: real -> real, own: int, opponent: int): (e: real)
    requires pow((opponent - own) as real / 400.0) > 0.0
    ensures 0.0 < e < 1.0
    ensures pow(0.0) == 1.0 && own == opponent ==> e == 0.5
  {
    var p := pow((opponent - own) as real / 400.0);
    ExpectedBounds(p);
    1.0 / (1.0 + p)
  }

  lemma ExpectedBounds(p: real)
    requires p > 0.0
    ensures 0.0 < 1.0 / (1.0 + p) < 1.0
  {
    var e := 1.0 / (1.0 + p);
    assert e * (1.0 + p) == 1.0;
  }

  /** The scores `scoreA` and `scoreB` of an outcome. */
  function Scores(result: Outcome): (real, real) {
    match result
    case AWins => (1.0, 0.0)
    case BWins => (0.0, 1.0)
    case Draw => (0.5, 0.5)
  }

  /** `10 **` is positive at both exponents `calculateElo` uses. */
  predicate PositiveAt(pow: real -> real, ratingA: int, ratingB: int) {
    pow((ratingB - ratingA) as real / 400.0) > 0.0 && pow((ratingA - ratingB) as real / 400.0) > 0.0
  }

  /** `calculateElo(ratingA, ratingB, result)`: the pair
      (newRatingA, newRatingB). */
  function CalculateElo(pow: real -> real, ratingA: int, ratingB: int, result: Outcome): (r: (int, int))
    requires PositiveAt(pow, ratingA, ratingB)
  {
    var expectedA := Expected(pow, ratingA, ratingB);
    var expectedB := Expected(pow, ratingB, ratingA);
    var (scoreA, scoreB) := Scores(result);
    (Round(ratingA as real + K * (scoreA - expectedA)), Round(ratingB as real + K * (scoreB - expectedB)))
  }

  /** A winner never loses points, a loser never gains any, neither moves by
      more than K, and a draw moves each side by at most K / 2. */
  lemma EloBounds(pow: real -> real, a: int, b: int, result: Outcome)
    requires PositiveAt(pow, a, b)
    ensures var (na, nb) := CalculateElo(pow, a, b, result);
      match result
      case AWins => a <= na <= a + 32 && b - 32 <= nb <= b
      case BWins => a - 32 <= na <= a && b <= nb <= b + 32
      case Draw => a - 16 <= na <= a + 16 && b - 16 <= nb <= b + 16
  {
  }

  /** Between equal ratings a draw changes nothing and a win moves 16 points
      from the loser to the winner. */
  lemma EqualRatings(pow: real -> real, a: int)
    requires pow(0.0) == 1.0
    ensures CalculateElo(pow, a, a, Draw) == (a, a)
    ensures CalculateElo(pow, a, a, AWins) == (a + 16, a - 16)
    ensures CalculateElo(pow, a, a, BWins) == (a - 16, a + 16)
  {
    assert (a - a) as real / 400.0 == 0.0;
  }

  /** The first comparison of two new projects: 1000/1000 becomes 1016/984. */
  lemma FirstWin(pow: real -> real)
    requires pow(0.0) == 1.0
    ensures CalculateElo(pow, Initial, Initial, AWins) == (1016, 984)
  {
    EqualRatings(pow, Initial);
  }

  /** The outcome seen from the other side: swapping the projects and the
      winner swaps the new ratings. */
  lemma SwapSymmetry(pow: real -> real, a: int, b: int)
    requires PositiveAt(pow, a, b)
    ensures var (na, nb) := CalculateElo(pow, a, b, AWins);
      CalculateElo(pow, b, a, BWins) == (nb, na)
    ensures var (na, nb) := CalculateElo(pow, a, b, Draw);
      CalculateElo(pow, b, a, Draw) == (nb, na)
  {
  }

  /** With `10 ** -x == 1 / 10 ** x` the two expected scores add up to one,
      so a comparison moves points from one side to the other: the sum of
      the ratings grows by at most the one point rounding can add. */
  lemma PointsConserved(pow: real -> real, a: int, b: int, result: Outcome)
    requires PositiveAt(pow, a, b)
    requires pow((b - a) as real / 400.0) * pow((a - b) as real / 400.0) == 1.0
    ensures var (na, nb) := CalculateElo(pow, a, b, result);
      a + b <= na + nb <= a + b + 1
  {
    var p := pow((b - a) as real / 400.0);
    var q := pow((a - b) as real / 400.0);
    ExpectedSum(p, q);
  }

  lemma ExpectedSum(p: real, q: real)
    requires p > 0.0 && q > 0.0 && p * q == 1.0
    ensures 1.0 / (1.0 + p) + 1.0 / (1.0 + q) == 1.0
  {
    var ea := 1.0 / (1.0 + p);
    var eb := 1.0 / (1.0 + q);
    assert ea * (1.0 + p) == 1.0;
    assert eb * (1.0 + q) == 1.0;
    assert eb * (p + 1.0) == eb * (p + p * q) == p * (eb * (1.0 + q)) == p;
    assert (ea + eb) * (1.0 + p) == 1.0 + p;
  }

  // ---------------------------------------------------------------------
  // The rating state

  /** The `projectsElo` state: a rating per project title, and the number
      of comparisons made. */
  datatype EloState = EloState(ratings: map<string, int>, comparisonCount: int)

  /** `ratings[title] || 1000`: a missing rating, and a zero one, read as
      the starting rating. */
  function ReadRating(ratings: map<string, int>, title: string): (r: int)
    ensures r != 0
    ensures title !in ratings ==> r == Initial
    ensures title in ratings && ratings[title] != 0 ==> r == ratings[title]
  {
    if title in ratings && ratings[title] != 0 then ratings[title] else Initial
  }

  /** `10 **` is positive everywhere. */
  ghost predicate PositivePow(pow: real -> real) {
    forall x :: pow(x) > 0.0
  }

  /** `handleSelection(result)`, applied to the state: nothing happens
      unless both sides are shown; otherwise the two shown titles get their
      new ratings and the comparison count goes up by one. When both sides
      carry the same title the write for B is the one that stays. */
  function HandleSelection(state: EloState, projectA: Option<Project>, projectB: Option<Project>,
                           result: Outcome, pow: real -> real): (r: EloState)
    requires PositivePow(pow)
    ensures projectA.None? || projectB.None? ==> r == state
    ensures projectA.Some? && projectB.Some? ==>
      var a, b := projectA.value.title, projectB.value.title;
      var (na, nb) := CalculateElo(pow, ReadRating(state.ratings, a), ReadRating(state.ratings, b), result);
      && r.comparisonCount == state.comparisonCount + 1
      && r.ratings.Keys == state.ratings.Keys + {a, b}
      && r.ratings[b] == nb
      && (a != b ==> r.ratings[a] == na)
      && forall t :: t in state.ratings && t != a && t != b ==> r.ratings[t] == state.ratings[t]
  {
    if projectA.None? || projectB.None? then state
    else
      var a, b := projectA.value.title, projectB.value.title;
      var ratingA, ratingB := ReadRating(state.ratings, a), ReadRating(state.ratings, b);
      var (na, nb) := CalculateElo(pow, ratingA, ratingB, result);
      EloState(state.ratings[a := na][b := nb], state.comparisonCount + 1)
  }

  /** A comparison the first project wins raises its rating by at most K and
      lowers the other's by at most K. */
  lemma SelectionRewardsWinner(state: EloState, pa: Project, pb: Project, pow: real -> real)
    requires PositivePow(pow)
    requires pa.title != pb.title
    ensures var r := HandleSelection(state, Some(pa), Some(pb), AWins, pow);
      var ra, rb := ReadRating(state.ratings, pa.title), ReadRating(state.ratings, pb.title);
      && ra <= r.ratings[pa.title] <= ra + 32
      && rb - 32 <= r.ratings[pb.title] <= rb
  {
    var ra, rb := ReadRating(state.ratings, pa.title), ReadRating(state.ratings, pb.title);
    EloBounds(pow, ra, rb, AWins);
  }

  /** `projects.filter(p => favorites.includes(p.title))`. */
  function FavoriteProjects(projects: seq<Project>, favorites: seq<string>): (r: seq<Project>)
    ensures SubList(r, projects)
    ensures forall p :: p in r <==> p in projects && p.title in favorites
  {
    FilterIsSubList(projects, (p: Project) => p.title in favorites);
    Filter(projects, (p: Project) => p.title in favorites)
  }

  /** The rating-initialisation effect's loop over the favourite titles:
      every title without a rating gets the starting rating, and
      `hasChanges` records whether any did. */
  method InitRatings(ratings: map<string, int>, titles: seq<string>)
    returns (updated: map<string, int>, hasChanges: bool)
    ensures updated.Keys == ratings.Keys + set t | t in titles
    ensures forall t :: t in ratings ==> updated[t] == ratings[t]
    ensures forall t :: t in updated && t !in ratings ==> updated[t] == Initial
    ensures hasChanges <==> exists t :: t in titles && t !in ratings
  {
    updated, hasChanges := ratings, false;
    var i := 0;
    while i < |titles|
      invariant 0 <= i <= |titles|
      invariant updated.Keys == ratings.Keys + set t | t in titles[..i]
      invariant forall t :: t in ratings ==> updated[t] == ratings[t]
      invariant forall t :: t in updated && t !in ratings ==> updated[t] == Initial
      invariant hasChanges <==> exists t :: t in titles[..i] && t !in ratings
    {
      assert titles[..i + 1] == titles[..i] + [titles[i]];
      if titles[i] !in updated {
        updated := updated[titles[i] := Initial];
        hasChanges := true;
      }
      i := i + 1;
    }
    assert titles[..|titles|] == titles;
  }

  /** The titles of a list of projects, in order. */
  function Titles(projects: seq<Project>): (r: seq<string>)
    ensures |r| == |projects|
    ensures forall i :: 0 <= i < |projects| ==> r[i] == projects[i].title
  {
    seq(|projects|, i requires 0 <= i < |projects| => projects[i].title)
  }

  /** The initialisation effect: with favourites present and some of them
      unrated, the ratings are replaced by the initialised copy; the
      comparison count is never touched. */
  method InitEffect(state: EloState, favoriteProjects: seq<Project>) returns (r: EloState)
    ensures r.comparisonCount == state.comparisonCount
    ensures r.ratings.Keys == state.ratings.Keys + set p | p in favoriteProjects :: p.title
    ensures forall t :: t in state.ratings ==> r.ratings[t] == state.ratings[t]
    ensures forall t :: t in r.ratings && t !in state.ratings ==> r.ratings[t] == Initial
  {
    r := state;
    if |favoriteProjects| > 0 {
      var titles := Titles(favoriteProjects);
      var updated, hasChanges := InitRatings(state.ratings, titles);
      assert (set t | t in titles) == set p | p in favoriteProjects :: p.title by {
        forall t | t in titles ensures t in set p | p in favoriteProjects :: p.title {
          var i :| 0 <= i < |titles| && titles[i] == t;
          assert favoriteProjects[i] in favoriteProjects;
        }
      }
      if hasChanges {
        r := state.(ratings := updated);
      } else {
        assert forall t :: t in titles ==> t in state.ratings;
      }
    }
  }

  /** `handleUnfavorite(title)`'s new favourites: every occurrence of the
      title goes, the rest keep their order. */
  function Unfavorite(favorites: seq<string>, title: string): (r: seq<string>)
    ensures title !in r
    ensures SubList(r, favorites)
    ensures forall t :: t != title ==> (t in r <==> t in favorites)
  {
    FilterIsSubList(favorites, t => t != title);
    Filter(favorites, t => t != title)
  }

  /** Unfavouring a title that is not a favourite changes nothing. */
  lemma UnfavoriteAbsent(favorites: seq<string>, title: string)
    requires title !in favorites
    ensures Unfavorite(favorites, title) == favorites
  {
    FilterKeepsAll(favorites, t => t != title);
  }

  // ---------------------------------------------------------------------
  // The leaderboard order

  /** A project with the rating it is ranked by. */
  datatype Rated = Rated(project: Project, elo: int)

  /** `favoriteProjects.map(p => ({...p, elo: ratings[p.title] || 1000}))`. */
  function WithRatings(projects: seq<Project>, ratings: map<string, int>): (r: seq<Rated>)
    ensures |r| == |projects|
    ensures forall i :: 0 <= i < |projects| ==> r[i] == Rated(projects[i], ReadRating(ratings, projects[i].title))
  {
    seq(|projects|, i requires 0 <= i < |projects| => Rated(projects[i], ReadRating(ratings, projects[i].title)))
  }

  predicate NonIncreasing(s: seq<Rated>) {
    forall i, j :: 0 <= i < j < |s| ==> s[i].elo >= s[j].elo
  }

  /** Inserts `x` after every entry rated at least as high, as the stable
      `sort((a, b) => b.elo - a.elo)` places a later entry. */
  function InsertDescending(x: Rated, s: seq<Rated>): (r: seq<Rated>)
    requires NonIncreasing(s)
    ensures NonIncreasing(r)
    ensures multiset(r) == multiset(s) + multiset{x}
    ensures forall y :: y in r ==> y == x || y in s
  {
    if s == [] then [x]
    else if s[0].elo >= x.elo then
      var rest := InsertDescending(x, s[1..]);
      assert s == [s[0]] + s[1..];
      HeadTopsRest(s);
      ConsDescending(s[0], rest);
      [s[0]] + rest
    else
      HeadTopsRest(s);
      ConsDescending(x, s);
      [x] + s
  }

  /** The head of a descending list is rated at least as high as all of it. */
  lemma HeadTopsRest(s: seq<Rated>)
    requires NonIncreasing(s) && s != []
    ensures forall y :: y in s ==> s[0].elo >= y.elo
  {
    forall y | y in s ensures s[0].elo >= y.elo {
      var j :| 0 <= j < |s| && s[j] == y;
      if j > 0 {
        assert s[0].elo >= s[j].elo;
      }
    }
  }

  /** An entry rated at least as high as every entry of a descending list can
      head it. */
  lemma ConsDescending(h: Rated, rest: seq<Rated>)
    requires NonIncreasing(rest)
    requires forall y :: y in rest ==> h.elo >= y.elo
    ensures NonIncreasing([h] + rest)
  {
    var r := [h] + rest;
    forall i, j | 0 <= i < j < |r| ensures r[i].elo >= r[j].elo {
      assert r[j] == rest[j - 1];
      if i > 0 {
        assert r[i] == rest[i - 1];
      } else {
        assert rest[j - 1] in rest;
      }
    }
  }

  /** `sort((a, b) => b.elo - a.elo)`. */
  function SortDescending(s: seq<Rated>): (r: seq<Rated>)
    ensures NonIncreasing(r)
    ensures multiset(r) == multiset(s)
  {
    if s == [] then []
    else
      assert s == s[..|s| - 1] + [s[|s| - 1]];
      InsertDescending(s[|s| - 1], SortDescending(s[..|s| - 1]))
  }

  /** The projects ranked by rating, highest first: the leaderboard, and the
      order `selectRandomProjects` draws from. */
  function Ranked(favoriteProjects: seq<Project>, ratings: map<string, int>): (r: seq<Rated>)
    ensures NonIncreasing(r)
    ensures multiset(r) == multiset(WithRatings(favoriteProjects, ratings))
    ensures |r| == |favoriteProjects|
  {
    var r := SortDescending(WithRatings(favoriteProjects, ratings));
    assert |r| == |multiset(r)|;
    r
  }

  /** Every ranked entry is a favourite project with its rating, and every
      favourite project is ranked. */
  lemma RankedEntries(favoriteProjects: seq<Project>, ratings: map<string, int>)
    ensures forall e :: e in Ranked(favoriteProjects, ratings) <==>
      e.project in favoriteProjects && e.elo == ReadRating(ratings, e.project.title)
  {
    var r := Ranked(favoriteProjects, ratings);
    var w := WithRatings(favoriteProjects, ratings);
    forall e ensures e in r <==> e.project in favoriteProjects && e.elo == ReadRating(ratings, e.project.title) {
      calc {
        e in r;
        e in multiset(r);
        e in multiset(w);
        e in w;
      }
      if e in w {
        var i :| 0 <= i < |w| && w[i] == e;
        assert favoriteProjects[i] == e.project;
      }
      if e.project in favoriteProjects && e.elo == ReadRating(ratings, e.project.title) {
        var i :| 0 <= i < |favoriteProjects| && favoriteProjects[i] == e.project;
        assert w[i] == e;
      }
    }
  }

  // ---------------------------------------------------------------------
  // The biased pair selection

  /** `Math.pow(k, 1.5)` is positive for every positive `k`. */
  ghost predicate PositiveWeights(power: nat -> real) {
    forall k: nat :: k > 0 ==> power(k) > 0.0
  }

  /** The weight of rank `i` among `n`: `Math.pow(n - i, 1.5)`, so the
      weights decrease with rank. */
  function Weight(power: nat -> real, n: nat, i: nat): real
    requires i < n
  {
    power(n - i)
  }

  /** The weights of the first `k` ranks, the excluded one left out: the
      `totalWeight` reduce when `k == n`. */
  function Cumulative(power: nat -> real, n: nat, exclude: int, k: nat): real
    requires k <= n
  {
    if k == 0 then 0.0
    else Cumulative(power, n, exclude, k - 1) + (if k - 1 == exclude then 0.0 else Weight(power, n, k - 1))
  }

  /** The weights of ranks 0 to `j`, the excluded one left out. */
  function Through(power: nat -> real, n: nat, exclude: int, j: nat): real
    requires j < n
  {
    Cumulative(power, n, exclude, j + 1)
  }

  /** Some rank other than the excluded one exists. */
  predicate Selectable(n: nat, exclude: int) {
    n >= 2 || (n == 1 && exclude != 0)
  }

  /** The cumulative weights never decrease. */
  lemma {:induction false} CumulativeMonotone(power: nat -> real, n: nat, exclude: int, j: nat, k: nat)
    requires PositiveWeights(power)
    requires j <= k <= n
    ensures 0.0 <= Cumulative(power, n, exclude, j) <= Cumulative(power, n, exclude, k)
    decreases k
  {
    if j < k {
      CumulativeMonotone(power, n, exclude, j, k - 1);
    } else if k > 0 {
      CumulativeMonotone(power, n, exclude, k - 1, k - 1);
    }
  }

  /** When a rank can be picked, the last one that can carries the
      cumulative weight up to the positive total. */
  lemma LastSelectable(power: nat -> real, n: nat, exclude: int) returns (last: nat)
    requires PositiveWeights(power)
    ensures Selectable(n, exclude) ==>
      && Cumulative(power, n, exclude, n) > 0.0
      && last < n && last != exclude
      && Through(power, n, exclude, last) == Cumulative(power, n, exclude, n)
  {
    last := 0;
    if n >= 1 && n - 1 != exclude {
      last := n - 1;
      CumulativeMonotone(power, n, exclude, 0, n - 1);
    } else if n >= 2 {
      last := n - 2;
      CumulativeMonotone(power, n, exclude, 0, n - 2);
      assert Through(power, n, exclude, n - 2) == Cumulative(power, n, exclude, n);
    }
  }

  /** A draw below one lands below a positive total. */
  lemma DrawBelowTotal(draw: real, total: real)
    requires 0.0 <= draw < 1.0
    ensures total > 0.0 ==> draw * total < total
  {
  }

  /** A draw cannot pass over every rank that can be picked: the last one
      carries the cumulative weight up to the total, which exceeds the
      drawn value. */
  lemma PassedOverAll(power: nat -> real, n: nat, exclude: int, draw: real, target: real)
    requires PositiveWeights(power)
    requires 0.0 <= draw < 1.0
    requires target == draw * Cumulative(power, n, exclude, n)
    requires forall j :: 0 <= j < n && j != exclude ==> target > Through(power, n, exclude, j)
    ensures !Selectable(n, exclude)
  {
    var last := ReachingRank(power, n, exclude, draw);
  }

  /** When a rank can be picked, some rank's cumulative weight exceeds any
      draw below one of the total. */
  lemma ReachingRank(power: nat -> real, n: nat, exclude: int, draw: real) returns (last: nat)
    requires PositiveWeights(power)
    requires 0.0 <= draw < 1.0
    ensures Selectable(n, exclude) ==>
      last < n && last != exclude && draw * Cumulative(power, n, exclude, n) < Through(power, n, exclude, last)
  {
    last := LastSelectable(power, n, exclude);
    DrawBelowTotal(draw, Cumulative(power, n, exclude, n));
  }

  /** The rank the walk of `selectWithBias` stops at when it starts at rank
      `i` with `target` left: the first rank from `i` on, other than the
      excluded one, whose cumulative weight reaches the target; 0 when
      there is none. */
  function PickFrom(power: nat -> real, n: nat, exclude: int, target: real, i: nat): (r: nat)
    requires i <= n
    ensures || (i <= r < n && r != exclude && target <= Through(power, n, exclude, r)
                && forall j :: i <= j < r && j != exclude ==> target > Through(power, n, exclude, j))
            || (r == 0 && forall j :: i <= j < n && j != exclude ==> target > Through(power, n, exclude, j))
    decreases n - i
  {
    if i == n then 0
    else if i != exclude && target <= Through(power, n, exclude, i) then i
    else PickFrom(power, n, exclude, target, i + 1)
  }

  /** The rank `selectWithBias(exclude)` picks among `n` ranks for the
      draw `draw` of `Math.random()`. */
  function Pick(n: nat, power: nat -> real, exclude: int, draw: real): (r: nat)
    requires PositiveWeights(power)
    requires 0.0 <= draw < 1.0
    ensures !Selectable(n, exclude) ==> r == 0
    ensures Selectable(n, exclude) ==>
      var target := draw * Cumulative(power, n, exclude, n);
      && r < n && r != exclude
      && target <= Through(power, n, exclude, r)
      && forall j :: 0 <= j < r && j != exclude ==> target > Through(power, n, exclude, j)
  {
    var target := draw * Cumulative(power, n, exclude, n);
    var r := PickFrom(power, n, exclude, target, 0);
    if r == 0 && forall j :: 0 <= j < n && j != exclude ==> target > Through(power, n, exclude, j) then
      PassedOverAll(power, n, exclude, draw, target);
      r
    else
      r
  }

  /** `selectWithBias(excludeIndex)` over `n` ranked projects, with `draw`
      the value of `Math.random()`: walk the ranks, subtracting each weight
      from `draw * totalWeight`, and pick the first rank where it is used
      up. When some rank can be picked, the pick is in range, is not the
      excluded rank, and is the first rank whose cumulative weight reaches
      the drawn value; the fallback to rank 0 is left only when no rank
      can be picked. */
  method SelectWithBias(n: nat, power: nat -> real, exclude: int, draw: real) returns (index: nat)
    requires PositiveWeights(power)
    requires 0.0 <= draw < 1.0
    ensures index == Pick(n, power, exclude, draw)
    ensures !Selectable(n, exclude) ==> index == 0
    ensures Selectable(n, exclude) ==>
      var target := draw * Cumulative(power, n, exclude, n);
      && index < n && index != exclude
      && target <= Through(power, n, exclude, index)
      && forall j :: 0 <= j < index && j != exclude ==> target > Through(power, n, exclude, j)
  {
    var totalWeight := Cumulative(power, n, exclude, n);
    var target := draw * totalWeight;
    var found;
    index, found := WalkWeights(n, power, exclude, target);
    if !found {
      PassedOverAll(power, n, exclude, draw, target);
    }
  }

  /** The loop of `selectWithBias`: subtracts each rank's weight from the
      target until it is used up, and reports the rank where that happens. */
  method WalkWeights(n: nat, power: nat -> real, exclude: int, target: real) returns (index: nat, found: bool)
    ensures found ==> index < n && index != exclude && target <= Through(power, n, exclude, index)
    ensures !found ==> index == 0
    ensures forall j :: 0 <= j < (if found then index else n) && j != exclude ==> target > Through(power, n, exclude, j)
  {
    var randomWeight := target;
    index := 0;
    found := false;
    var i := 0;
    while i < n
      invariant 0 <= i <= n
      invariant randomWeight == target - Cumulative(power, n, exclude, i)
      invariant forall j :: 0 <= j < i && j != exclude ==> target > Through(power, n, exclude, j)
      invariant !found && index == 0
    {
      if i == exclude {
        i := i + 1;
        continue;
      }
      var weight := Weight(power, n, i);
      assert Through(power, n, exclude, i) == Cumulative(power, n, exclude, i) + weight;
      randomWeight := randomWeight - weight;
      if randomWeight <= 0.0 {
        index := i;
        found := true;
        return;
      }
      i := i + 1;
    }
  }

  /** `selectRandomProjects()`: no pair with fewer than two favourites;
      otherwise the rank `selectWithBias()` picks with `draw1`, and the
      rank `selectWithBias(first)` picks with `draw2`: two different ranks. */
  method SelectRandomProjects(favoriteProjects: seq<Project>, ratings: map<string, int>,
                              power: nat -> real, draw1: real, draw2: real)
    returns (pair: Option<(Project, Project)>)
    requires PositiveWeights(power)
    requires 0.0 <= draw1 < 1.0 && 0.0 <= draw2 < 1.0
    ensures pair.None? <==> |favoriteProjects| < 2
    ensures pair.Some? ==>
      var ranked := Ranked(favoriteProjects, ratings);
      exists i, j :: 0 <= i < |ranked| && 0 <= j < |ranked| && i != j
                     && pair.value == (ranked[i].project, ranked[j].project)
    ensures pair.Some? ==>
      var ranked := Ranked(favoriteProjects, ratings);
      var first := Pick(|ranked|, power, -1, draw1);
      var second := Pick(|ranked|, power, first, draw2);
      first < |ranked| && second < |ranked| && first != second
      && pair.value == (ranked[first].project, ranked[second].project)
    ensures pair.Some? ==> pair.value.0 in favoriteProjects && pair.value.1 in favoriteProjects
    ensures pair.Some? && |favoriteProjects| == 2 ==>
      var ranked := Ranked(favoriteProjects, ratings);
      pair.value == (ranked[0].project, ranked[1].project) || pair.value == (ranked[1].project, ranked[0].project)
  {
    if |favoriteProjects| < 2 {
      return None;
    }
    var ranked := Ranked(favoriteProjects, ratings);
    var n := |ranked|;
    var first := SelectWithBias(n, power, -1, draw1);
    var second := SelectWithBias(n, power, first, draw2);
    RankedEntries(favoriteProjects, ratings);
    assert ranked[first] in ranked && ranked[second] in ranked;
    pair := Some((ranked[first].project, ranked[second].project));
  }
}
