/** The helpers scripts/generate-summaries.ts and scripts/generate-titles.ts
    share word for word: the progress bar's time formatting, ETA and bar
    arithmetic, and the cleaning and joining of a project's descriptions
    into the prompt fields sent to the language model. */
module ScriptHelpers {

  import opened Wrappers
  import opened Text
  import opened Records

  // ---------------------------------------------------------------------
  // Time formatting

  /** The three bands `formatTime` prints: seconds, minutes and seconds, or
      hours and minutes. */
  datatype Clock = Seconds(secs: int) | MinutesSeconds(m: nat, s: nat) | HoursMinutes(h: nat, m: nat)

  /** The components `formatTime(ms)` prints, with `Math.floor` and `%`
      read over exact reals (a time below a minute may be negative, as an
      overdue ETA is). Each band's components name the whole seconds,
      minutes or hours the time lies in, and the smaller unit stays below
      sixty. */
  function Split(ms: real): (c: Clock)
    ensures ms < 60000.0 ==> c.Seconds? && (c.secs * 1000) as real <= ms < ((c.secs + 1) * 1000) as real
    ensures 60000.0 <= ms < 3600000.0 ==>
      && c.MinutesSeconds? && 1 <= c.m < 60 && c.s < 60
      && ((c.m * 60 + c.s) * 1000) as real <= ms < ((c.m * 60 + c.s + 1) * 1000) as real
    ensures 3600000.0 <= ms ==>
      && c.HoursMinutes? && 1 <= c.h && c.m < 60
      && ((c.h * 60 + c.m) * 60000) as real <= ms < ((c.h * 60 + c.m + 1) * 60000) as real
  {
    if ms < 60000.0 then
      Seconds((ms / 1000.0).Floor)
    else if ms < 3600000.0 then
      var m := (ms / 60000.0).Floor;
      var rest := ms - (m * 60000) as real;
      MinutesSeconds(m, (rest / 1000.0).Floor)
    else
      var h := (ms / 3600000.0).Floor;
      var rest := ms - (h * 3600000) as real;
      HoursMinutes(h, (rest / 60000.0).Floor)
  }

  /** `formatTime(ms)`: "<s>s", "<m>m <s>s" or "<h>h <m>m". */
  function FormatTime(ms: real): (r: string)
    ensures |r| > 0
  {
    match Split(ms)
    case Seconds(s) => IntToString(s) + "s"
    case MinutesSeconds(m, s) => NatToString(m) + "m " + NatToString(s) + "s"
    case HoursMinutes(h, m) => NatToString(h) + "h " + NatToString(m) + "m"
  }

  /** No time left formats as "0s". */
  lemma FormatZero()
    ensures FormatTime(0.0) == "0s"
  {
    assert Split(0.0) == Seconds(0);
  }

  /** `calculateETA(current)`: the elapsed time per item times the items
      left, or "calculating..." before the first item is done. */
  function Eta(current: int, total: int, elapsedMs: real): (r: string)
    ensures current == 0 ==> r == "calculating..."
    ensures current != 0 && current == total ==> r == "0s"
  {
    if current == 0 then "calculating..."
    else
      var perItem := elapsedMs / current as real;
      var msRemaining := perItem * (total - current) as real;
      assert current == total ==> msRemaining == perItem * 0.0 == 0.0;
      FormatZero();
      FormatTime(msRemaining)
  }

  // ---------------------------------------------------------------------
  // The progress bar

  /** The bar's cells and the percentage; `percent` is None where the
      source prints `NaN`. */
  datatype Bar = Bar(cells: string, percent: Option<int>)

  /** `createProgressBar`'s default bar length, which both scripts use. */
  const BarLength: nat := 30

  /** `Math.floor((current / total) * scale)` over exact arithmetic: within
      the scale while `current` stays within `total`, and the whole scale at
      `total`. */
  function Scaled(current: nat, total: nat, scale: nat): (r: nat)
    requires total > 0
    ensures current <= total ==> r <= scale
    ensures current == total ==> r == scale
  {
    ScaledBounds(current, total, scale);
    current * scale / total
  }

  /** The filled-cell count of the bar. */
  function Filled(current: nat, total: nat): nat
    requires total > 0
  {
    Scaled(current, total, BarLength)
  }

  /** `render(current)`'s bar and percentage. With no items, `0 / 0` is
      `NaN` and both repeats produce ""; a count past the end that fills
      more cells than the bar has makes `repeat` throw a RangeError. While
      `current` stays within `total` the bar has its full length and the
      percentage lies between 0 and 100; at the end both are full. */
  function Render(current: nat, total: nat): (r: Result<Bar>)
    ensures current <= total ==> r.Success?
    ensures r.Success? <==> (total == 0 && current == 0) || (total > 0 && Filled(current, total) <= BarLength)
    ensures total > 0 && current <= total ==>
      && r.value.percent.Some?
      && 0 <= r.value.percent.value <= 100
      && |r.value.cells| == BarLength
      && r.value.cells == Repeat('█', Filled(current, total)) + Repeat('░', BarLength - Filled(current, total))
    ensures total > 0 && current == total ==>
      r.value.percent == Some(100) && r.value.cells == Repeat('█', BarLength)
  {
    if total == 0 then
      if current == 0 then Success(Bar("", None)) else Failure("RangeError")
    else
      var filled := Filled(current, total);
      if filled > BarLength then Failure("RangeError")
      else
        Success(Bar(Repeat('█', filled) + Repeat('░', BarLength - filled), Some(Scaled(current, total, 100))))
  }

  /** `current / total` of a scale stays within the scale while `current`
      stays within `total`, and reaches it at `total`. */
  lemma ScaledBounds(current: nat, total: nat, scale: nat)
    requires total > 0
    ensures current <= total ==> current * scale / total <= scale
    ensures current * scale / total == scale <== current == total
  {
    var x := current * scale;
    var q := x / total;
    assert x == q * total + x % total;
    if current <= total {
      assert x <= total * scale by {
        MulMono(current, total, scale);
      }
      DivBounds(x, total);
      assert (q - scale) * total == q * total - total * scale;
      StepProduct(q - scale, total);
    }
    if current == total {
      assert x == scale * total + 0;
      DivUnique(x, total, scale);
    }
  }

  lemma MulMono(a: nat, b: nat, c: nat)
    requires a <= b
    ensures a * c <= b * c
  {
  }

  lemma DivUnique(x: nat, total: nat, q: nat)
    requires total > 0 && x == q * total
    ensures x / total == q
  {
    var d, r := x / total, x % total;
    assert (d - q) * total == d * total - q * total;
    StepProduct(d - q, total);
  }

  /** A non-zero multiple of `t` is at least `t` away from zero. */
  lemma StepProduct(a: int, t: int)
    requires t >= 0
    ensures a >= 1 ==> a * t >= t
    ensures a <= -1 ==> a * t <= -t
  {
  }

  /** `x / total` is the largest quotient whose multiple stays within `x`. */
  lemma DivBounds(x: nat, total: nat)
    requires total > 0
    ensures (x / total) * total <= x < (x / total + 1) * total
  {
    assert (x / total + 1) * total == (x / total) * total + total;
  }

  // ---------------------------------------------------------------------
  // Cleaning and joining descriptions

  /** What is left of `s` after the tag opened by a '<': everything up to
      and including the next '>', or everything when none follows. */
  function AfterTag(s: string): (r: string)
    ensures |r| <= |s|
    ensures r == s[|s| - |r|..]
    ensures '>' !in s ==> r == ""
  {
    if s == [] then []
    else if s[0] == '>' then s[1..]
    else AfterTag(s[1..])
  }

  /** `s.replace(/<[^>]*>?/gm, "")`: each '<' goes together with everything
      up to and including the next '>' (or to the end of the string). */
  function StripTags(s: string): (r: string)
    ensures |r| <= |s|
    ensures '<' !in r
    ensures forall c :: c in r ==> c in s
    decreases |s|
  {
    if s == [] then []
    else if s[0] == '<' then StripTags(AfterTag(s[1..]))
    else [s[0]] + StripTags(s[1..])
  }

  /** Text without a '<' passes through unchanged. */
  lemma {:induction false} StripTagsNoTags(s: string)
    requires '<' !in s
    ensures StripTags(s) == s
  {
    if s != [] {
      assert forall c :: c in s[1..] ==> c in s;
      StripTagsNoTags(s[1..]);
    }
  }

  /** Stripping twice strips no more than stripping once. */
  lemma StripTagsIdempotent(s: string)
    ensures StripTags(StripTags(s)) == StripTags(s)
  {
    StripTagsNoTags(StripTags(s));
  }

  /** `cleanShort + (cleanShort && cleanFull ? "\n\n" : "") + cleanFull`. */
  function Combine(short: string, full: string): (r: string)
    ensures short == "" ==> r == full
    ensures full == "" ==> r == short
    ensures short != "" && full != "" ==> r == short + "\n\n" + full
  {
    short + (if short != "" && full != "" then "\n\n" else "") + full
  }

  /** The description sent to the model: both descriptions cleaned, then
      joined. It holds no '<', and each part can be read back from it. */
  function CleanDescription(shortDescription: string, fullDescription: string): (r: string)
    ensures '<' !in r
    ensures StripTags(shortDescription) == "" ==> r == StripTags(fullDescription)
    ensures StripTags(fullDescription) == "" ==> r == StripTags(shortDescription)
    ensures StripTags(shortDescription) != "" && StripTags(fullDescription) != "" ==>
      r == StripTags(shortDescription) + "\n\n" + StripTags(fullDescription)
  {
    var short, full := StripTags(shortDescription), StripTags(fullDescription);
    var r := Combine(short, full);
    assert '<' !in "\n\n";
    r
  }

  /** What the prompt tells the model about one project: its title and
      its cleaned description. */
  function PromptFields(p: Project): (string, string) {
    (p.title, CleanDescription(p.shortDescription, p.fullDescription))
  }
}
