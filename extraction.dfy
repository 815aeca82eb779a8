/** The per-container field rules shared by the five copies of the
    extraction code (lib/projectParser.ts, lib/fetchProjects.ts,
    scripts/scrape-projects.ts, app/page.tsx, src/App.tsx). The copies differ
    only in the settings collected in `Rules`. */
module Extraction {

  import opened Wrappers
  import opened Text
  import opened Lists
  import opened Records

  /** Where an id comes from when the permalink has no `oid=` segment: the
      first 12 characters of a deterministic encoding (base64 in the source)
      of "title-teacher", or a random token supplied by the caller
      (`crypto.randomUUID()`, `Math.random().toString(36)`). */
  datatype IdFallback = Encoded(encode: string -> string) | Random

  /** The settings in which the copies differ. */
  datatype Rules = Rules(
    trim: bool,               // `.trim()` applied to text fields
    untitled: string,         // fallback title
    unknownTeacher: string,   // fallback teacher
    unknownStatus: string,    // fallback status
    keepTeacherLink: bool,    // the record has `teacherLink`
    resolveLink: bool,        // link from `.href` instead of `getAttribute("href")`
    innerHtml: bool,          // descriptions from `innerHTML` instead of `textContent`
    detectType: bool,         // the record has `type`
    fallback: IdFallback)

  /** lib/projectParser.ts; `fallback` is base64 where `Buffer` exists and a
      random UUID otherwise. */
  function SharedParserRules(fallback: IdFallback): Rules {
    Rules(true, "Untitled Project", "Unknown", "Unknown", true, false, true, true, fallback)
  }

  /** lib/fetchProjects.ts. */
  const FetchRules: Rules := Rules(true, "Untitled Project", "Unknown", "Unknown", true, false, true, true, Random)

  /** scripts/scrape-projects.ts, with base64 as `encode`. */
  function ScraperRules(encode: string -> string): Rules {
    Rules(true, "Untitled Project", "Unknown", "Unknown", false, false, true, true, Encoded(encode))
  }

  /** app/page.tsx. */
  const HomeRules: Rules := Rules(false, "No title", "Unknown teacher", "Unknown status", false, false, false, false, Random)

  /** src/App.tsx. */
  const LegacyRules: Rules := Rules(false, "No title", "Unknown teacher", "Unknown status", false, true, false, false, Random)

  /** The text as the copy reads it: trimmed or not. */
  function Clean(s: string, rules: Rules): string {
    if rules.trim then Trim(s) else s
  }

  /** `el?.textContent?.trim() || fallback` (or without `.trim()`). */
  function TextOr(t: Option<string>, rules: Rules, fallback: string): string {
    match t
    case None => fallback
    case Some(s) => if Clean(s, rules) == "" then fallback else Clean(s, rules)
  }

  /** `element.querySelector(".status a")`. */
  function TeacherAnchor(c: Container): Option<Anchor> {
    if c.status.Some? && |c.status.value.anchors| > 0 then Some(c.status.value.anchors[0]) else None
  }

  predicate IsPermalink(a: Anchor) {
    a.href.Some? && StartsWith(a.href.value, "oppgaveforslag")
  }

  /** `element.querySelector('.status a[href^="oppgaveforslag"]')`. */
  function PermalinkAnchor(c: Container): Option<Anchor> {
    if c.status.Some? then FirstWhere(c.status.value.anchors, IsPermalink) else None
  }

  predicate IsStudentImage(src: string) {
    Contains(src, "student_")
  }

  /** The `src` of `statusDiv?.querySelector('img[src*="student_"]')`. */
  function StudentImage(c: Container): Option<string> {
    if c.status.Some? then FirstWhere(c.status.value.imageSources, IsStudentImage) else None
  }

  function Title(c: Container, rules: Rules): string {
    TextOr(c.heading, rules, rules.untitled)
  }

  function ShortDescription(c: Container, rules: Rules): string {
    TextOr(c.paragraph, rules, "")
  }

  function Teacher(c: Container, rules: Rules): string {
    TextOr(if TeacherAnchor(c).Some? then Some(TeacherAnchor(c).value.text) else None, rules, rules.unknownTeacher)
  }

  /** `teacherElement?.getAttribute("href") || ""`, where the copy keeps it. */
  function TeacherLink(c: Container, rules: Rules): Option<string> {
    if !rules.keepTeacherLink then None
    else if TeacherAnchor(c).Some? then Some(TeacherAnchor(c).value.href.GetOr(""))
    else Some("")
  }

  function Status(c: Container, rules: Rules): string {
    TextOr(if c.status.Some? then c.status.value.italic else None, rules, rules.unknownStatus)
  }

  /** The permalink's `href` (attribute or resolved URL), or "#". */
  function Link(c: Container, rules: Rules): string {
    match PermalinkAnchor(c)
    case None => "#"
    case Some(a) =>
      var h := if rules.resolveLink then a.resolvedHref else a.href.value;
      if h == "" then "#" else h
  }

  /** The `type` loop: "duo" when the student image's src mentions
      "student_group"; "single" otherwise, and when there is no image. */
  function Kind(c: Container, rules: Rules): Option<ProjectType> {
    if !rules.detectType then None
    else match StudentImage(c)
      case None => Some(Single)
      case Some(src) => if Contains(src, "student_group") then Some(Duo) else Some(Single)
  }

  /** The description a div contributes: `innerHTML` or `textContent || ""`. */
  function Content(d: Division, rules: Rules): string {
    if rules.innerHtml then d.innerHtml else d.text
  }

  /** The content of the last div whose id starts with `prefix`, or "" when
      there is none: what the loop over the divs leaves in `shownDesc` or
      `hiddenDesc`. */
  function LastContent(divs: seq<Division>, prefix: string, rules: Rules): string
    decreases |divs|
  {
    if divs == [] then ""
    else if StartsWith(divs[|divs| - 1].id, prefix) then Content(divs[|divs| - 1], rules)
    else LastContent(divs[..|divs| - 1], prefix, rules)
  }

  /** LastContent is "" when no div matches, and otherwise the content of a
      matching div after which no div matches. */
  lemma {:induction false} LastContentIsLast(divs: seq<Division>, prefix: string, rules: Rules)
    ensures (forall i :: 0 <= i < |divs| ==> !StartsWith(divs[i].id, prefix)) ==> LastContent(divs, prefix, rules) == ""
    ensures (exists i :: 0 <= i < |divs| && StartsWith(divs[i].id, prefix))
            ==> exists i :: 0 <= i < |divs| && StartsWith(divs[i].id, prefix)
                            && LastContent(divs, prefix, rules) == Content(divs[i], rules)
                            && forall j :: i < j < |divs| ==> !StartsWith(divs[j].id, prefix)
    decreases |divs|
  {
    if divs != [] && !StartsWith(divs[|divs| - 1].id, prefix) {
      var init := divs[..|divs| - 1];
      LastContentIsLast(init, prefix, rules);
      assert forall i :: 0 <= i < |init| ==> init[i] == divs[i];
    }
  }

  /** One more div replaces the result exactly when its id matches. */
  lemma LastContentSnoc(divs: seq<Division>, d: Division, prefix: string, rules: Rules)
    ensures LastContent(divs + [d], prefix, rules)
            == if StartsWith(d.id, prefix) then Content(d, rules) else LastContent(divs, prefix, rules)
  {
    assert (divs + [d])[..|divs|] == divs;
  }

  /** `hiddenDesc || shownDesc`. */
  function FullDescription(c: Container, rules: Rules): string {
    var hidden := LastContent(c.divisions, "hidden_", rules);
    if hidden != "" then hidden else LastContent(c.divisions, "shown_", rules)
  }

  /** `link.split("oid=")[1] || fallback`. */
  function Id(c: Container, rules: Rules, token: string): string {
    var segment := SecondSplitPart(Link(c, rules), "oid=");
    if segment.Some? && segment.value != "" then segment.value
    else
      match rules.fallback
      case Encoded(encode) => Prefix(encode(Title(c, rules) + "-" + Teacher(c, rules)), 12)
      case Random => token
  }

  /** The record one container yields for program `programId`. */
  function ProjectOf(c: Container, programId: string, rules: Rules, token: string): Project {
    Project(
      Id(c, rules, token), Title(c, rules), ShortDescription(c, rules), FullDescription(c, rules),
      Teacher(c, rules), TeacherLink(c, rules), Status(c, rules), Link(c, rules),
      [programId], Kind(c, rules))
  }

  /** `extractProjectData(element, programId)` of one copy, as a function
      of the container, the program id and the random token it may draw. */
  function Extractor(rules: Rules): (Container, string, string) -> Project {
    (c: Container, programId: string, token: string) => ProjectOf(c, programId, rules, token)
  }

  /** An extraction that lists exactly the program it was called for. */
  ghost predicate KeepsProgram(extract: (Container, string, string) -> Project) {
    forall c, programId, token :: extract(c, programId, token).programs == [programId]
  }

  /** Every copy's record lists the one program whose page it came from. */
  lemma ExtractorKeepsProgram(rules: Rules)
    ensures KeepsProgram(Extractor(rules))
  {
  }

  /** The `divs.forEach` loop: the last shown_ and the last hidden_ content. */
  method ScanDescriptions(divs: seq<Division>, rules: Rules) returns (shown: string, hidden: string)
    ensures shown == LastContent(divs, "shown_", rules)
    ensures hidden == LastContent(divs, "hidden_", rules)
  {
    shown, hidden := "", "";
    var i := 0;
    while i < |divs|
      invariant 0 <= i <= |divs|
      invariant shown == LastContent(divs[..i], "shown_", rules)
      invariant hidden == LastContent(divs[..i], "hidden_", rules)
    {
      var d := divs[i];
      assert divs[..i + 1] == divs[..i] + [d];
      LastContentSnoc(divs[..i], d, "shown_", rules);
      LastContentSnoc(divs[..i], d, "hidden_", rules);
      if StartsWith(d.id, "shown_") {
        assert !StartsWith(d.id, "hidden_") by {
          assert d.id[..6][0] == 's';
        }
        shown := Content(d, rules);
      } else if StartsWith(d.id, "hidden_") {
        hidden := Content(d, rules);
      }
      i := i + 1;
    }
    assert divs[..|divs|] == divs;
  }

  /** The body of the per-container callback, up to building the record. */
  method ExtractProject(c: Container, programId: string, rules: Rules, token: string) returns (p: Project)
    ensures p == ProjectOf(c, programId, rules, token)
  {
    var shown, hidden := ScanDescriptions(c.divisions, rules);
    var full := if hidden != "" then hidden else shown;
    p := Project(
      Id(c, rules, token), Title(c, rules), ShortDescription(c, rules), full,
      Teacher(c, rules), TeacherLink(c, rules), Status(c, rules), Link(c, rules),
      [programId], Kind(c, rules));
  }

  // ---------------------------------------------------------------------
  // Properties of the field rules

  /** A text field falls back exactly when its element is missing or its
      (trimmed) text is blank; otherwise it is that text. With trimming the
      value never starts or ends with white space, provided the fallback
      does not. */
  lemma TextFieldRule(t: Option<string>, rules: Rules, fallback: string)
    ensures TextOr(t, rules, fallback) ==
      if t.None? || (rules.trim && AllSpace(t.value)) || (!rules.trim && t.value == "")
      then fallback else Clean(t.value, rules)
    ensures fallback != "" ==> TextOr(t, rules, fallback) != ""
  {
    if t.Some? && rules.trim {
      TrimEmptyIff(t.value);
    }
  }

  /** With trimming, a text field carries no surrounding white space,
      provided its fallback does not. */
  lemma TrimmedTextField(t: Option<string>, rules: Rules, fallback: string)
    requires rules.trim && Trim(fallback) == fallback
    ensures Trim(TextOr(t, rules, fallback)) == TextOr(t, rules, fallback)
  {
    if t.Some? {
      TrimIdempotent(t.value);
    }
  }

  /** The title is the (trimmed) `<h3>` text, or the copy's "untitled"
      sentinel when the heading is missing or blank; it is never empty. */
  lemma TitleRule(c: Container, rules: Rules)
    requires rules.untitled != ""
    ensures Title(c, rules) ==
      if c.heading.None? || (rules.trim && AllSpace(c.heading.value)) || (!rules.trim && c.heading.value == "")
      then rules.untitled else Clean(c.heading.value, rules)
    ensures Title(c, rules) != ""
  {
    TextFieldRule(c.heading, rules, rules.untitled);
  }

  /** A copy that trims, with fallbacks free of surrounding white space,
      yields text fields free of surrounding white space. */
  lemma TrimmedFields(c: Container, rules: Rules)
    requires rules.trim
    requires Trim(rules.untitled) == rules.untitled
    requires Trim(rules.unknownTeacher) == rules.unknownTeacher
    requires Trim(rules.unknownStatus) == rules.unknownStatus
    ensures Trim(Title(c, rules)) == Title(c, rules)
    ensures Trim(Teacher(c, rules)) == Teacher(c, rules)
    ensures Trim(Status(c, rules)) == Status(c, rules)
    ensures Trim(ShortDescription(c, rules)) == ShortDescription(c, rules)
  {
    TrimOfUnpadded("");
    TrimmedTextField(c.heading, rules, rules.untitled);
    TrimmedTextField(if TeacherAnchor(c).Some? then Some(TeacherAnchor(c).value.text) else None, rules, rules.unknownTeacher);
    TrimmedTextField(if c.status.Some? then c.status.value.italic else None, rules, rules.unknownStatus);
    TrimmedTextField(c.paragraph, rules, "");
  }

  /** In the shared parser the text fields carry no surrounding white space. */
  lemma SharedParserTrimmed(c: Container, fallback: IdFallback)
    ensures Trim(Title(c, SharedParserRules(fallback))) == Title(c, SharedParserRules(fallback))
    ensures Trim(Teacher(c, SharedParserRules(fallback))) == Teacher(c, SharedParserRules(fallback))
    ensures Trim(Status(c, SharedParserRules(fallback))) == Status(c, SharedParserRules(fallback))
  {
    TrimOfUnpadded("Untitled Project");
    TrimOfUnpadded("Unknown");
    TrimmedFields(c, SharedParserRules(fallback));
  }

  /** The shared parser's fallbacks: "Untitled Project" without a heading,
      "Unknown" without a teacher anchor, and without a status block an
      "Unknown" status, the "#" link and an empty teacher link. */
  lemma SharedParserFallbacks(c: Container, fallback: IdFallback)
    ensures var r := SharedParserRules(fallback);
      && (c.heading.None? ==> Title(c, r) == "Untitled Project")
      && (TeacherAnchor(c).None? ==> Teacher(c, r) == "Unknown")
      && (c.status.None? ==> Status(c, r) == "Unknown" && Link(c, r) == "#" && TeacherLink(c, r) == Some(""))
  {
  }

  /** The full description is the content of the last hidden_ div when that
      is non-empty, and otherwise the content of the last shown_ div (or ""
      when there is no such div). */
  lemma FullDescriptionRule(c: Container, rules: Rules)
    ensures var divs := c.divisions;
      var hidden := LastContent(divs, "hidden_", rules);
      && (hidden != "" ==> exists i :: 0 <= i < |divs| && StartsWith(divs[i].id, "hidden_")
                            && FullDescription(c, rules) == Content(divs[i], rules)
                            && forall j :: i < j < |divs| ==> !StartsWith(divs[j].id, "hidden_"))
      && ((hidden == "" && forall i :: 0 <= i < |divs| ==> !StartsWith(divs[i].id, "shown_"))
            ==> FullDescription(c, rules) == "")
      && ((hidden == "" && exists i :: 0 <= i < |divs| && StartsWith(divs[i].id, "shown_"))
            ==> exists i :: 0 <= i < |divs| && StartsWith(divs[i].id, "shown_")
                           && FullDescription(c, rules) == Content(divs[i], rules)
                           && forall j :: i < j < |divs| ==> !StartsWith(divs[j].id, "shown_"))
  {
    LastContentIsLast(c.divisions, "hidden_", rules);
    LastContentIsLast(c.divisions, "shown_", rules);
  }

  /** With no divs at all the full description is empty. */
  lemma NoDivisionsNoDescription(c: Container, rules: Rules)
    requires c.divisions == []
    ensures FullDescription(c, rules) == ""
  {
  }

  /** Duo exactly when the copy detects the type and the first student_
      image's src contains "student_group"; single otherwise, including when
      there is no such image. */
  lemma KindRule(c: Container, rules: Rules)
    ensures Kind(c, rules).None? <==> !rules.detectType
    ensures Kind(c, rules) == Some(Duo) <==>
      rules.detectType && c.status.Some? &&
      exists i :: 0 <= i < |c.status.value.imageSources|
                  && Contains(c.status.value.imageSources[i], "student_group")
                  && forall j :: 0 <= j < i ==> !Contains(c.status.value.imageSources[j], "student_")
  {
    if rules.detectType && c.status.Some? {
      var srcs := c.status.value.imageSources;
      match StudentImage(c)
      case None =>
        forall i | 0 <= i < |srcs| ensures !Contains(srcs[i], "student_group") {
          GroupIsStudent(srcs[i]);
        }
      case Some(src) =>
        var k :| 0 <= k < |srcs| && srcs[k] == src && IsStudentImage(srcs[k])
                 && forall j :: 0 <= j < k ==> !IsStudentImage(srcs[j]);
        forall i | 0 <= i < |srcs| && Contains(srcs[i], "student_group")
                   && (forall j :: 0 <= j < i ==> !Contains(srcs[j], "student_"))
          ensures i == k
        {
          GroupIsStudent(srcs[i]);
        }
    }
  }

  /** A src that mentions "student_group" also mentions "student_". */
  lemma GroupIsStudent(src: string)
    ensures Contains(src, "student_group") ==> Contains(src, "student_")
  {
    if Contains(src, "student_group") {
      var i := IndexOf(src, "student_group", 0);
      assert src[i..i + 8] == "student_group"[..8];
      assert OccursAt(src, "student_", i);
    }
  }

  /** The id is the permalink's non-empty oid segment when there is one. */
  lemma IdFromPermalink(c: Container, rules: Rules, token: string)
    requires SecondSplitPart(Link(c, rules), "oid=").Some?
    requires SecondSplitPart(Link(c, rules), "oid=").value != ""
    ensures Id(c, rules, token) == SecondSplitPart(Link(c, rules), "oid=").value
  {
  }

  /** Without an oid segment an encoded id depends only on the title and the
      teacher: two containers with the same title and teacher get the same id,
      at most 12 characters long. */
  lemma EncodedIdIsStable(c1: Container, c2: Container, encode: string -> string, rules: Rules, t1: string, t2: string)
    requires rules.fallback == Encoded(encode)
    requires SecondSplitPart(Link(c1, rules), "oid=").None? && SecondSplitPart(Link(c2, rules), "oid=").None?
    requires Title(c1, rules) == Title(c2, rules) && Teacher(c1, rules) == Teacher(c2, rules)
    ensures Id(c1, rules, t1) == Id(c2, rules, t2)
    ensures |Id(c1, rules, t1)| <= 12
  {
  }

  /** The container without a permalink gets "#" as link, which has no oid
      segment, so its id is the fallback. */
  lemma NoPermalinkUsesFallback(c: Container, rules: Rules, token: string)
    requires PermalinkAnchor(c).None?
    ensures Link(c, rules) == "#"
    ensures rules.fallback == Random ==> Id(c, rules, token) == token
  {
  }
}
