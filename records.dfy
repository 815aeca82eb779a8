/** The project record every copy of the extraction code builds (the
    `IProject` interface of lib/constants.ts, with the two optional extras
    some copies add), and the parts of one `.oppgave` container that the
    extraction code reads through CSS selectors. */
module Records {

  import opened Wrappers

  /** Whether the project is for one student or for a pair. */
  datatype ProjectType = Single | Duo

  /** One advertised thesis project. `teacherLink` is None in the copies that
      do not record it, and `kind` (the source's `type`) is None in the copies
      that do not detect it. */
  datatype Project = Project(
    id: string,
    title: string,
    shortDescription: string,
    fullDescription: string,
    teacher: string,
    teacherLink: Option<string>,
    status: string,
    link: string,
    programs: seq<string>,
    kind: Option<ProjectType>)

  /** The merge key: two records describe the same project when their titles
      and teachers are equal. */
  function KeyOf(p: Project): (string, string) {
    (p.title, p.teacher)
  }

  /** An `<a>` element: its text content, its `href` attribute as written
      (None when absent), and the absolute URL the browser's `.href`
      property resolves it to. */
  datatype Anchor = Anchor(text: string, href: Option<string>, resolvedHref: string)

  /** The first `.status` element of a container: its anchors and `<img>`
      sources in document order, and the text of its first `<i>`. */
  datatype StatusBlock = StatusBlock(anchors: seq<Anchor>, italic: Option<string>, imageSources: seq<string>)

  /** A `<div>` inside the container: its id, its `innerHTML` and its
      `textContent`. */
  datatype Division = Division(id: string, innerHtml: string, text: string)

  /** One `.oppgave` container: the text of its first `<h3>` and of its first
      `<p>`, its status block, and its `<div>` descendants in document order. */
  datatype Container = Container(
    heading: Option<string>,
    paragraph: Option<string>,
    status: Option<StatusBlock>,
    divisions: seq<Division>)

  /** The study programs the catalog is queried for (lib/constants.ts). */
  const StudyPrograms: seq<string> := ["p2_6", "p2_7", "p2_9", "p2_10"]
}
