/** The Markdown rendering of a plan (app/learn.py `get_*_md`, learn.py `gen_*_md`): a table of
    contents in pre-order followed by one section per subject. */
module Markdown {
  import opened Text
  import opened Model

  /** `sanitize_anchor_name` / `gen_anchor`: lower-case, then spaces become hyphens. */
  function SanitizeAnchorName(name: string): (r: string)
    ensures |r| == |name| && ' ' !in r
    ensures forall i :: 0 <= i < |name| ==> r[i] == (if name[i] == ' ' then '-' else LowerChar(name[i]))
  {
    ReplaceChar(ToLower(name), ' ', '-')
  }

  /** `get_link_md` / `gen_md_link`: `label or name`, so an empty label falls back to the name,
      as an absent one does. */
  function GetLinkMd(name: string, text: string): (r: string)
    ensures var lbl := if text == "" then name else text;
      && |r| == |lbl| + |name| + 5
      && r[1..|lbl| + 1] == lbl
      && r[|lbl| + 4..|r| - 1] == SanitizeAnchorName(name)
  {
    var lbl, anchor := (if text == "" then name else text), SanitizeAnchorName(name);
    Middle("[" + lbl + "](#" + anchor + ")", "[", lbl, "](#" + anchor + ")");
    Middle("[" + lbl + "](#" + anchor + ")", "[" + lbl + "](#", anchor, ")");
    "[" + lbl + "](#" + anchor + ")"
  }

  /** `get_href` / `gen_href`: the anchor a section heading carries. */
  function GetHref(name: string): (r: string)
    ensures |r| == |name| + 13 && r[7..|r| - 6] == SanitizeAnchorName(name)
  {
    var anchor := SanitizeAnchorName(name);
    Middle("<a id='" + anchor + "'></a>", "<a id='", anchor, "'></a>");
    "<a id='" + anchor + "'></a>"
  }

  /** The lines of a loop of `content += line`, in order. */
  function Concat(lines: seq<string>): string {
    if lines == [] then "" else lines[0] + Concat(lines[1..])
  }

  /** One table-of-contents line: two spaces per level, a bullet, a link to the section. */
  function TocLine(title: string, level: nat): (r: string)
    ensures Repeat(' ', 2 * level) + " * " <= r && EndsWith("\n", r)
  {
    Repeat(' ', 2 * level) + " * " + GetLinkMd(title, "") + "\n"
  }

  /** `get_toc_md` / `gen_toc_md`: the node's own bullet at its indentation comes first, and
      the text ends with a line feed. */
  function TocMd(s: Subject, level: nat): (r: string)
    ensures Repeat(' ', 2 * level) + " * " <= r
    ensures EndsWith("\n", r)
    decreases s
  {
    var kids := TocMdAll(s.subjects, level + 1);
    EndsWithAppend("\n", TocLine(s.subject, level), kids);
    TocLine(s.subject, level) + kids
  }

  /** The contents lines of the children: none exactly when there are no children, and ending
      with a line feed otherwise. */
  function TocMdAll(kids: seq<Subject>, level: nat): (r: string)
    ensures r == "" <==> kids == []
    ensures kids != [] ==> EndsWith("\n", r)
    decreases kids
  {
    if kids == [] then ""
    else
      var first, rest := TocMd(kids[0], level), TocMdAll(kids[1..], level);
      EndsWithAppend("\n", first, rest);
      first + rest
  }

  /** A text ends with `a` when its last part does, or when its last part is empty and the part
      before it does. */
  lemma EndsWithAppend(a: string, x: string, y: string)
    requires EndsWith(a, y) || (y == "" && EndsWith(a, x))
    ensures EndsWith(a, x + y)
  {
    if y == "" {
      assert x + y == x;
    } else {
      assert (x + y)[|x + y| - |a|..] == y[|y| - |a|..];
    }
  }

  /** `get_subject_md` / `gen_subject_md`: heading, description, reason, the children's sections
      one level deeper, then the resources and the exercises. */
  function SubjectMd(s: Subject, level: nat): (r: string)
    ensures SectionHead(s, level) <= r
    decreases s
  {
    SectionHead(s, level) + SubjectMdAll(s.subjects, level + 1) + ResourcesMd(s, level) + ExercisesMd(s, level)
  }

  /** The children's sections: none exactly when there are no children, and opening with the
      first child's heading otherwise. */
  function SubjectMdAll(kids: seq<Subject>, level: nat): (r: string)
    ensures r == "" <==> kids == []
    ensures kids != [] ==> SectionHead(kids[0], level) <= r
    decreases kids
  {
    if kids == [] then "" else SubjectMd(kids[0], level) + SubjectMdAll(kids[1..], level)
  }

  /** The opening of a section: the heading line (`level` hash marks, the title and its
      anchor), then the description and the reason as paragraphs. */
  function SectionHead(s: Subject, level: nat): (r: string)
    ensures Repeat('#', level) + " " <= r
  {
    Repeat('#', level) + " " + s.subject + GetHref(s.subject) + "\n"
      + s.description + "\n\n" + s.reason + "\n\n"
  }

  function ResourceLine(x: Resource): string {
    "* " + x.title + ": " + x.description + "\n"
  }

  function ExerciseLine(x: Exercise): string {
    "* " + x.description + "\n"
  }

  function ResourceLines(rs: seq<Resource>): seq<string> {
    seq(|rs|, i requires 0 <= i < |rs| => ResourceLine(rs[i]))
  }

  function ExerciseLines(xs: seq<Exercise>): seq<string> {
    seq(|xs|, i requires 0 <= i < |xs| => ExerciseLine(xs[i]))
  }

  /** The Resources section: present exactly when there are resources, headed one level below
      the subject, one bullet per resource in order. */
  function ResourcesMd(s: Subject, level: nat): (r: string)
    ensures r == "" <==> s.resources == []
    ensures s.resources != [] ==>
      && Repeat('#', level + 1) + " Resources" <= r
      && EndsWith(Concat(ResourceLines(s.resources)), r)
  {
    if s.resources == [] then ""
    else
      var header := Repeat('#', level) + "# Resources" + GetHref(s.subject + "_resources") + "\n";
      assert Repeat('#', level) + "#" == Repeat('#', level + 1);
      header + Concat(ResourceLines(s.resources))
  }

  /** The Exercises section, in the same way. */
  function ExercisesMd(s: Subject, level: nat): (r: string)
    ensures r == "" <==> s.exercises == []
    ensures s.exercises != [] ==>
      && Repeat('#', level + 1) + " Exercises" <= r
      && EndsWith(Concat(ExerciseLines(s.exercises)), r)
  {
    if s.exercises == [] then ""
    else
      var header := Repeat('#', level) + "# Exercises" + GetHref(s.subject + "_exercises") + "\n";
      assert Repeat('#', level) + "#" == Repeat('#', level + 1);
      header + Concat(ExerciseLines(s.exercises))
  }

  /** The first line of the document, without its line feed: the root's title as the hub's name. */
  function PlanHeader(plan: Plan): (r: string)
    ensures "# Learning Hub: " <= r && EndsWith(plan.subject.subject, r)
  {
    "# Learning Hub: " + plan.subject.subject
  }

  /** Everything `get_plan_md` / `gen_plan_md` concatenates before stripping, given the header
      line, the model name, the goal, the table of contents and the root's section: the header
      first, and the contents followed by the sections last. */
  function Document(header: string, model: string, goal: string, toc: string, body: string): (r: string)
    ensures header <= r
    ensures EndsWith(toc + "\n\n" + body, r)
  {
    var front := header + "\n" + "(generated with " + model + ")\n\n" + ("> " + goal + "\n\n");
    var r := front + (toc + "\n\n" + body);
    assert r[|r| - |toc + "\n\n" + body|..] == toc + "\n\n" + body;
    assert r == header + "\n" + "(generated with " + model + ")\n\n" + "> " + goal + "\n\n" + toc + "\n\n" + body;
    r
  }

  /** `get_plan_md` / `gen_plan_md`: the content stripped, then exactly one line feed. */
  function PlanMd(plan: Plan, model: string): (r: string)
    ensures |r| >= 2 && r[|r| - 1] == '\n' && !IsWhitespace(r[|r| - 2])
    ensures PlanHeader(plan) <= r
    ensures IsInfix("> " + plan.goal, r)
  {
    var toc, body := TocMd(plan.subject, 0), SubjectMd(plan.subject, 1);
    TocStartsWithBullet(plan.subject);
    PlanHeaderStart(plan);
    DocumentSurvivesStrip(PlanHeader(plan), model, plan.goal, toc, body);
    Strip(Document(PlanHeader(plan), model, plan.goal, toc, body)) + "\n"
  }

  /** `a` occurs in `b` as a contiguous piece. */
  predicate IsInfix(a: string, b: string) {
    exists i, j :: 0 <= i <= j <= |b| && b[i..j] == a
  }

  predicate EndsWith(a: string, b: string) {
    |a| <= |b| && b[|b| - |a|..] == a
  }

  /** Stripping a string that starts with a non-blank character and has another non-blank one
      at index `n` only cuts after `n`. */
  lemma StripKeepsPrefix(c: string, n: nat)
    requires n < |c| && !IsWhitespace(c[0]) && !IsWhitespace(c[n])
    ensures c[..n + 1] <= Strip(c)
    ensures Strip(c) != [] && !IsWhitespace(Strip(c)[|Strip(c)| - 1])
  {
    assert TrimLeft(c) == c;
  }

  lemma PlanHeaderStart(plan: Plan)
    ensures PlanHeader(plan) != [] && PlanHeader(plan)[0] == '#'
  {
  }

  lemma TocStartsWithBullet(s: Subject)
    ensures |TocMd(s, 0)| >= 2 && TocMd(s, 0)[1] == '*'
  {
    assert " * " <= TocLine(s.subject, 0);
  }

  /** The strip only removes whitespace after the table of contents has started, so the header
      and the goal line come through it unchanged, and the single line feed follows a
      non-blank character. */
  lemma DocumentSurvivesStrip(header: string, model: string, goal: string, toc: string, body: string)
    requires header != [] && !IsWhitespace(header[0])
    requires |toc| >= 2 && !IsWhitespace(toc[1])
    ensures var r := Strip(Document(header, model, goal, toc, body)) + "\n";
      && |r| >= 2 && r[|r| - 1] == '\n' && !IsWhitespace(r[|r| - 2])
      && header <= r
      && IsInfix("> " + goal, r)
  {
    var b := header + "\n" + "(generated with " + model + ")\n\n" + "> " + goal + "\n\n";
    var c := Document(header, model, goal, toc, body);
    assert c[..|b| + 2] == b + toc[..2];
    StripKeepsPrefix(c, |b| + 1);
    var st := Strip(c);
    var r := st + "\n";
    assert r[|r| - 2] == st[|st| - 1];
    assert r[..|header|] == header;
    var k := |header + "\n" + "(generated with " + model + ")\n\n"|;
    assert r[k..k + |goal| + 2] == "> " + goal;
  }

  // ---------------------------------------------------------------------------------------------
  // The table of contents is the pre-order listing of the tree

  datatype TocEntry = TocEntry(title: string, level: nat)

  /** Number of subjects in the tree. */
  function Size(s: Subject): nat
    decreases s
  {
    1 + SizeAll(s.subjects)
  }

  function SizeAll(kids: seq<Subject>): nat
    decreases kids
  {
    if kids == [] then 0 else Size(kids[0]) + SizeAll(kids[1..])
  }

  /** The subjects of the tree in pre-order, each with its nesting level. */
  function Preorder(s: Subject, level: nat): (r: seq<TocEntry>)
    ensures |r| == Size(s)
    ensures r[0] == TocEntry(s.subject, level)
    ensures forall e | e in r :: e.level >= level
    decreases s
  {
    [TocEntry(s.subject, level)] + PreorderAll(s.subjects, level + 1)
  }

  function PreorderAll(kids: seq<Subject>, level: nat): (r: seq<TocEntry>)
    ensures |r| == SizeAll(kids)
    ensures forall e | e in r :: e.level >= level
    decreases kids
  {
    if kids == [] then [] else Preorder(kids[0], level) + PreorderAll(kids[1..], level)
  }

  function TocLines(es: seq<TocEntry>): seq<string> {
    seq(|es|, i requires 0 <= i < |es| => TocLine(es[i].title, es[i].level))
  }

  lemma {:induction false} ConcatAppend(a: seq<string>, b: seq<string>)
    ensures Concat(a + b) == Concat(a) + Concat(b)
  {
    if a == [] {
      assert a + b == b;
    } else {
      assert (a + b)[0] == a[0] && (a + b)[1..] == a[1..] + b;
      ConcatAppend(a[1..], b);
    }
  }

  lemma TocLinesAppend(a: seq<TocEntry>, b: seq<TocEntry>)
    ensures TocLines(a + b) == TocLines(a) + TocLines(b)
  {
  }

  /** The table of contents has exactly one line per subject, in pre-order, each indented by
      its level. */
  lemma {:induction false} TocIsPreorder(s: Subject, level: nat)
    ensures TocMd(s, level) == Concat(TocLines(Preorder(s, level)))
    decreases s
  {
    TocAllIsPreorder(s.subjects, level + 1);
    var head := [TocEntry(s.subject, level)];
    TocLinesAppend(head, PreorderAll(s.subjects, level + 1));
    ConcatAppend(TocLines(head), TocLines(PreorderAll(s.subjects, level + 1)));
    assert Concat(TocLines(head)) == TocLine(s.subject, level) + Concat([]);
  }

  lemma {:induction false} TocAllIsPreorder(kids: seq<Subject>, level: nat)
    ensures TocMdAll(kids, level) == Concat(TocLines(PreorderAll(kids, level)))
    decreases kids
  {
    if kids != [] {
      TocIsPreorder(kids[0], level);
      TocAllIsPreorder(kids[1..], level);
      TocLinesAppend(Preorder(kids[0], level), PreorderAll(kids[1..], level));
      ConcatAppend(TocLines(Preorder(kids[0], level)), TocLines(PreorderAll(kids[1..], level)));
    }
  }

  // ---------------------------------------------------------------------------------------------
  // The body holds one section per subject, in pre-order

  /** The pieces a section is built from: a subject's heading, or the Resources and Exercises
      blocks that close its section after its children's sections. */
  datatype Part = Head(node: Subject, level: nat) | Materials(node: Subject, level: nat)

  function Parts(s: Subject, level: nat): seq<Part>
    decreases s
  {
    [Head(s, level)] + PartsAll(s.subjects, level + 1) + [Materials(s, level)]
  }

  function PartsAll(kids: seq<Subject>, level: nat): seq<Part>
    decreases kids
  {
    if kids == [] then [] else Parts(kids[0], level) + PartsAll(kids[1..], level)
  }

  function RenderPart(p: Part): string {
    match p
    case Head(n, l) => SectionHead(n, l)
    case Materials(n, l) => ResourcesMd(n, l) + ExercisesMd(n, l)
  }

  function Rendered(ps: seq<Part>): seq<string> {
    seq(|ps|, i requires 0 <= i < |ps| => RenderPart(ps[i]))
  }

  /** The headings among the parts, as contents entries, in order. */
  function Headings(ps: seq<Part>): seq<TocEntry> {
    if ps == [] then []
    else (if ps[0].Head? then [TocEntry(ps[0].node.subject, ps[0].level)] else []) + Headings(ps[1..])
  }

  lemma {:induction false} HeadingsAppend(a: seq<Part>, b: seq<Part>)
    ensures Headings(a + b) == Headings(a) + Headings(b)
  {
    if a == [] {
      assert a + b == b;
    } else {
      assert (a + b)[0] == a[0] && (a + b)[1..] == a[1..] + b;
      HeadingsAppend(a[1..], b);
    }
  }

  lemma RenderedAppend(a: seq<Part>, b: seq<Part>)
    ensures Rendered(a + b) == Rendered(a) + Rendered(b)
  {
  }

  /** A subject's section is the rendering of its parts, one after the other. */
  lemma {:induction false} SubjectMdIsParts(s: Subject, level: nat)
    ensures SubjectMd(s, level) == Concat(Rendered(Parts(s, level)))
    decreases s
  {
    SubjectMdAllIsParts(s.subjects, level + 1);
    ConcatRenderedThree([Head(s, level)], PartsAll(s.subjects, level + 1), [Materials(s, level)]);
    SubjectMdSplit(s, level);
    RenderedSingle(Head(s, level));
    RenderedSingle(Materials(s, level));
  }

  lemma SubjectMdSplit(s: Subject, level: nat)
    ensures SubjectMd(s, level)
         == SectionHead(s, level) + SubjectMdAll(s.subjects, level + 1) + (ResourcesMd(s, level) + ExercisesMd(s, level))
  {
  }

  lemma RenderedSingle(p: Part)
    ensures Concat(Rendered([p])) == RenderPart(p)
  {
    assert Rendered([p]) == [RenderPart(p)];
    assert Concat([RenderPart(p)]) == RenderPart(p) + Concat([]);
  }

  lemma ConcatRenderedThree(a: seq<Part>, b: seq<Part>, c: seq<Part>)
    ensures Concat(Rendered(a + b + c)) == Concat(Rendered(a)) + Concat(Rendered(b)) + Concat(Rendered(c))
  {
    RenderedAppend(a + b, c);
    RenderedAppend(a, b);
    ConcatAppend(Rendered(a) + Rendered(b), Rendered(c));
    ConcatAppend(Rendered(a), Rendered(b));
  }

  lemma {:induction false} SubjectMdAllIsParts(kids: seq<Subject>, level: nat)
    ensures SubjectMdAll(kids, level) == Concat(Rendered(PartsAll(kids, level)))
    decreases kids
  {
    if kids != [] {
      SubjectMdIsParts(kids[0], level);
      SubjectMdAllIsParts(kids[1..], level);
      RenderedAppend(Parts(kids[0], level), PartsAll(kids[1..], level));
      ConcatAppend(Rendered(Parts(kids[0], level)), Rendered(PartsAll(kids[1..], level)));
    }
  }

  /** The headings of a subject's section are the subjects of its tree in pre-order, each at its
      depth: one heading per subject, and the same order as the table of contents. */
  lemma {:induction false} SectionHeadingsArePreorder(s: Subject, level: nat)
    ensures Headings(Parts(s, level)) == Preorder(s, level)
    decreases s
  {
    var head, mid, tail := [Head(s, level)], PartsAll(s.subjects, level + 1), [Materials(s, level)];
    SectionHeadingsArePreorderAll(s.subjects, level + 1);
    HeadingsAppend(head + mid, tail);
    HeadingsAppend(head, mid);
    assert Headings(tail) == [];
    assert Headings(head) == [TocEntry(s.subject, level)];
  }

  lemma {:induction false} SectionHeadingsArePreorderAll(kids: seq<Subject>, level: nat)
    ensures Headings(PartsAll(kids, level)) == PreorderAll(kids, level)
    decreases kids
  {
    if kids != [] {
      SectionHeadingsArePreorder(kids[0], level);
      SectionHeadingsArePreorderAll(kids[1..], level);
      HeadingsAppend(Parts(kids[0], level), PartsAll(kids[1..], level));
    }
  }

  // ---------------------------------------------------------------------------------------------
  // Line counts

  lemma {:induction false} ConcatCountsLines(lines: seq<string>)
    requires forall i :: 0 <= i < |lines| ==> Count('\n', lines[i]) == 1
    ensures Count('\n', Concat(lines)) == |lines|
  {
    if lines != [] {
      ConcatCountsLines(lines[1..]);
    }
  }

  lemma SanitizeKeepsNewlines(name: string)
    ensures Count('\n', SanitizeAnchorName(name)) == Count('\n', name)
  {
    var r := SanitizeAnchorName(name);
    CountPointwise(name, r, '\n');
  }

  /** Two strings of the same length that agree on where `c` occurs contain it equally often. */
  lemma {:induction false} CountPointwise(a: string, b: string, c: char)
    requires |a| == |b| && forall i :: 0 <= i < |a| ==> (a[i] == c <==> b[i] == c)
    ensures Count(c, a) == Count(c, b)
  {
    if a != [] {
      CountPointwise(a[1..], b[1..], c);
      assert a == [a[0]] + a[1..] && b == [b[0]] + b[1..];
    }
  }

  /** A table-of-contents line for a title without line feeds holds exactly one. */
  lemma TocLineNewlines(title: string, level: nat)
    requires '\n' !in title
    ensures Count('\n', TocLine(title, level)) == 1
  {
    var anchor := SanitizeAnchorName(title);
    var x := Repeat(' ', 2 * level) + " * " + ("[" + title + "](#" + anchor + ")");
    SanitizeKeepsNewlines(title);
    assert '\n' !in anchor by { assert Count('\n', anchor) == 0; }
    assert '\n' !in x;
    assert TocLine(title, level) == x + "\n";
    assert multiset(x + "\n") == multiset(x) + multiset{'\n'};
  }

  /** With line-feed-free titles, the table of contents has as many lines as the tree has subjects. */
  lemma TocLineCount(s: Subject, level: nat)
    requires forall e | e in Preorder(s, level) :: '\n' !in e.title
    ensures Count('\n', TocMd(s, level)) == Size(s)
  {
    TocIsPreorder(s, level);
    var es := Preorder(s, level);
    forall i | 0 <= i < |es|
      ensures Count('\n', TocLines(es)[i]) == 1
    {
      assert es[i] in es;
      TocLineNewlines(es[i].title, es[i].level);
    }
    ConcatCountsLines(TocLines(es));
  }

  /** One bullet line per resource, in order: the lines of two lists are the lines of the first
      followed by those of the second. */
  lemma ResourceLinesAppend(a: seq<Resource>, b: seq<Resource>)
    ensures Concat(ResourceLines(a + b)) == Concat(ResourceLines(a)) + Concat(ResourceLines(b))
  {
    assert ResourceLines(a + b) == ResourceLines(a) + ResourceLines(b);
    ConcatAppend(ResourceLines(a), ResourceLines(b));
  }

  lemma ResourceLineCount(rs: seq<Resource>)
    requires forall x | x in rs :: '\n' !in x.title && '\n' !in x.description
    ensures Count('\n', Concat(ResourceLines(rs))) == |rs|
  {
    forall i | 0 <= i < |rs|
      ensures Count('\n', ResourceLines(rs)[i]) == 1
    {
      assert rs[i] in rs;
    }
    ConcatCountsLines(ResourceLines(rs));
  }

  lemma ExerciseLinesAppend(a: seq<Exercise>, b: seq<Exercise>)
    ensures Concat(ExerciseLines(a + b)) == Concat(ExerciseLines(a)) + Concat(ExerciseLines(b))
  {
    assert ExerciseLines(a + b) == ExerciseLines(a) + ExerciseLines(b);
    ConcatAppend(ExerciseLines(a), ExerciseLines(b));
  }

  lemma ExerciseLineCount(xs: seq<Exercise>)
    requires forall x | x in xs :: '\n' !in x.description
    ensures Count('\n', Concat(ExerciseLines(xs))) == |xs|
  {
    forall i | 0 <= i < |xs|
      ensures Count('\n', ExerciseLines(xs)[i]) == 1
    {
      assert xs[i] in xs;
    }
    ConcatCountsLines(ExerciseLines(xs));
  }

  // ---------------------------------------------------------------------------------------------
  // Anchors

  /** Sanitising twice changes nothing more. */
  lemma SanitizeIdempotent(name: string)
    ensures SanitizeAnchorName(SanitizeAnchorName(name)) == SanitizeAnchorName(name)
  {
    var once := SanitizeAnchorName(name);
    var twice := SanitizeAnchorName(once);
    forall i | 0 <= i < |name|
      ensures twice[i] == once[i]
    {
    }
  }

  /** Whatever its label, a link points at the anchor id that `GetHref` gives the same name:
      the text between "(#" and ")" is the text between "id='" and "'". */
  lemma LinkTargetsHeadingAnchor(name: string, text: string)
    ensures var lbl, link, href := (if text == "" then name else text), GetLinkMd(name, text), GetHref(name);
      && |link| == |lbl| + |name| + 5 && |href| == |name| + 13
      && link[1..|lbl| + 1] == lbl
      && link[|lbl| + 4..|link| - 1] == href[7..|href| - 6]
  {
  }

  lemma Middle(s: string, a: string, x: string, b: string)
    requires s == a + x + b
    ensures |s| == |a| + |x| + |b| && s[|a|..|a| + |x|] == x
  {
  }
}
