# learn-gpt planner core in Dafny

learn-gpt turns a learning goal into a curriculum. It asks a language model (the *responder*) for a root subject. Then it expands that subject recursively. The root sits at depth 1. At each node whose depth is less than 3 the responder decides between `"topics"` and resources and exercises. A `"topics"` answer replaces the node's children with a list the responder supplies, and each child is expanded one level deeper. Any other answer, and every node at depth 3 or deeper, gets a list of resources and exercises. Every reply is repaired before it is decoded: line feeds are removed, and so are commas that precede a closing bracket. The finished `Plan` is rendered as Markdown. The output holds a header, the goal, a table of contents in pre-order, and one section per subject.

The modules follow the source:

- `Results` holds `Option`, `Result` and the error kinds the source raises: decode, schema validation, missing key and transport.
- `Text` holds the string functions the source relies on: `str.lower`, `str.replace`, `str.strip` on ASCII whitespace, `"\n".join`, `str(n)`, and `str.split` as a reference for reading text back.
- `Repair` covers `fix_json` and `load_malformed_json` (app/util.py).
- `Model` covers the pydantic records of model.py and their validation from decoded replies. The datatypes `Resource` (model.py:10-12), `Exercise` (model.py:15-16), `Subject` (model.py:19-26) and `Plan` (model.py:29-32) carry the same fields; their defaults and required fields are what `ParseResource`, `ParseExercise` and `ParseSubject` state. The `uuid4` default of `Plan.id` is the parameter `planId` of `Planner.Generate`.
- `Planner` covers the expansion engine and plan assembler: `Planner` in app/learn.py, and the same engine as free functions in learn.py. It contains:
  - a functional specification (`ProcessSubject`, `ProcessChildren`, `Generate`);
  - the step-by-step methods that mirror the source's control flow and are proved equal to it (`ProcessSubjectLoop`, `FanoutLoop`, `TerminalStep`);
  - lemmas about the request trace and the tree that a run builds.
- `Markdown` covers the renderers (`get_*_md` in app/learn.py, `gen_*_md` in learn.py; the two copies are identical).
- `Prompt` covers `format_numbered_list` (learn.py).
- `Scenarios` holds whole runs against fixed responders.

The responder is a record of four total functions. One function serves each request kind: root subject, decide, decompose, and resources and exercises. Each function receives the requests issued so far, ending with the current one, and the node concerned. It returns an already decoded reply or a failure. A reply's JSON text passes through `Repair.FixJson` before decoding. The model therefore does not include a JSON decoder: `Repair.LoadMalformedJson` takes the decoder as a parameter, and the responder stands for "model output, repaired and decoded". A run also records the requests it issues. This trace is how the depth, order and visit-once properties are stated.

## Model

| member | source | states |
|---|---|---|
| Repair.StripNewlines | app/util.py:8 | the result contains no line feed |
| Repair.FixJson | app/util.py:7-9 | `fix_json`: the repaired text never contains a line feed and is never longer than the input |
| Repair.RemoveTrailingCommas | app/util.py:9 | the substitution never lengthens the text, and text without a comma comes back unchanged |
| Repair.FollowedByCloseIff | app/util.py:9 | the lookahead holds exactly when some `]` or `}` is preceded by whitespace only, as `\s*[\]}]` says |
| Repair.FixJsonDeletesOnlyNewlinesAndCommas | app/util.py:7-9 | repair only deletes: the result is a subsequence of the input, and every character other than line feed and comma occurs as often as before |
| Repair.CommaDeletedIff | app/util.py:7-9 | a comma is removed exactly when, after line feeds are dropped, it is followed by optional whitespace and then `]` or `}`; the text on either side is repaired independently |
| Repair.LookaheadStopsAtBlocker | app/util.py:9 | the lookahead `\s*[\]}]` cannot see past a character that is neither whitespace nor a closing bracket |
| Repair.RepairIsLocal | app/util.py:9 | comma removal on a concatenation splits at any point where the second part starts with such a character |
| Repair.RemoveTrailingCommasCounts | app/util.py:9 | the substitution removes only commas and never adds a character |
| Repair.RemoveTrailingCommasIsSubsequence | app/util.py:9 | the substitution's output is a subsequence of its input |
| Repair.StripNewlinesIsSubsequence | app/util.py:8 | removing line feeds gives a subsequence of the input |
| Repair.StripNewlinesCounts | app/util.py:8 | removing line feeds keeps the count of every other character |
| Repair.StripNewlinesAppend | app/util.py:8 | line-feed removal distributes over concatenation |
| Repair.StripNewlinesIdentity | app/util.py:8 | text without line feeds is left unchanged |
| Repair.RemoveTrailingCommasIdentity | app/util.py:9 | text without a trailing comma is left unchanged |
| Repair.CleanTextUnchanged | app/util.py:7-9 | well-formed text (no line feed, no trailing comma) is left unchanged by the repair |
| Repair.CommaFreeTextUnchanged | app/util.py:7-9 | text without commas and line feeds is left unchanged |
| Repair.LoadMalformedJson | app/util.py:12-13 | `load_malformed_json` decodes the repaired text; for well-formed text (no line feed, no trailing comma) that is plain decoding of the text as written |
| Repair.CommaBeforeCloser | app/util.py:7-9 | in text without line feeds or other commas, a comma right before `}` or `]` is the only character removed |
| Repair.TrailingCommaAnswerRepaired | app/util.py:12-13 | `{"answer": "topics",}` is decoded as `{"answer": "topics"}` |
| Repair.NewlineBeforeCloserIgnored | app/util.py:7-9 | a line feed between a comma and its closer does not stop the removal |
| Repair.RepairIsNotIdempotent | app/util.py:7-9 | the single pass removes only the comma next to the closer: `,,]` becomes `,]`, and a second pass is needed to reach `]` |
| Repair.CommaInsideStringLiteralDeleted | app/util.py:7-9 | the repair is not JSON-aware: a `,}` inside a string literal loses its comma |
| Model.ParseResource | model.py:10-12 | validation succeeds iff title and description are present; a failure names the first missing field; the values are copied |
| Model.ParseExercise | model.py:15-16 | validation succeeds iff the description is present |
| Model.ParseSubject | model.py:19-26 | validation succeeds iff the title is present; the texts default to empty, the lists to empty, and the id to the freshly generated one |
| Model.ParseAll | app/learn.py:147 | list validation succeeds iff every element validates; it keeps the length and order; a failure is the first failing element's error |
| Planner.AskForAnswer | app/learn.py:151-161 | the answer is the reply's `answer` value, and a missing key is a `KeyError("answer")` |
| Planner.AddSubjectsAndTopics | app/learn.py:113-124 | the children are replaced by the reply's list when it has `subjects`, and nothing else changes |
| Planner.AddResourcesAndExercises | app/learn.py:136-149 | succeeds iff each present list validates; a present list replaces the node's, and an absent key keeps it; resources are validated first, so their error wins; nothing else changes |
| Planner.TerminalVisit | app/learn.py:111 | one resources-and-exercises request; the children and the header are unchanged |
| Planner.ProcessSubject | app/learn.py:91-111 | a visit keeps the node's header; its first request is a decide request below depth 3 and a terminal request otherwise; decide and decompose requests come only from depths below 3, and no request reaches past depth 3 |
| Planner.ProcessChildren | app/learn.py:99-109 | the fan-out returns one rebuilt child per child, in order, each with its own header |
| Planner.Generate | app/learn.py:85-89 | the plan keeps the goal and its fresh id; its root has the title, id, description and reason of the validated root reply; the root request comes first, then the decide request for the root at depth 1; every later request lies at depth 1 to 3, and decide requests occur only at depths 1 and 2 |
| Planner.ProcessChildrenAppend | app/learn.py:100-109 | visiting `a + b` is visiting `a`, then `b` with `a`'s requests in its history |
| Planner.ProcessChildrenSnoc | app/learn.py:100-109 | one more child is one more visit after the others |
| Planner.ChildFailureAbortsFanout | app/learn.py:109 | a failing child fails the whole fan-out with that child's error; no partial list is returned |
| Planner.DeepSubjectIsTerminalized | app/learn.py:92-93 | at depth 3 or deeper no decision is asked, and the node goes straight to resources and exercises with its children kept |
| Planner.OnlyExactTopicsDecomposes | app/learn.py:97 | the node is decomposed iff the answer is exactly `topics` |
| Planner.OtherAnswersTerminalize | app/learn.py:97-111 | `subjects/topics`, `Topics`, `resources/exercises` and the empty answer all lead to resources and exercises |
| Planner.MissingAnswerIsAnError | app/learn.py:161 | a decide reply without `answer` fails the visit with `KeyError("answer")` |
| Planner.VisitWritesOneSide | app/learn.py:97-111 | a decomposed node keeps its resources and exercises, and a terminal node keeps its children |
| Planner.VisitOpensOnce | app/learn.py:91-111 | a visit opens exactly one visit at its own depth, its own |
| Planner.FanoutVisitsInOrder | app/learn.py:100-109 | the fan-out visits every child exactly once, in list order |
| Planner.DecompositionVisitsEachChild | app/learn.py:97-109 | after `topics` the children are the reply's list, or the old list when the key is missing; each child is visited exactly once one level down, in order, after the node's two requests |
| Planner.VisitHeight | app/learn.py:91-111 | with child lists that have no children of their own, a visit at depth `d` builds at most `4 - d` levels, and at depth 3 or deeper it keeps the height |
| Planner.FanoutHeight | app/learn.py:99-109 | the same bound for every child of a fan-out |
| Planner.GeneratedPlanHeight | app/learn.py:85-89 | with such child lists and a root reply without children, a plan is at most three levels deep |
| Planner.ProcessSubjectLoop | app/learn.py:91-111 | the step-by-step visit returns exactly what `ProcessSubject` specifies |
| Planner.FanoutLoop | app/learn.py:99-109 | the loop over the children returns exactly what `ProcessChildren` specifies |
| Planner.TerminalStep | app/learn.py:136-149 | one request, then `resources` and `exercises` assigned one after the other, each only when its key is present, a validation failure aborting the step; the result is the node `TerminalVisit` specifies |
| Markdown.SanitizeAnchorName | app/learn.py:185-186 | anchor names keep their length, contain no space, and are the lower-cased name with spaces turned into hyphens |
| Markdown.SanitizeIdempotent | app/learn.py:185-186 | sanitising an anchor name again changes nothing |
| Markdown.SanitizeKeepsNewlines | app/learn.py:185-186 | sanitising keeps the number of line feeds |
| Markdown.GetLinkMd | app/learn.py:189-191 | the link shows the label, or the name when the label is empty, between the brackets, and its target is the sanitised name |
| Markdown.GetHref | app/learn.py:194-195 | the anchor tag's id is the sanitised name |
| Markdown.LinkTargetsHeadingAnchor | app/learn.py:189-195 | a link's target is the anchor id that `get_href` gives the same name |
| Markdown.TocLine | app/learn.py:199-200 | a contents line is two spaces per level, then ` * `, and ends with a line feed |
| Markdown.TocMd | app/learn.py:198-204 | the contents of a subtree open with the node's own bullet at its indentation and end with a line feed |
| Markdown.TocMdAll | app/learn.py:201-203 | the children's contents are empty exactly when there are no children, and otherwise end with a line feed |
| Markdown.Preorder | app/learn.py:198-204 | the pre-order listing has one entry per subject, starts with the node itself, and lists no level above the node's |
| Markdown.TocIsPreorder | app/learn.py:198-204 | the table of contents is one contents line per subject of the pre-order listing, in that order |
| Markdown.TocLineNewlines | app/learn.py:200 | a contents line for a title without line feeds holds exactly one |
| Markdown.TocLineCount | app/learn.py:198-204 | with such titles the table of contents has one line per subject of the tree |
| Markdown.SectionHead | app/learn.py:208-212 | a section opens with `level` hash marks and a space |
| Markdown.SubjectMd | app/learn.py:207-226 | a subject's section starts with its heading |
| Markdown.SubjectMdAll | app/learn.py:213-215 | the children's sections are empty exactly when there are no children, and otherwise open with the first child's heading |
| Markdown.SubjectMdIsParts | app/learn.py:207-226 | a section is its heading, its children's sections and its Resources and Exercises blocks, rendered in that order |
| Markdown.SectionHeadingsArePreorder | app/learn.py:207-226 | the headings of a section are the subjects of its tree in pre-order, each at its depth: one heading per subject, in the order of the table of contents |
| Markdown.ResourcesMd | app/learn.py:216-220 | the Resources block is empty iff there are no resources; otherwise it is headed one level below the subject and ends with the resource lines |
| Markdown.ExercisesMd | app/learn.py:221-225 | the Exercises block is empty iff there are no exercises; otherwise it is headed one level below the subject and ends with the exercise lines |
| Markdown.ResourceLinesAppend | app/learn.py:219-220 | resource lines are written in list order: the lines of `a + b` are those of `a` followed by those of `b` |
| Markdown.ResourceLineCount | app/learn.py:219-220 | one line per resource when the fields have no line feeds |
| Markdown.ExerciseLinesAppend | app/learn.py:224-225 | exercise lines are written in list order |
| Markdown.ExerciseLineCount | app/learn.py:224-225 | one line per exercise when the descriptions have no line feeds |
| Markdown.PlanMd | app/learn.py:229-236 | the document ends with exactly one line feed after a non-blank character, starts with `# Learning Hub: ` and the root title, and contains `> ` followed by the goal |
| Markdown.PlanHeader | app/learn.py:231 | the first line reads `# Learning Hub: ` followed by the root's title |
| Markdown.Document | app/learn.py:230-235 | the text before the strip opens with the header and ends with the contents, a blank line and the root's section |
| Markdown.DocumentSurvivesStrip | app/learn.py:229-236 | stripping cuts nothing before the table of contents, so the header and the goal line survive it, and the single final line feed follows a non-blank character |
| Prompt.NumberedLines | learn.py:22-23 | one numbered line per item |
| Prompt.NumberedLine | learn.py:23 | line `i` is the number `i + 1`, then `. `, then the item |
| Prompt.FormatNumberedList | learn.py:22-23 | the text is empty exactly when there are no items, and otherwise opens with `1. ` and the first item |
| Prompt.NumberedListLines | learn.py:22-23 | for items without line feeds, splitting the text at line feeds gives back item `i` behind the number `i + 1`, and the text has `n - 1` line feeds |
| Prompt.NumberReadsBack | learn.py:22-23 | the number in front of a line is a run of digits without `.` that reads back as `i + 1` |
| Text.SplitJoin | learn.py:23 | joining pieces with a separator they do not contain and then splitting gives the pieces back |
| Text.JoinCount | learn.py:23 | the joined text has one separator between consecutive pieces and no other |
| Text.NatToStringValue | learn.py:23 | the decimal rendering of a number reads back as that number |
| Text.NatToString | learn.py:23 | a number renders as a non-empty run of digits |
| Text.ToLower | app/learn.py:186 | lower-casing keeps the length and maps each character |
| Text.ReplaceChar | app/learn.py:186 | replacing a character keeps the length and changes exactly its occurrences |
| Text.Repeat | app/learn.py:199 | `c * n` has length `n` and consists of `c` |
| Text.TrimLeft | app/learn.py:236 | the left strip is a suffix, drops only whitespace, and does not start with whitespace |
| Text.TrimRight | app/learn.py:236 | the right strip is a prefix, drops only whitespace, and does not end with whitespace |
| Text.Strip | app/learn.py:236 | `str.strip()` keeps a contiguous piece of the text, drops only whitespace on either side, and neither starts nor ends with whitespace |
| Scenarios.TerminalRootScenario | app/learn.py:85-111 | root "X" answered `resources/exercises` ends as a leaf with the resource ("Book", "intro") and no exercises, after exactly three requests |
| Scenarios.DecomposedRootScenario | app/learn.py:91-111 | root "X" answered `topics` with children A and B ends with exactly those two children, each a leaf, and no resources or exercises of its own |
| Scenarios.MalformedLeafScenario | app/learn.py:136-149 | an undecodable terminal reply for B fails the whole run with the decode error |

## Left out

- The language model calls, the prompt templates and the wording of the task texts (app/learn.py:68-71, 94, 114-115, 137-138, 152-153) are left out. The responder receives the request kind, title and depth, the request history, and the node concerned. The constants `SubjectsAndTopics` and `ResourcesAndExercises` (app/learn.py:37-38) are kept: the lemmas show that neither answer leads to decomposition, since the source compares the answer only with `"topics"`.
- The responder is total: every call returns a reply or an error. A call that never returns is not represented; in the source such a call stalls the whole plan, because nothing in `give_task` or `gather` (app/learn.py:78-83, 109) has a timeout.
- The snapshot of the plan that every task text embeds (`plan.subject.json()`) is not given to the responder. Because the responder sees the whole request history, it can still depend on the requests.
- JSON decoding is the parameter `decode` of `Repair.LoadMalformedJson`. The responder returns decoded replies, so byte-level decoding errors appear only as `DecodeError` failures.
- Child lists from a decompose reply arrive already validated as `Subject`s. pydantic's nested validation of those lists is not modelled separately.
- Planner.ProcessChildren: `asyncio.create_task` plus `gather` is modelled as a sequential fan-out in list order. Each child writes only its own subtree, but the result can still depend on the order: every responder call sees the requests issued before it, and in the source every task text embeds `plan.subject.json()`, which shows what siblings have already written (app/learn.py:114, 137, 152). The tree is independent of the order only for a responder whose replies ignore the history. The interleaving of the children's requests is not modelled. When a child fails, the model stops at the first failure, while the source's other tasks may still run before `gather` raises.
- Planner.ProcessSubject: the source mutates `subject` in place inside the plan. The model rebuilds the node and returns it.
- Model.ParseResource: pydantic raises one `ValidationError` that lists every missing field. The model reduces it to the first missing field, `title` before `description`.
- Model.ParseAll: `parse_obj_as` raises one `ValidationError` that lists every failing element. The model reduces it to the error of the first failing element.
- Planner.AskForAnswer: an answer that is not a string (for example a number) is not modelled. The answer reply is `Option<string>`.
- Planner.GeneratedPlanHeight: the bound of three levels is proved only when child lists and the root reply carry no nested subjects. pydantic keeps nested `subjects` that arrive in a reply, so without that condition the source gives no bound.
- `create_plan`, the HTTP routes, the Streamlit and web front ends, the store, `fake_plan`, the scripts and the verbose `print`s are left out. They are I/O around the core.
- The API key and environment settings are left out. `uuid.uuid4()` ids are parameters (`planId`, `rootId`); ids of child subjects come with the validated child lists.
- learn.py's records have no `id` fields. The model uses app/learn.py's records with ids throughout.
- learn.py's `ask_for_subject` calls `fix_json` and then `parse_raw` instead of `load_malformed_json` and then `parse_obj`. Both repair, then decode, then validate, so the model treats them alike.
- Text.ToLower and Text.TrimLeft: `str.lower`, `str.strip` and the regex class `\s` are modelled on ASCII. Unicode case mapping and Unicode whitespace are not modelled.
