/** The subject expansion engine and the plan assembler (app/learn.py `Planner`, and the same
    engine as free functions in learn.py). The language model is a `Responder`: for every request
    it is given the requests issued so far, ending with the current one, and the node concerned,
    and it answers with an already decoded reply or a failure. */
module Planner {
  import opened Results
  import opened Model

  /** Nodes at this depth or deeper are never asked whether to decompose. */
  const MaxDecompositionDepth: nat := 3

  /** The only answer that leads to decomposition. */
  const Topics: string := "topics"

  /** Constants the source defines next to the question; neither is compared with the answer. */
  const SubjectsAndTopics: string := "subjects/topics"
  const ResourcesAndExercises: string := "resources/exercises"

  datatype RequestKind = RootSubject | Decide | Decompose | Terminalize

  /** One call to the responder: what is asked, about which title, at which depth. */
  datatype Request = Request(kind: RequestKind, title: string, depth: nat)

  /** A decoded resources-and-exercises reply; `None` is a missing key. */
  datatype MaterialReply = MaterialReply(resources: Option<seq<ResourceFields>>, exercises: Option<seq<ExerciseFields>>)

  datatype Responder = Responder(
    root: seq<Request> -> Result<SubjectFields>,
    answer: (seq<Request>, Subject) -> Result<Option<string>>,
    subjects: (seq<Request>, Subject) -> Result<Option<seq<Subject>>>,
    material: (seq<Request>, Subject) -> Result<MaterialReply>)

  /** A visited node rebuilt, with the requests its visit issued. */
  datatype Expansion = Expansion(node: Subject, trace: seq<Request>)

  /** The children of a decomposed node rebuilt, with the requests their visits issued. */
  datatype Fanout = Fanout(nodes: seq<Subject>, trace: seq<Request>)

  datatype Generated = Generated(plan: Plan, trace: seq<Request>)

  // ---------------------------------------------------------------------------------------------
  // Specification predicates

  /** Title, id, description and reason: what a visit never changes. */
  predicate SameHeader(a: Subject, b: Subject) {
    a.id == b.id && a.subject == b.subject && a.description == b.description && a.reason == b.reason
  }

  /** Every request of a visit started at `depth` lies between `depth` and the deepest level
      that can be reached from it, and only nodes above the cut-off are asked to decide or to
      decompose. */
  predicate WellDepthed(trace: seq<Request>, depth: nat) {
    forall q | q in trace ::
      && q.kind != RootSubject
      && depth <= q.depth <= (if depth < MaxDecompositionDepth then MaxDecompositionDepth else depth)
      && (q.kind == Decide || q.kind == Decompose ==> q.depth < MaxDecompositionDepth)
  }

  /** The request that opens the visit of a node at `depth`. */
  predicate OpensVisit(q: Request, depth: nat) {
    q.depth == depth && q.kind == (if depth < MaxDecompositionDepth then Decide else Terminalize)
  }

  /** Titles of the nodes whose visit at `depth` is opened in `trace`, in order. */
  function Visits(trace: seq<Request>, depth: nat): seq<string> {
    if trace == [] then []
    else (if OpensVisit(trace[0], depth) then [trace[0].title] else []) + Visits(trace[1..], depth)
  }

  function Titles(kids: seq<Subject>): seq<string> {
    if kids == [] then [] else [kids[0].subject] + Titles(kids[1..])
  }

  /** The visit decomposed the node: its second request asked for children. */
  predicate Decomposed(e: Expansion) {
    |e.trace| >= 2 && e.trace[1].kind == Decompose
  }

  /** The measure that bounds the recursion: decomposition stops at the cut-off depth. */
  function Rank(depth: nat): nat {
    if depth < MaxDecompositionDepth then MaxDecompositionDepth - depth else 0
  }

  // ---------------------------------------------------------------------------------------------
  // The operations

  /** `_ask_for_answer` / `ask_for_answer`: `data["answer"]`, a missing key being an error. */
  function AskForAnswer(reply: Option<string>): (r: Result<string>)
    ensures r.Success? <==> reply.Some?
    ensures r.Success? ==> r.value == reply.value
    ensures reply.None? ==> r == Failure(KeyError("answer"))
  {
    match reply
    case None => Failure(KeyError("answer"))
    case Some(a) => Success(a)
  }

  /** `_add_subjects_and_topics` / `add_subjects_and_topics`: the children are replaced by the
      reply's list when it has a "subjects" key, and left alone otherwise. */
  function AddSubjectsAndTopics(s: Subject, reply: Option<seq<Subject>>): (r: Subject)
    ensures reply.None? ==> r == s
    ensures reply.Some? ==> r.subjects == reply.value
    ensures r == s.(subjects := r.subjects)
  {
    match reply
    case None => s
    case Some(kids) => s.(subjects := kids)
  }

  /** `_add_resources_and_exercises` / `add_resources_and_exercises`: each of the two lists is
      validated and replaces the node's list only when its key is present; the resources are
      validated first, so their failure is the one raised. */
  function AddResourcesAndExercises(s: Subject, reply: MaterialReply): (r: Result<Subject>)
    ensures r.Success? <==>
      && (reply.resources.Some? ==> ParseAll(ParseResource, reply.resources.value).Success?)
      && (reply.exercises.Some? ==> ParseAll(ParseExercise, reply.exercises.value).Success?)
    ensures reply.resources.Some? && ParseAll(ParseResource, reply.resources.value).Failure? ==>
      r == Failure(ParseAll(ParseResource, reply.resources.value).error)
    ensures r.Success? ==>
      && r.value == s.(resources := r.value.resources, exercises := r.value.exercises)
      && r.value.resources == (if reply.resources.None? then s.resources
                               else ParseAll(ParseResource, reply.resources.value).value)
      && r.value.exercises == (if reply.exercises.None? then s.exercises
                               else ParseAll(ParseExercise, reply.exercises.value).value)
  {
    var resources := if reply.resources.None? then Success(s.resources)
                     else ParseAll(ParseResource, reply.resources.value);
    var exercises := if reply.exercises.None? then Success(s.exercises)
                     else ParseAll(ParseExercise, reply.exercises.value);
    if resources.Failure? then Failure(resources.error)
    else if exercises.Failure? then Failure(exercises.error)
    else Success(s.(resources := resources.value, exercises := exercises.value))
  }

  /** The terminal step of a visit: one resources-and-exercises request. */
  function TerminalVisit(r: Responder, s: Subject, depth: nat, past: seq<Request>): (res: Result<Expansion>)
    ensures res.Success? ==> res.value.trace == [Request(Terminalize, s.subject, depth)]
    ensures res.Success? ==> res.value.node.subjects == s.subjects && SameHeader(res.value.node, s)
  {
    var q := Request(Terminalize, s.subject, depth);
    match r.material(past + [q], s)
    case Failure(e) => Failure(e)
    case Success(reply) =>
      match AddResourcesAndExercises(s, reply)
      case Failure(e) => Failure(e)
      case Success(node) => Success(Expansion(node, [q]))
  }

  /** `_process_subject` / `process_subject`: below the cut-off depth ask whether to decompose;
      the answer "topics" replaces the children and visits each of them one level deeper,
      anything else (and every node at the cut-off or deeper) gets resources and exercises.
      Any failure aborts the visit. */
  function ProcessSubject(r: Responder, s: Subject, depth: nat, past: seq<Request>): (res: Result<Expansion>)
    ensures res.Success? ==> SameHeader(res.value.node, s)
    ensures res.Success? ==>
      res.value.trace != [] && res.value.trace[0] == Request(
        if depth < MaxDecompositionDepth then Decide else Terminalize, s.subject, depth)
    ensures res.Success? ==> WellDepthed(res.value.trace, depth)
    decreases Rank(depth), 0, 0
  {
    if depth < MaxDecompositionDepth then
      var q := Request(Decide, s.subject, depth);
      match r.answer(past + [q], s)
      case Failure(e) => Failure(e)
      case Success(reply) =>
        match AskForAnswer(reply)
        case Failure(e) => Failure(e)
        case Success(answer) =>
          if answer == Topics then
            var q2 := Request(Decompose, s.subject, depth);
            match r.subjects(past + [q, q2], s)
            case Failure(e) => Failure(e)
            case Success(kids) =>
              var s1 := AddSubjectsAndTopics(s, kids);
              match ProcessChildren(r, s1.subjects, depth + 1, past + [q, q2])
              case Failure(e) => Failure(e)
              case Success(f) => Success(Expansion(s1.(subjects := f.nodes), [q, q2] + f.trace))
          else
            match TerminalVisit(r, s, depth, past + [q])
            case Failure(e) => Failure(e)
            case Success(t) => Success(Expansion(t.node, [q] + t.trace))
    else
      TerminalVisit(r, s, depth, past)
  }

  /** The fan-out over the children of a decomposed node, taken one child after the other:
      each child writes only its own subtree; the tree can still depend on the order, because
      every responder call sees the requests issued before it. */
  function ProcessChildren(r: Responder, kids: seq<Subject>, depth: nat, past: seq<Request>): (res: Result<Fanout>)
    ensures res.Success? ==> |res.value.nodes| == |kids|
    ensures res.Success? ==> forall i :: 0 <= i < |kids| ==> SameHeader(res.value.nodes[i], kids[i])
    ensures res.Success? ==> WellDepthed(res.value.trace, depth)
    decreases Rank(depth), 1, |kids|
  {
    if kids == [] then Success(Fanout([], []))
    else
      match ProcessSubject(r, kids[0], depth, past)
      case Failure(e) => Failure(e)
      case Success(first) =>
        match ProcessChildren(r, kids[1..], depth, past + first.trace)
        case Failure(e) => Failure(e)
        case Success(rest) => Success(Fanout([first.node] + rest.nodes, first.trace + rest.trace))
  }

  /** `generate` / `generate_full_plan`: ask for the root subject, build the plan around it and
      expand the root at depth 1. `planId` and `rootId` are the freshly generated identifiers. */
  function Generate(r: Responder, goal: string, planId: string, rootId: string): (res: Result<Generated>)
    ensures res.Success? ==> res.value.plan.goal == goal && res.value.plan.id == planId
    ensures res.Success? ==>
      && r.root([Request(RootSubject, goal, 0)]).Success?
      && r.root([Request(RootSubject, goal, 0)]).value.subject.Some?
      && SameHeader(res.value.plan.subject, ParseSubject(r.root([Request(RootSubject, goal, 0)]).value, rootId).value)
    ensures res.Success? ==>
      && |res.value.trace| >= 2
      && res.value.trace[0] == Request(RootSubject, goal, 0)
      && res.value.trace[1] == Request(Decide, res.value.plan.subject.subject, 1)
    ensures res.Success? ==> forall i :: 1 <= i < |res.value.trace| ==>
      && 1 <= res.value.trace[i].depth <= MaxDecompositionDepth
      && (res.value.trace[i].kind == Decide ==> res.value.trace[i].depth in {1, 2})
  {
    var q0 := Request(RootSubject, goal, 0);
    match r.root([q0])
    case Failure(e) => Failure(e)
    case Success(fields) =>
      match ParseSubject(fields, rootId)
      case Failure(e) => Failure(e)
      case Success(root) =>
        var plan := Plan(planId, goal, root);
        match ProcessSubject(r, plan.subject, 1, [q0])
        case Failure(e) => Failure(e)
        case Success(x) =>
          assert forall i :: 1 <= i < |[q0] + x.trace| ==> ([q0] + x.trace)[i] in x.trace;
          Success(Generated(plan.(subject := x.node), [q0] + x.trace))
  }

  // ---------------------------------------------------------------------------------------------
  // The fan-out: composition and failure

  /** A fan-out `a` followed by the fan-out over `ys`, whose history includes `a`'s requests. */
  function ThenFanout(r: Responder, a: Result<Fanout>, ys: seq<Subject>, depth: nat, past: seq<Request>): Result<Fanout> {
    match a
    case Failure(e) => Failure(e)
    case Success(x) =>
      match ProcessChildren(r, ys, depth, past + x.trace)
      case Failure(e) => Failure(e)
      case Success(y) => Success(Fanout(x.nodes + y.nodes, x.trace + y.trace))
  }

  lemma EmptyFanoutThen(r: Responder, ys: seq<Subject>, depth: nat, past: seq<Request>)
    ensures ThenFanout(r, Success(Fanout([], [])), ys, depth, past) == ProcessChildren(r, ys, depth, past)
  {
    assert past + [] == past;
    var b1 := ProcessChildren(r, ys, depth, past);
    if b1.Success? {
      assert Fanout([] + b1.value.nodes, [] + b1.value.trace) == b1.value;
    }
  }

  /** Visiting a list of children in two parts is visiting the first part, then the second part
      with the first part's requests added to the history. */
  lemma {:induction false} ProcessChildrenAppend(r: Responder, xs: seq<Subject>, ys: seq<Subject>, depth: nat, past: seq<Request>)
    ensures ProcessChildren(r, xs + ys, depth, past) == ThenFanout(r, ProcessChildren(r, xs, depth, past), ys, depth, past)
    decreases |xs|
  {
    if xs == [] {
      assert xs + ys == ys;
      EmptyFanoutThen(r, ys, depth, past);
    } else {
      var zs := xs + ys;
      assert zs != [] && zs[0] == xs[0] && zs[1..] == xs[1..] + ys;
      var h := ProcessSubject(r, xs[0], depth, past);
      if h.Success? {
        var first := h.value;
        var p1 := past + first.trace;
        ProcessChildrenAppend(r, xs[1..], ys, depth, p1);
        AppendStep(r, first, ProcessChildren(r, xs[1..], depth, p1), ys, depth, past);
      }
    }
  }

  /** The inductive step of `ProcessChildrenAppend`, on the fan-out of the remaining children. */
  lemma AppendStep(r: Responder, first: Expansion, a1: Result<Fanout>, ys: seq<Subject>, depth: nat, past: seq<Request>)
    ensures
      (match ThenFanout(r, a1, ys, depth, past + first.trace)
       case Failure(e) => Failure(e)
       case Success(rest) => Success(Fanout([first.node] + rest.nodes, first.trace + rest.trace)))
      == ThenFanout(r,
           (match a1
            case Failure(e) => Failure(e)
            case Success(a) => Success(Fanout([first.node] + a.nodes, first.trace + a.trace))),
           ys, depth, past)
  {
    if a1.Success? {
      var a := a1.value;
      assert past + first.trace + a.trace == past + (first.trace + a.trace);
      var b1 := ProcessChildren(r, ys, depth, past + first.trace + a.trace);
      if b1.Success? {
        var b := b1.value;
        assert [first.node] + (a.nodes + b.nodes) == ([first.node] + a.nodes) + b.nodes;
        assert first.trace + (a.trace + b.trace) == (first.trace + a.trace) + b.trace;
      }
    }
  }

  /** One more child at the end of the list is one more visit after the others. */
  lemma ProcessChildrenSnoc(r: Responder, xs: seq<Subject>, x: Subject, depth: nat, past: seq<Request>)
    ensures ProcessChildren(r, xs + [x], depth, past) ==
      match ProcessChildren(r, xs, depth, past)
      case Failure(e) => Failure(e)
      case Success(a) =>
        match ProcessSubject(r, x, depth, past + a.trace)
        case Failure(e) => Failure(e)
        case Success(v) => Success(Fanout(a.nodes + [v.node], a.trace + v.trace))
  {
    ProcessChildrenAppend(r, xs, [x], depth, past);
    match ProcessChildren(r, xs, depth, past) {
      case Failure(e) =>
      case Success(a) =>
        assert [x][1..] == [];
        match ProcessSubject(r, x, depth, past + a.trace) {
          case Failure(e) =>
          case Success(v) =>
            assert ProcessChildren(r, [], depth, past + a.trace + v.trace) == Success(Fanout([], []));
            assert [v.node] + [] == [v.node] && v.trace + [] == v.trace;
        }
    }
  }

  /** A failing child aborts the whole fan-out with its own error: no partial list is returned. */
  lemma ChildFailureAbortsFanout(r: Responder, kids: seq<Subject>, i: nat, depth: nat, past: seq<Request>)
    requires i < |kids|
    requires ProcessChildren(r, kids[..i], depth, past).Success?
    requires ProcessSubject(r, kids[i], depth, past + ProcessChildren(r, kids[..i], depth, past).value.trace).Failure?
    ensures ProcessChildren(r, kids, depth, past)
         == Failure(ProcessSubject(r, kids[i], depth, past + ProcessChildren(r, kids[..i], depth, past).value.trace).error)
  {
    assert kids == kids[..i] + kids[i..];
    ProcessChildrenAppend(r, kids[..i], kids[i..], depth, past);
    assert kids[i..][0] == kids[i];
  }

  // ---------------------------------------------------------------------------------------------
  // What one visit does

  /** At the cut-off depth and below no decision is asked for: the node goes straight to the
      resources-and-exercises step and keeps its children. */
  lemma DeepSubjectIsTerminalized(r: Responder, s: Subject, depth: nat, past: seq<Request>)
    requires depth >= MaxDecompositionDepth
    ensures ProcessSubject(r, s, depth, past) == TerminalVisit(r, s, depth, past)
    ensures ProcessSubject(r, s, depth, past).Success? ==>
      && ProcessSubject(r, s, depth, past).value.trace == [Request(Terminalize, s.subject, depth)]
      && ProcessSubject(r, s, depth, past).value.node.subjects == s.subjects
  {
  }

  /** Only the exact answer "topics" decomposes. */
  lemma OnlyExactTopicsDecomposes(r: Responder, s: Subject, depth: nat, past: seq<Request>, a: string)
    requires depth < MaxDecompositionDepth
    requires r.answer(past + [Request(Decide, s.subject, depth)], s) == Success(Some(a))
    ensures ProcessSubject(r, s, depth, past).Success? ==>
      (Decomposed(ProcessSubject(r, s, depth, past).value) <==> a == Topics)
  {
  }

  /** The other spellings, including the source's own "subjects/topics" constant, terminalize. */
  lemma OtherAnswersTerminalize(r: Responder, s: Subject, depth: nat, past: seq<Request>, a: string)
    requires depth < MaxDecompositionDepth
    requires a == SubjectsAndTopics || a == "Topics" || a == ResourcesAndExercises || a == ""
    requires r.answer(past + [Request(Decide, s.subject, depth)], s) == Success(Some(a))
    ensures ProcessSubject(r, s, depth, past).Success? ==>
      && ProcessSubject(r, s, depth, past).value.trace
         == [Request(Decide, s.subject, depth), Request(Terminalize, s.subject, depth)]
      && ProcessSubject(r, s, depth, past).value.node.subjects == s.subjects
  {
  }

  /** A reply without an "answer" key aborts the visit instead of counting as an empty answer. */
  lemma MissingAnswerIsAnError(r: Responder, s: Subject, depth: nat, past: seq<Request>)
    requires depth < MaxDecompositionDepth
    requires r.answer(past + [Request(Decide, s.subject, depth)], s) == Success(None)
    ensures ProcessSubject(r, s, depth, past) == Failure(KeyError("answer"))
  {
  }

  /** A visit writes the children or the resources and exercises, never both. */
  lemma VisitWritesOneSide(r: Responder, s: Subject, depth: nat, past: seq<Request>)
    ensures ProcessSubject(r, s, depth, past).Success? ==>
      var e := ProcessSubject(r, s, depth, past).value;
      && (Decomposed(e) ==> e.node.resources == s.resources && e.node.exercises == s.exercises)
      && (!Decomposed(e) ==> e.node.subjects == s.subjects)
  {
  }

  lemma {:induction false} VisitsAppend(a: seq<Request>, b: seq<Request>, depth: nat)
    ensures Visits(a + b, depth) == Visits(a, depth) + Visits(b, depth)
  {
    if a == [] {
      assert a + b == b;
    } else {
      assert (a + b)[0] == a[0] && (a + b)[1..] == a[1..] + b;
      VisitsAppend(a[1..], b, depth);
    }
  }

  lemma {:induction false} NoVisitsAbove(t: seq<Request>, depth: nat)
    requires WellDepthed(t, depth + 1)
    ensures Visits(t, depth) == []
  {
    if t != [] {
      assert t[0] in t;
      assert WellDepthed(t[1..], depth + 1) by {
        forall q | q in t[1..] ensures q in t { }
      }
      NoVisitsAbove(t[1..], depth);
    }
  }

  /** A visit opens exactly one visit at its own depth: its own. */
  lemma VisitOpensOnce(r: Responder, s: Subject, depth: nat, past: seq<Request>)
    ensures ProcessSubject(r, s, depth, past).Success? ==>
      Visits(ProcessSubject(r, s, depth, past).value.trace, depth) == [s.subject]
  {
    if ProcessSubject(r, s, depth, past).Success? {
      var e := ProcessSubject(r, s, depth, past).value;
      var t := e.trace;
      assert t == [t[0]] + t[1..];
      VisitsAppend([t[0]], t[1..], depth);
      assert Visits([t[0]], depth) == [s.subject];
      if Decomposed(e) {
        assert t[1..] == [t[1]] + t[2..];
        VisitsAppend([t[1]], t[2..], depth);
        var q := Request(Decide, s.subject, depth);
        var q2 := Request(Decompose, s.subject, depth);
        var reply := r.subjects(past + [q, q2], s).value;
        var f := ProcessChildren(r, AddSubjectsAndTopics(s, reply).subjects, depth + 1, past + [q, q2]).value;
        assert t == [q, q2] + f.trace;
        assert t[2..] == f.trace;
        NoVisitsAbove(t[2..], depth);
      } else if |t| > 1 {
        assert t == [Request(Decide, s.subject, depth), Request(Terminalize, s.subject, depth)];
      }
    }
  }

  /** The fan-out visits every child exactly once, in list order. */
  lemma {:induction false} FanoutVisitsInOrder(r: Responder, kids: seq<Subject>, depth: nat, past: seq<Request>)
    ensures ProcessChildren(r, kids, depth, past).Success? ==>
      Visits(ProcessChildren(r, kids, depth, past).value.trace, depth) == Titles(kids)
    decreases |kids|
  {
    if kids != [] && ProcessChildren(r, kids, depth, past).Success? {
      var first := ProcessSubject(r, kids[0], depth, past).value;
      var rest := ProcessChildren(r, kids[1..], depth, past + first.trace).value;
      VisitOpensOnce(r, kids[0], depth, past);
      FanoutVisitsInOrder(r, kids[1..], depth, past + first.trace);
      VisitsAppend(first.trace, rest.trace, depth);
    }
  }

  /** After the answer "topics", the children become the reply's list (or stay as they were when
      the reply has no "subjects" key), keep their length, order and headers, are each visited
      exactly once at the next depth, in order, after the node's own two requests; resources and
      exercises are not touched. */
  lemma DecompositionVisitsEachChild(r: Responder, s: Subject, depth: nat, past: seq<Request>, reply: Option<seq<Subject>>)
    requires depth < MaxDecompositionDepth
    requires r.answer(past + [Request(Decide, s.subject, depth)], s) == Success(Some(Topics))
    requires r.subjects(past + [Request(Decide, s.subject, depth), Request(Decompose, s.subject, depth)], s) == Success(reply)
    ensures ProcessSubject(r, s, depth, past).Success? ==>
      var e := ProcessSubject(r, s, depth, past).value;
      var kids := if reply.Some? then reply.value else s.subjects;
      && |e.node.subjects| == |kids|
      && (forall i :: 0 <= i < |kids| ==> SameHeader(e.node.subjects[i], kids[i]))
      && e.node.resources == s.resources && e.node.exercises == s.exercises
      && e.trace[..2] == [Request(Decide, s.subject, depth), Request(Decompose, s.subject, depth)]
      && Visits(e.trace[2..], depth + 1) == Titles(kids)
      && WellDepthed(e.trace[2..], depth + 1)
  {
    var q := Request(Decide, s.subject, depth);
    var q2 := Request(Decompose, s.subject, depth);
    var kids := AddSubjectsAndTopics(s, reply).subjects;
    if ProcessSubject(r, s, depth, past).Success? {
      var f := ProcessChildren(r, kids, depth + 1, past + [q, q2]).value;
      FanoutVisitsInOrder(r, kids, depth + 1, past + [q, q2]);
      assert ProcessSubject(r, s, depth, past).value.trace == [q, q2] + f.trace;
      assert ([q, q2] + f.trace)[2..] == f.trace;
    }
  }

  // ---------------------------------------------------------------------------------------------
  // Tree height

  function Max(a: nat, b: nat): nat {
    if a < b then b else a
  }

  /** Levels of the tree, counting the node itself. */
  function Height(s: Subject): nat
    decreases s
  {
    1 + MaxHeight(s.subjects)
  }

  function MaxHeight(kids: seq<Subject>): nat
    decreases kids
  {
    if kids == [] then 0 else Max(Height(kids[0]), MaxHeight(kids[1..]))
  }

  /** The child lists the responder hands back have no children of their own. */
  predicate FlatReply(reply: Result<Option<seq<Subject>>>) {
    reply.Success? && reply.value.Some? ==> forall c | c in reply.value.value :: c.subjects == []
  }

  ghost predicate FlatChildLists(r: Responder) {
    forall h, s :: FlatReply(r.subjects(h, s))
  }

  /** The height a visit at `depth` can build from flat child lists. */
  function Reach(depth: nat): nat {
    if depth < MaxDecompositionDepth then MaxDecompositionDepth + 1 - depth else 1
  }

  lemma {:induction false} FlatListHeight(kids: seq<Subject>)
    requires forall c | c in kids :: c.subjects == []
    ensures MaxHeight(kids) <= 1
  {
    if kids != [] {
      assert kids[0] in kids;
      assert MaxHeight(kids[0].subjects) == 0;
      FlatListHeight(kids[1..]);
    }
  }

  /** A visit at `depth` grows the tree to at most `Reach(depth)` levels, or leaves it as tall
      as it already was, provided the responder's child lists are flat. */
  lemma {:induction false} VisitHeight(r: Responder, s: Subject, depth: nat, past: seq<Request>)
    requires FlatChildLists(r)
    ensures ProcessSubject(r, s, depth, past).Success? ==>
      Height(ProcessSubject(r, s, depth, past).value.node) <= Max(Height(s), Reach(depth))
    decreases Rank(depth), 0, 0
  {
    var q := Request(Decide, s.subject, depth);
    var q2 := Request(Decompose, s.subject, depth);
    if depth < MaxDecompositionDepth && ProcessSubject(r, s, depth, past).Success? {
      var e := ProcessSubject(r, s, depth, past).value;
      if r.answer(past + [q], s).value.value == Topics {
        var reply := r.subjects(past + [q, q2], s).value;
        var s1 := AddSubjectsAndTopics(s, reply);
        var f := ProcessChildren(r, s1.subjects, depth + 1, past + [q, q2]).value;
        FanoutHeight(r, s1.subjects, depth + 1, past + [q, q2]);
        assert e.node == s1.(subjects := f.nodes);
        if reply.Some? {
          assert FlatReply(r.subjects(past + [q, q2], s));
          FlatListHeight(reply.value);
        }
      }
    }
  }

  lemma {:induction false} FanoutHeight(r: Responder, kids: seq<Subject>, depth: nat, past: seq<Request>)
    requires FlatChildLists(r)
    ensures ProcessChildren(r, kids, depth, past).Success? ==>
      MaxHeight(ProcessChildren(r, kids, depth, past).value.nodes) <= Max(MaxHeight(kids), Reach(depth))
    decreases Rank(depth), 1, |kids|
  {
    if kids != [] && ProcessChildren(r, kids, depth, past).Success? {
      var first := ProcessSubject(r, kids[0], depth, past).value;
      var rest := ProcessChildren(r, kids[1..], depth, past + first.trace).value;
      VisitHeight(r, kids[0], depth, past);
      FanoutHeight(r, kids[1..], depth, past + first.trace);
      var nodes := [first.node] + rest.nodes;
      assert nodes[0] == first.node && nodes[1..] == rest.nodes;
    }
  }

  /** With flat child lists and a root reply without children, a generated plan is at most three
      levels deep, counting the root. */
  lemma GeneratedPlanHeight(r: Responder, goal: string, planId: string, rootId: string)
    requires FlatChildLists(r)
    requires forall h :: r.root(h).Success? ==> r.root(h).value.subjects.None? || r.root(h).value.subjects.value == []
    ensures Generate(r, goal, planId, rootId).Success? ==>
      Height(Generate(r, goal, planId, rootId).value.plan.subject) <= MaxDecompositionDepth
  {
    var q0 := Request(RootSubject, goal, 0);
    if Generate(r, goal, planId, rootId).Success? {
      var root := ParseSubject(r.root([q0]).value, rootId).value;
      assert MaxHeight(root.subjects) == 0;
      VisitHeight(r, root, 1, [q0]);
    }
  }

  // ---------------------------------------------------------------------------------------------
  // The visit as the source runs it

  /** `_process_subject` / `process_subject` step by step: the answer starts out empty and the
      decision is asked only below the cut-off depth. */
  method ProcessSubjectLoop(r: Responder, s: Subject, depth: nat, past: seq<Request>) returns (res: Result<Expansion>)
    ensures res == ProcessSubject(r, s, depth, past)
    decreases Rank(depth), 0
  {
    var answer := "";
    var trace: seq<Request> := [];
    if depth < MaxDecompositionDepth {
      var q := Request(Decide, s.subject, depth);
      trace := [q];
      var reply := r.answer(past + trace, s);
      if reply.Failure? {
        return Failure(reply.error);
      }
      var got := AskForAnswer(reply.value);
      if got.Failure? {
        return Failure(got.error);
      }
      answer := got.value;
    }
    if answer == Topics {
      var q2 := Request(Decompose, s.subject, depth);
      trace := trace + [q2];
      assert depth < MaxDecompositionDepth && trace == [Request(Decide, s.subject, depth), q2];
      var reply := r.subjects(past + trace, s);
      if reply.Failure? {
        return Failure(reply.error);
      }
      var s1 := AddSubjectsAndTopics(s, reply.value);
      var fan := FanoutLoop(r, s1.subjects, depth + 1, past + trace);
      if fan.Failure? {
        return Failure(fan.error);
      }
      res := Success(Expansion(s1.(subjects := fan.value.nodes), trace + fan.value.trace));
    } else {
      assert trace == if depth < MaxDecompositionDepth then [Request(Decide, s.subject, depth)] else [];
      assert depth >= MaxDecompositionDepth ==> past + trace == past;
      var t := TerminalStep(r, s, depth, past + trace);
      if t.Failure? {
        return Failure(t.error);
      }
      res := Success(Expansion(t.value.node, trace + t.value.trace));
      if depth >= MaxDecompositionDepth {
        assert trace + t.value.trace == t.value.trace;
      } else {
        assert AskForAnswer(r.answer(past + trace, s).value).value != Topics;
      }
    }
  }

  /** The loop over `subject.subjects`: the source schedules one task per child and joins them
      all before it returns; here the children are visited one after the other, each with the
      requests of its elder siblings in its history. */
  method FanoutLoop(r: Responder, kids: seq<Subject>, depth: nat, past: seq<Request>) returns (res: Result<Fanout>)
    ensures res == ProcessChildren(r, kids, depth, past)
    decreases Rank(depth), 1
  {
    var done: seq<Subject> := [];
    var trace: seq<Request> := [];
    var i := 0;
    while i < |kids|
      invariant 0 <= i <= |kids|
      invariant ProcessChildren(r, kids[..i], depth, past) == Success(Fanout(done, trace))
    {
      var child := ProcessSubjectLoop(r, kids[i], depth, past + trace);
      ProcessChildrenSnoc(r, kids[..i], kids[i], depth, past);
      assert kids[..i + 1] == kids[..i] + [kids[i]];
      if child.Failure? {
        ChildFailureAbortsFanout(r, kids, i, depth, past);
        return Failure(child.error);
      }
      done := done + [child.value.node];
      trace := trace + child.value.trace;
      i := i + 1;
    }
    assert kids[..i] == kids;
    res := Success(Fanout(done, trace));
  }

  /** `_add_resources_and_exercises` as the source runs it: one request, then the node's
      `resources` and `exercises` assigned one after the other, each only when the reply has
      that key, with a validation failure aborting the step. */
  method TerminalStep(r: Responder, s: Subject, depth: nat, past: seq<Request>) returns (res: Result<Expansion>)
    ensures res == TerminalVisit(r, s, depth, past)
  {
    var q := Request(Terminalize, s.subject, depth);
    var reply := r.material(past + [q], s);
    if reply.Failure? {
      return Failure(reply.error);
    }
    var data := reply.value;
    var node := s;
    if data.resources.Some? {
      var resources := ParseAll(ParseResource, data.resources.value);
      if resources.Failure? {
        return Failure(resources.error);
      }
      node := node.(resources := resources.value);
    }
    if data.exercises.Some? {
      var exercises := ParseAll(ParseExercise, data.exercises.value);
      if exercises.Failure? {
        return Failure(exercises.error);
      }
      node := node.(exercises := exercises.value);
    }
    res := Success(Expansion(node, [q]));
  }
}
