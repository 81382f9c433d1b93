/** Whole runs of the planner against fixed responders: end-to-end plan generations, proved
    on concrete replies. */
module Scenarios {
  import opened Results
  import opened Model
  import opened Planner

  function TerminalReplies(): Responder {
    Responder(
      h => Success(SubjectFields(None, Some("X"), Some("d"), Some("r"), None, None, None)),
      (h, s) => Success(Some(ResourcesAndExercises)),
      (h, s) => Success(None),
      (h, s) => Success(MaterialReply(Some([ResourceFields(Some("Book"), Some("intro"))]), Some([]))))
  }

  /** A root that is answered "resources/exercises" stays a leaf with the resource it was given. */
  lemma TerminalRootScenario(goal: string, planId: string, rootId: string)
    ensures Generate(TerminalReplies(), goal, planId, rootId) == Success(Generated(
      Plan(planId, goal, Subject(rootId, "X", "d", "r", [], [Resource("Book", "intro")], [])),
      [Request(RootSubject, goal, 0), Request(Decide, "X", 1), Request(Terminalize, "X", 1)]))
  {
    var r := TerminalReplies();
    var root := Subject(rootId, "X", "d", "r", [], [], []);
    assert ResourcesAndExercises != Topics by { assert |ResourcesAndExercises| != |Topics|; }
    var fields := [ResourceFields(Some("Book"), Some("intro"))];
    assert fields[1..] == [];
    assert ParseResource(fields[0]) == Success(Resource("Book", "intro"));
    assert ParseAll(ParseResource, fields[1..]) == Success([]);
    assert [Resource("Book", "intro")] + [] == [Resource("Book", "intro")];
    assert ParseAll(ParseResource, fields) == Success([Resource("Book", "intro")]);
    var p := [Request(RootSubject, goal, 0)];
    assert r.answer(p + [Request(Decide, "X", 1)], root) == Success(Some(ResourcesAndExercises));
    assert AddResourcesAndExercises(root, MaterialReply(Some(fields), Some([])))
      == Success(root.(resources := [Resource("Book", "intro")]));
    assert TerminalVisit(r, root, 1, p + [Request(Decide, "X", 1)]) == Success(Expansion(
      root.(resources := [Resource("Book", "intro")]), [Request(Terminalize, "X", 1)]));
    assert [Request(Decide, "X", 1)] + [Request(Terminalize, "X", 1)] == [Request(Decide, "X", 1), Request(Terminalize, "X", 1)];
    assert ProcessSubject(r, root, 1, [Request(RootSubject, goal, 0)]) == Success(Expansion(
      root.(resources := [Resource("Book", "intro")]), [Request(Decide, "X", 1), Request(Terminalize, "X", 1)]));
    assert ParseSubject(r.root(p).value, rootId) == Success(root);
    assert p + [Request(Decide, "X", 1), Request(Terminalize, "X", 1)]
      == [Request(RootSubject, goal, 0), Request(Decide, "X", 1), Request(Terminalize, "X", 1)];
  }

  function Leaf(id: string, title: string): Subject {
    Subject(id, title, "", "", [], [], [])
  }

  /** The root "X" is decomposed into "A" and "B"; those are answered "resources/exercises".
      `failing` names a title whose resources-and-exercises reply cannot be decoded. */
  function SplitReplies(failing: string): Responder {
    Responder(
      h => Success(SubjectFields(None, Some("X"), None, None, None, None, None)),
      (h, s: Subject) => Success(Some(if s.subject == "X" then Topics else ResourcesAndExercises)),
      (h, s) => Success(Some([Leaf("a", "A"), Leaf("b", "B")])),
      (h, s: Subject) => if s.subject == failing then Failure(DecodeError)
                else Success(MaterialReply(Some([]), Some([]))))
  }

  /** A leaf other than "X" is asked to decide, answered "resources/exercises", and gets empty
      lists, unless it is the failing one. */
  lemma LeafVisit(failing: string, leaf: Subject, past: seq<Request>)
    requires leaf.subject != "X" && leaf.subjects == [] && leaf.resources == [] && leaf.exercises == []
    ensures ProcessSubject(SplitReplies(failing), leaf, 2, past) ==
      if leaf.subject == failing then Failure(DecodeError)
      else Success(Expansion(leaf, [Request(Decide, leaf.subject, 2), Request(Terminalize, leaf.subject, 2)]))
  {
    var r := SplitReplies(failing);
    var q := Request(Decide, leaf.subject, 2);
    assert ResourcesAndExercises != Topics by { assert |ResourcesAndExercises| != |Topics|; }
    assert r.answer(past + [q], leaf) == Success(Some(ResourcesAndExercises));
    assert AskForAnswer(Some(ResourcesAndExercises)) == Success(ResourcesAndExercises);
    var t := Request(Terminalize, leaf.subject, 2);
    if leaf.subject != failing {
      assert r.material(past + [q] + [t], leaf) == Success(MaterialReply(Some([]), Some([])));
      assert AddResourcesAndExercises(leaf, MaterialReply(Some([]), Some([]))) == Success(leaf);
      assert TerminalVisit(r, leaf, 2, past + [q]) == Success(Expansion(leaf, [t]));
      assert [q] + [t] == [q, t];
    } else {
      assert r.material(past + [q] + [t], leaf) == Failure(DecodeError);
    }
  }

  /** Decomposing the root into "A" and "B" gives exactly those two children, in that order, each
      resolved as a leaf one level down, and the root keeps no resources or exercises. */
  lemma DecomposedRootScenario(goal: string, planId: string, rootId: string)
    ensures var g := Generate(SplitReplies(""), goal, planId, rootId);
      && g.Success?
      && g.value.plan.subject == Subject(rootId, "X", "", "", [Leaf("a", "A"), Leaf("b", "B")], [], [])
      && g.value.trace == [
        Request(RootSubject, goal, 0), Request(Decide, "X", 1), Request(Decompose, "X", 1),
        Request(Decide, "A", 2), Request(Terminalize, "A", 2),
        Request(Decide, "B", 2), Request(Terminalize, "B", 2)]
  {
    var r := SplitReplies("");
    var q0, q1, q2 := Request(RootSubject, goal, 0), Request(Decide, "X", 1), Request(Decompose, "X", 1);
    var a, b := Leaf("a", "A"), Leaf("b", "B");
    var ta := [Request(Decide, "A", 2), Request(Terminalize, "A", 2)];
    var tb := [Request(Decide, "B", 2), Request(Terminalize, "B", 2)];
    LeafVisit("", a, [q0, q1, q2]);
    LeafVisit("", b, [q0, q1, q2] + ta);
    assert [b][1..] == [] && [b] + [] == [b] && tb + [] == tb;
    assert ProcessChildren(r, [b], 2, [q0, q1, q2] + ta) == Success(Fanout([b], tb));
    assert [a] + [b] == [a, b];
    assert [a, b][1..] == [b];
    assert ProcessChildren(r, [a, b], 2, [q0, q1, q2]) == Success(Fanout([a, b], ta + tb));
  }

  /** A reply for "B" that cannot be decoded fails the whole run with that error: no partial plan. */
  lemma MalformedLeafScenario(goal: string, planId: string, rootId: string)
    ensures Generate(SplitReplies("B"), goal, planId, rootId) == Failure(DecodeError)
  {
    var r := SplitReplies("B");
    var q0, q1, q2 := Request(RootSubject, goal, 0), Request(Decide, "X", 1), Request(Decompose, "X", 1);
    var a, b := Leaf("a", "A"), Leaf("b", "B");
    var ta := [Request(Decide, "A", 2), Request(Terminalize, "A", 2)];
    LeafVisit("B", a, [q0, q1, q2]);
    LeafVisit("B", b, [q0, q1, q2] + ta);
    assert [a, b][1..] == [b];
    assert ProcessChildren(r, [a, b], 2, [q0, q1, q2]) == Failure(DecodeError);
  }
}
